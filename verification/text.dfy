/** Plain text operations shared by the path, pointer and key modules. */
module Text {

  datatype Option<+T> = None | Some(value: T)

  predicate EndsWith(text: string, tail: string) {
    |tail| <= |text| && text[|text| - |tail|..] == tail
  }

  predicate StartsWith(text: string, head: string) {
    |head| <= |text| && text[..|head|] == head
  }

  /** The pieces between slashes; a text without a slash is one piece. */
  function Split(text: string): (parts: seq<string>)
    ensures |parts| > 0
  {
    if text == "" then [""]
    else
      var rest := Split(text[1..]);
      if text[0] == '/' then [""] + rest
      else [[text[0]] + rest[0]] + rest[1..]
  }

  /** Every key preceded by a slash, which is how a walk position and a JSON pointer are spelled. */
  function Slashed(keys: seq<string>): string {
    if keys == [] then "" else "/" + (keys[0] + Slashed(keys[1..]))
  }

  /** The keys with one slash between neighbours. */
  function Join(keys: seq<string>): string {
    if keys == [] then "" else keys[0] + Slashed(keys[1..])
  }

  lemma {:induction false} SlashedConcat(left: seq<string>, right: seq<string>)
    ensures Slashed(left + right) == Slashed(left) + Slashed(right)
  {
    if left == [] {
      assert left + right == right;
    } else {
      assert (left + right)[1..] == left[1..] + right;
      SlashedConcat(left[1..], right);
    }
  }

  lemma {:induction false} SplitPrefix(key: string, rest: string)
    requires '/' !in key
    ensures rest == "" ==> Split(key + rest) == [key]
    ensures rest != "" && rest[0] == '/' ==> Split(key + rest) == [key] + Split(rest[1..])
  {
    if key == "" {
      assert key + rest == rest;
    } else {
      assert (key + rest)[1..] == key[1..] + rest;
      SplitPrefix(key[1..], rest);
      assert key == [key[0]] + key[1..];
      var parts := Split(key[1..] + rest);
      assert Split(key + rest) == [[key[0]] + parts[0]] + parts[1..];
    }
  }

  /** Splitting undoes joining for keys that hold no slash. */
  lemma {:induction false} SplitJoin(keys: seq<string>)
    requires keys != []
    requires forall k <- keys :: '/' !in k
    ensures Split(Join(keys)) == keys
  {
    var rest := Slashed(keys[1..]);
    assert Join(keys) == keys[0] + rest;
    SplitPrefix(keys[0], rest);
    if |keys| > 1 {
      SplitJoin(keys[1..]);
      assert rest == "/" + Join(keys[1..]);
      assert rest[1..] == Join(keys[1..]);
      assert keys == [keys[0]] + keys[1..];
    } else {
      assert keys == [keys[0]];
    }
  }

  /** Joining undoes splitting for every text, and no piece holds a slash. */
  lemma {:induction false} JoinSplit(text: string)
    ensures Join(Split(text)) == text
    ensures forall k <- Split(text) :: '/' !in k
  {
    if text != "" {
      JoinSplit(text[1..]);
      JoinSplitStep(text[0], Split(text[1..]));
      assert [text[0]] + text[1..] == text;
    }
  }

  lemma JoinSplitStep(c: char, rest: seq<string>)
    requires rest != []
    ensures Join([""] + rest) == "/" + Join(rest)
    ensures Join([[c] + rest[0]] + rest[1..]) == [c] + Join(rest)
  {
    assert ([""] + rest)[1..] == rest;
    assert "" + Slashed(rest) == Slashed(rest);
    assert ([[c] + rest[0]] + rest[1..])[1..] == rest[1..];
    assert ([c] + rest[0]) + Slashed(rest[1..]) == [c] + (rest[0] + Slashed(rest[1..]));
  }

  lemma SplitCons(c: char, rest: string)
    ensures Split([c] + rest) ==
      if c == '/' then [""] + Split(rest) else [[c] + Split(rest)[0]] + Split(rest)[1..]
  {
    assert ([c] + rest)[1..] == rest;
  }

  lemma {:induction false} SplitAtSlash(left: string, right: string)
    ensures Split(left + "/" + right) == Split(left) + Split(right)
  {
    hide Split;
    if left == "" {
      assert left + "/" + right == ['/'] + right;
      SplitCons('/', right);
      SplitEmpty();
    } else {
      var c, more := left[0], left[1..];
      assert left + "/" + right == [c] + (more + "/" + right) && left == [c] + more;
      SplitAtSlash(more, right);
      SplitCons(c, more + "/" + right);
      SplitCons(c, more);
      assert (Split(more) + Split(right))[1..] == Split(more)[1..] + Split(right);
    }
  }

  lemma SplitEmpty()
    ensures Split("") == [""]
  {
  }

  lemma {:induction false} SplitLength(text: string)
    ensures |Split(text)| == 1 <==> '/' !in text
  {
    if text != "" {
      SplitLength(text[1..]);
      assert text == [text[0]] + text[1..];
    }
  }

  /** The decimal notation. */
  function Decimal(n: nat): (digits: string)
    ensures digits != "" && forall c <- digits :: '0' <= c <= '9'
  {
    if n < 10 then ['0' + n as char] else Decimal(n / 10) + ['0' + (n % 10) as char]
  }

  lemma {:induction false} DecimalInjective(m: nat, n: nat)
    requires Decimal(m) == Decimal(n)
    ensures m == n
  {
    if m < 10 && n < 10 {
      assert Decimal(m)[0] == '0' + m as char && Decimal(n)[0] == '0' + n as char;
    } else if m < 10 || n < 10 {
      LongDecimal(m);
      LongDecimal(n);
    } else {
      var left, right := Decimal(m / 10), Decimal(n / 10);
      assert Decimal(m)[..|Decimal(m)| - 1] == left && Decimal(n)[..|Decimal(n)| - 1] == right;
      assert Decimal(m)[|left|] == '0' + (m % 10) as char && Decimal(n)[|right|] == '0' + (n % 10) as char;
      DecimalInjective(m / 10, n / 10);
    }
  }

  lemma LongDecimal(n: nat)
    ensures n < 10 <==> |Decimal(n)| == 1
  {
  }
}
