/** Documents and the JSON pointers into them (scripts/openapi_codegen/loading.py). */
module Loading {
  import opened Text

  /** A parsed YAML value; numbers and booleans keep their literal. */
  datatype Value =
    | Null
    | Literal(literal: string)
    | Str(text: string)
    | List(items: seq<Value>)
    | Object(fields: map<string, Value>)

  /** Python's str.replace for a two-character pattern and a one-character replacement. */
  function Replace(text: string, first: char, second: char, with: char): string {
    if |text| < 2 then text
    else if text[0] == first && text[1] == second then [with] + Replace(text[2..], first, second, with)
    else [text[0]] + Replace(text[1..], first, second, with)
  }

  function Unescape(part: string): string {
    Replace(Replace(part, '~', '1', '/'), '~', '0', '~')
  }

  /** Section 3 of RFC 6901: how a key is spelled inside a pointer. */
  function Escape(key: string): string {
    if key == "" then ""
    else if key[0] == '~' then "~0" + Escape(key[1..])
    else if key[0] == '/' then "~1" + Escape(key[1..])
    else [key[0]] + Escape(key[1..])
  }

  function EscapeAll(keys: seq<string>): seq<string> {
    if keys == [] then [] else [Escape(keys[0])] + EscapeAll(keys[1..])
  }

  function UnescapeAll(parts: seq<string>): seq<string> {
    if parts == [] then [] else [Unescape(parts[0])] + UnescapeAll(parts[1..])
  }

  /** The keys a pointer names, or None for a fragment that is not a pointer. */
  function Keys(fragment: string): Option<seq<string>> {
    if fragment == "" then Some([])
    else if fragment[0] != '/' then None
    else Some(UnescapeAll(Split(fragment[1..])))
  }

  /** One key applied to one value; `index` is Python's int(). */
  function Child(value: Value, key: string, index: string -> Option<int>): Option<Value> {
    match value
    case List(items) =>
      (match index(key)
       case Some(i) =>
         if 0 <= i < |items| then Some(items[i])
         else if -|items| <= i < 0 then Some(items[|items| + i])
         else None
       case None => None)
    case Object(fields) => if key in fields then Some(fields[key]) else None
    case _ => None
  }

  function Follow(value: Value, keys: seq<string>, index: string -> Option<int>): Option<Value>
    decreases keys
  {
    if keys == [] then Some(value)
    else match Child(value, keys[0], index)
      case Some(child) => Follow(child, keys[1..], index)
      case None => None
  }

  function Pointed(document: Value, fragment: string, index: string -> Option<int>): Option<Value> {
    match Keys(fragment)
    case Some(keys) => Follow(document, keys, index)
    case None => None
  }

  /** None stands for the ValueError the program raises. */
  method Pointer(document: Value, fragment: string, index: string -> Option<int>) returns (found: Option<Value>)
    ensures found == Pointed(document, fragment, index)
  {
    if fragment == "" {
      return Some(document);
    }
    if fragment[0] != '/' {
      return None;
    }
    var value := document;
    var parts := Split(fragment[1..]);
    for i := 0 to |parts|
      invariant Follow(document, UnescapeAll(parts), index) == Follow(value, UnescapeAll(parts[i..]), index)
    {
      assert parts[i..][0] == parts[i] && parts[i..][1..] == parts[i + 1..];
      var key := Unescape(parts[i]);
      assert UnescapeAll(parts[i..]) == [key] + UnescapeAll(parts[i + 1..]);
      match Child(value, key, index)
      case Some(child) => value := child;
      case None => return None;
    }
    return Some(value);
  }

  /** A key of a list picks what Python's indexing picks: the item at the number, counted from the end when negative. */
  lemma ChildOfList(items: seq<Value>, key: string, index: string -> Option<int>, i: nat)
    requires i < |items|
    ensures index(key) == Some(i) ==> Child(List(items), key, index) == Some(items[i])
    ensures index(key) == Some(i - |items|) ==> Child(List(items), key, index) == Some(items[i])
    ensures Child(List(items), key, index).Some? ==>
      index(key).Some? && -|items| <= index(key).value < |items|
  {
  }

  function EscapeTilde(key: string): string {
    if key == "" then ""
    else if key[0] == '~' then "~0" + EscapeTilde(key[1..])
    else [key[0]] + EscapeTilde(key[1..])
  }

  lemma ReplaceStep(c: char, rest: string, first: char, second: char, with: char)
    requires c != first
    ensures Replace([c] + rest, first, second, with) == [c] + Replace(rest, first, second, with)
  {
    assert ([c] + rest)[1..] == rest;
  }

  lemma ReplaceMatch(rest: string, first: char, second: char, with: char)
    ensures Replace([first, second] + rest, first, second, with) == [with] + Replace(rest, first, second, with)
  {
    assert ([first, second] + rest)[2..] == rest;
  }

  lemma ReplaceMiss(c: char, rest: string, first: char, second: char, with: char)
    requires c != second && c != first
    ensures Replace([first, c] + rest, first, second, with) == [first, c] + Replace(rest, first, second, with)
  {
    assert ([first, c] + rest)[1..] == [c] + rest;
    ReplaceStep(c, rest, first, second, with);
  }

  lemma {:induction false} FirstReplace(key: string)
    ensures Replace(Escape(key), '~', '1', '/') == EscapeTilde(key)
  {
    if key != "" {
      FirstReplace(key[1..]);
      if key[0] == '~' {
        ReplaceMiss('0', Escape(key[1..]), '~', '1', '/');
      } else if key[0] == '/' {
        ReplaceMatch(Escape(key[1..]), '~', '1', '/');
      } else {
        ReplaceStep(key[0], Escape(key[1..]), '~', '1', '/');
      }
    }
  }

  lemma {:induction false} SecondReplace(key: string)
    ensures Replace(EscapeTilde(key), '~', '0', '~') == key
  {
    if key != "" {
      SecondReplace(key[1..]);
      if key[0] == '~' {
        ReplaceMatch(EscapeTilde(key[1..]), '~', '0', '~');
      } else {
        ReplaceStep(key[0], EscapeTilde(key[1..]), '~', '0', '~');
      }
      assert [key[0]] + key[1..] == key;
    }
  }

  lemma {:induction false} EscapeHasNoSlash(key: string)
    ensures '/' !in Escape(key)
  {
    if key != "" {
      EscapeHasNoSlash(key[1..]);
    }
  }

  lemma {:induction false} UnescapeEscapeAll(keys: seq<string>)
    ensures UnescapeAll(EscapeAll(keys)) == keys
    ensures |EscapeAll(keys)| == |keys|
    ensures forall part <- EscapeAll(keys) :: '/' !in part
  {
    if keys != [] {
      FirstReplace(keys[0]);
      SecondReplace(keys[0]);
      EscapeHasNoSlash(keys[0]);
      UnescapeEscapeAll(keys[1..]);
    }
  }

  /** A pointer spelled as RFC 6901 asks names exactly the keys it was spelled from. */
  lemma KeysOfPointer(keys: seq<string>)
    ensures Keys(Slashed(EscapeAll(keys))) == Some(keys)
  {
    if keys != [] {
      UnescapeEscapeAll(keys);
      var parts := EscapeAll(keys);
      SplitJoin(parts);
      assert Slashed(parts) == "/" + Join(parts);
    }
  }

  // ----- keys that are written as they are -----

  predicate Occurs(text: string, first: char, second: char) {
    exists i | 0 <= i < |text| - 1 :: text[i] == first && text[i + 1] == second
  }

  /** A key that holds no slash, and no tilde that reads as an escape. */
  predicate Spellable(key: string) {
    '/' !in key && !Occurs(key, '~', '0') && !Occurs(key, '~', '1')
  }

  lemma {:induction false} ReplaceKeeps(text: string, first: char, second: char, with: char)
    ensures |Replace(text, first, second, with)| <= |text|
    ensures !Occurs(text, first, second) ==> Replace(text, first, second, with) == text
    ensures Occurs(text, first, second) ==> |Replace(text, first, second, with)| < |text|
    decreases |text|
  {
    if |text| >= 2 {
      if text[0] == first && text[1] == second {
        ReplaceKeeps(text[2..], first, second, with);
      } else {
        ReplaceKeeps(text[1..], first, second, with);
        OccursLater(text, first, second);
        assert [text[0]] + text[1..] == text;
      }
    }
  }

  lemma OccursLater(text: string, first: char, second: char)
    requires |text| >= 2 && !(text[0] == first && text[1] == second)
    ensures Occurs(text, first, second) <==> Occurs(text[1..], first, second)
  {
    var rest := text[1..];
    if Occurs(text, first, second) {
      var i :| 0 <= i < |text| - 1 && text[i] == first && text[i + 1] == second;
      assert rest[i - 1] == first && rest[i] == second;
      assert 0 <= i - 1 < |rest| - 1 && rest[i - 1 + 1] == second;
    }
    if Occurs(rest, first, second) {
      var i :| 0 <= i < |rest| - 1 && rest[i] == first && rest[i + 1] == second;
      assert text[i + 1] == first && text[i + 1 + 1] == second;
    }
  }

  lemma UnescapeKeeps(key: string)
    ensures Unescape(key) == key <==> !Occurs(key, '~', '0') && !Occurs(key, '~', '1')
  {
    hide Replace, Occurs;
    ReplaceKeeps(key, '~', '1', '/');
    ReplaceKeeps(Replace(key, '~', '1', '/'), '~', '0', '~');
  }

  lemma {:induction false} UnescapeAllKeeps(keys: seq<string>)
    ensures |UnescapeAll(keys)| == |keys|
    ensures UnescapeAll(keys) == keys <==>
      forall k <- keys :: !Occurs(k, '~', '0') && !Occurs(k, '~', '1')
  {
    hide Occurs, Unescape;
    if keys != [] {
      UnescapeKeeps(keys[0]);
      UnescapeAllKeeps(keys[1..]);
      assert keys == [keys[0]] + keys[1..];
      assert UnescapeAll(keys)[0] == Unescape(keys[0]) && UnescapeAll(keys)[1..] == UnescapeAll(keys[1..]);
    }
  }

  lemma {:induction false} PiecesOfJoin(keys: seq<string>)
    requires keys != []
    ensures |Split(Join(keys))| >= |keys|
    ensures |Split(Join(keys))| == |keys| ==> forall k <- keys :: '/' !in k
  {
    hide Split;
    SplitLength(keys[0]);
    assert keys == [keys[0]] + keys[1..];
    if |keys| == 1 {
      assert Join(keys) == keys[0] + "" == keys[0];
    } else {
      PiecesOfJoin(keys[1..]);
      assert Slashed(keys[1..]) == "/" + Join(keys[1..]);
      assert Join(keys) == keys[0] + "/" + Join(keys[1..]);
      SplitAtSlash(keys[0], Join(keys[1..]));
    }
  }

  /** Keys that are joined by slashes without escaping name themselves exactly if each of them is spellable. */
  lemma SpelledExactly(keys: seq<string>)
    ensures Keys(Slashed(keys)) == Some(keys) <==> forall k <- keys :: Spellable(k)
  {
    if keys != [] {
      hide Split, UnescapeAll, Occurs;
      var parts := Split(Join(keys));
      assert Slashed(keys) == "/" + Join(keys) && Slashed(keys)[1..] == Join(keys);
      PiecesOfJoin(keys);
      UnescapeAllKeeps(parts);
      if forall k <- keys :: '/' !in k {
        SplitJoin(keys);
      }
    }
  }
}
