/** The text that identifies a driver probe before it is hashed (src/platform/DriverProbeKey.cpp), and the memory
    of probed include paths (src/platform/DriverIncludes.cpp). */
module ProbeKey {
  import opened Text

  // ----- length-prefixed fields -----

  function Field(value: string): string {
    Decimal(|value|) + ":" + value
  }

  function Fields(values: seq<string>): string {
    if values == [] then "" else Fields(values[..|values| - 1]) + Field(values[|values| - 1])
  }

  /** A text of digits ends where the colon stands. */
  lemma {:induction false} DigitsEnd(a: string, b: string, x: string, y: string)
    requires ':' !in a && ':' !in b && a + ":" + x == b + ":" + y
    ensures a == b && x == y
  {
    var left, right := a + ":" + x, b + ":" + y;
    ColonFirst(a, x);
    ColonFirst(b, y);
    if a == "" {
      assert left[1..] == x && right[1..] == y;
    } else {
      assert left[0] == a[0] && right[0] == b[0];
      assert left[1..] == a[1..] + ":" + x && right[1..] == b[1..] + ":" + y;
      DigitsEnd(a[1..], b[1..], x, y);
      assert a == [a[0]] + a[1..] && b == [b[0]] + b[1..];
    }
  }

  lemma ColonFirst(a: string, x: string)
    requires ':' !in a
    ensures (a + ":" + x)[0] == ':' <==> a == ""
  {
    if a != "" {
      assert (a + ":" + x)[0] == a[0] && a[0] in a;
    }
  }

  /** One field is read off the front of a text in one way only. */
  lemma FieldInjective(a: string, b: string, x: string, y: string)
    requires Field(a) + x == Field(b) + y
    ensures a == b && x == y
  {
    assert Field(a) + x == Decimal(|a|) + ":" + (a + x);
    assert Field(b) + y == Decimal(|b|) + ":" + (b + y);
    DigitsEnd(Decimal(|a|), Decimal(|b|), a + x, b + y);
    DecimalInjective(|a|, |b|);
    assert (a + x)[..|a|] == a && (b + y)[..|b|] == b;
    assert (a + x)[|a|..] == x && (b + y)[|b|..] == y;
  }

  lemma {:induction false} FieldsFront(values: seq<string>)
    requires values != []
    ensures Fields(values) == Field(values[0]) + Fields(values[1..])
  {
    hide Fields, Field;
    var n := |values| - 1;
    var last := values[n];
    NoFields();
    AppendField(values[..n], last);
    assert values == values[..n] + [last];
    if n == 0 {
      assert values[..0] == [] && values[1..] == [];
      assert "" + Field(last) == Field(last) == Field(last) + "";
    } else {
      FieldsFront(values[..n]);
      AppendField(values[1..n], last);
      assert values[..n][1..] == values[1..n] && values[1..] == values[1..n] + [last];
    }
  }

  lemma FieldNotEmpty(value: string)
    ensures Field(value) != ""
  {
  }

  /** A list of fields is determined by its text, however many there are. */
  lemma {:induction false} FieldsInjective(left: seq<string>, right: seq<string>)
    requires Fields(left) == Fields(right)
    ensures left == right
  {
    hide Fields, Field;
    NoFields();
    if left == [] || right == [] {
      if left != [] {
        FieldsFront(left);
        FieldNotEmpty(left[0]);
      }
      if right != [] {
        FieldsFront(right);
        FieldNotEmpty(right[0]);
      }
    } else {
      FieldsFront(left);
      FieldsFront(right);
      FieldInjective(left[0], right[0], Fields(left[1..]), Fields(right[1..]));
      FieldsInjective(left[1..], right[1..]);
      assert left == [left[0]] + left[1..] && right == [right[0]] + right[1..];
    }
  }

  lemma NoFields()
    ensures Fields([]) == ""
  {
  }

  // ----- the key -----

  function SignedDecimal(n: int): string {
    if n < 0 then "-" + Decimal(-n) else Decimal(n)
  }

  lemma SignedDecimalInjective(m: int, n: int)
    requires SignedDecimal(m) == SignedDecimal(n)
    ensures m == n
  {
    Sign(m);
    Sign(n);
    if m < 0 {
      assert SignedDecimal(m)[1..] == Decimal(-m) && SignedDecimal(n)[1..] == Decimal(-n);
      DecimalInjective(-m, -n);
    } else {
      DecimalInjective(m, n);
    }
  }

  lemma Sign(n: int)
    ensures SignedDecimal(n) != "" && (SignedDecimal(n)[0] == '-' <==> n < 0)
  {
    if n >= 0 {
      assert Decimal(n)[0] in Decimal(n);
    }
  }

  /** The driver, its file, the directory, the options, and the environment variables that are set. */
  datatype Probe = Probe(driver: string, canonical: string, size: nat, modified: int, directory: string,
                         options: seq<string>, environment: map<string, string>)

  const ENVIRONMENT := ["PATH", "GCC_EXEC_PREFIX", "COMPILER_PATH", "LIBRARY_PATH", "CPATH", "CPLUS_INCLUDE_PATH",
                        "C_INCLUDE_PATH", "OBJC_INCLUDE_PATH", "SDKROOT", "MACOSX_DEPLOYMENT_TARGET", "LANG",
                        "LC_ALL", "LC_MESSAGES"]

  function Variable(environment: map<string, string>, name: string): Option<string> {
    if name in environment then Some(environment[name]) else None
  }

  function VariableFields(environment: map<string, string>, name: string): seq<string> {
    match Variable(environment, name)
    case Some(value) => [name, "set", value]
    case None => [name, "unset", ""]
  }

  function EnvironmentFields(environment: map<string, string>, names: seq<string>): (fields: seq<string>)
    ensures |fields| == 3 * |names|
  {
    if names == [] then []
    else EnvironmentFields(environment, names[..|names| - 1]) + VariableFields(environment, names[|names| - 1])
  }

  function HeadFields(probe: Probe): seq<string> {
    ["gnu-cxx-includes-v1", probe.driver, probe.canonical, Decimal(probe.size), SignedDecimal(probe.modified),
     probe.directory]
  }

  function KeyFields(probe: Probe): seq<string> {
    HeadFields(probe) + probe.options + EnvironmentFields(probe.environment, ENVIRONMENT)
  }

  function KeyText(probe: Probe): string {
    Fields(KeyFields(probe))
  }

  lemma AppendField(values: seq<string>, value: string)
    ensures Fields(values + [value]) == Fields(values) + Field(value)
  {
    assert (values + [value])[..|values|] == values;
  }

  lemma {:induction false} FieldsConcat(left: seq<string>, right: seq<string>)
    ensures Fields(left + right) == Fields(left) + Fields(right)
  {
    hide Field;
    if right == [] {
      assert left + right == left;
    } else {
      var n := |right| - 1;
      FieldsConcat(left, right[..n]);
      assert (left + right)[..|left| + n] == left + right[..n];
    }
  }

  /** The text of a list of fields, one after the other. */
  method Write(values: seq<string>) returns (text: string)
    ensures text == Fields(values)
  {
    text := "";
    for i := 0 to |values|
      invariant text == Fields(values[..i])
    {
      assert values[..i + 1][..i] == values[..i];
      text := text + Field(values[i]);
    }
    assert values[..|values|] == values;
  }

  /** Name, state and value of every environment variable. */
  method WriteEnvironment(environment: map<string, string>) returns (text: string)
    ensures text == Fields(EnvironmentFields(environment, ENVIRONMENT))
  {
    hide Fields, Field;
    NoFields();
    text := "";
    for i := 0 to |ENVIRONMENT|
      invariant text == Fields(EnvironmentFields(environment, ENVIRONMENT[..i]))
    {
      assert ENVIRONMENT[..i + 1][..i] == ENVIRONMENT[..i];
      var name := ENVIRONMENT[i];
      var value := Variable(environment, name);
      var state := if value.Some? then "set" else "unset";
      var content := if value.Some? then value.value else "";
      ThreeFields(EnvironmentFields(environment, ENVIRONMENT[..i]), name, state, content);
      text := text + Field(name) + Field(state) + Field(content);
    }
    assert ENVIRONMENT[..|ENVIRONMENT|] == ENVIRONMENT;
  }

  lemma ThreeFields(values: seq<string>, a: string, b: string, c: string)
    ensures Fields(values + [a, b, c]) == Fields(values) + Field(a) + Field(b) + Field(c)
  {
    hide Fields, Field;
    AppendField(values, a);
    AppendField(values + [a], b);
    AppendField(values + [a] + [b], c);
    assert values + [a] + [b] + [c] == values + [a, b, c];
  }

  /** The stream of the key, field by field. */
  method DriverProbeKey(probe: Probe) returns (key: string)
    ensures key == KeyText(probe)
  {
    hide Fields, Field, EnvironmentFields;
    var head := Write(HeadFields(probe));
    var options := Write(probe.options);
    var environment := WriteEnvironment(probe.environment);
    FieldsConcat(HeadFields(probe), probe.options);
    FieldsConcat(HeadFields(probe) + probe.options, EnvironmentFields(probe.environment, ENVIRONMENT));
    return head + options + environment;
  }

  lemma {:induction false} EnvironmentInjective(left: map<string, string>, right: map<string, string>,
                                                names: seq<string>)
    requires EnvironmentFields(left, names) == EnvironmentFields(right, names)
    ensures forall name <- names :: Variable(left, name) == Variable(right, name)
  {
    if names != [] {
      var n := |names| - 1;
      var a, b := EnvironmentFields(left, names), EnvironmentFields(right, names);
      assert a[..3 * n] == EnvironmentFields(left, names[..n]) && b[..3 * n] == EnvironmentFields(right, names[..n]);
      assert a[3 * n..] == VariableFields(left, names[n]) && b[3 * n..] == VariableFields(right, names[n]);
      EnvironmentInjective(left, right, names[..n]);
      assert VariableFields(left, names[n])[1] == VariableFields(right, names[n])[1];
      assert "set" != "unset" by {
        assert |"set"| != |"unset"|;
      }
      assert names == names[..n] + [names[n]];
    }
  }

  lemma Concatenated(a: seq<string>, b: seq<string>, c: seq<string>, x: seq<string>, y: seq<string>, z: seq<string>)
    requires a + b + c == x + y + z && |a| == |x| && |c| == |z|
    ensures a == x && b == y && c == z
  {
    var left, right := a + b + c, x + y + z;
    assert left[..|a|] == a && right[..|x|] == x;
    assert left[|a|..|a| + |b|] == b && right[|x|..|x| + |y|] == y;
    assert left[|a| + |b|..] == c && right[|x| + |y|..] == z;
  }

  /** Set in both to the same value, the empty one included, or in neither. */
  predicate SameVariable(left: map<string, string>, right: map<string, string>, name: string) {
    (name in left <==> name in right) && (name in left ==> left[name] == right[name])
  }

  /** Probes with the same text agree in everything the key covers. */
  lemma KeyTextInjective(left: Probe, right: Probe)
    requires KeyText(left) == KeyText(right)
    ensures left.(environment := map[]) == right.(environment := map[])
    ensures forall name <- ENVIRONMENT :: SameVariable(left.environment, right.environment, name)
  {
    hide Fields, Field, EnvironmentFields;
    FieldsInjective(KeyFields(left), KeyFields(right));
    Concatenated(HeadFields(left), left.options, EnvironmentFields(left.environment, ENVIRONMENT),
                 HeadFields(right), right.options, EnvironmentFields(right.environment, ENVIRONMENT));
    var a, b := HeadFields(left), HeadFields(right);
    assert a[1] == b[1] && a[2] == b[2] && a[3] == b[3] && a[4] == b[4] && a[5] == b[5];
    DecimalInjective(left.size, right.size);
    SignedDecimalInjective(left.modified, right.modified);
    EnvironmentInjective(left.environment, right.environment, ENVIRONMENT);
    forall name <- ENVIRONMENT ensures SameVariable(left.environment, right.environment, name) {
      assert Variable(left.environment, name) == Variable(right.environment, name);
    }
  }

  // ----- the memory -----

  datatype Request = Request(enabled: bool, database: string, key: string)

  function MemoryKey(request: Request): string {
    (if request.enabled then "enabled:" else "disabled:") + Field(request.database) + request.key
  }

  lemma MemoryKeyInjective(left: Request, right: Request)
    requires MemoryKey(left) == MemoryKey(right)
    ensures left == right
  {
    hide Field;
    var a, b := MemoryKey(left), MemoryKey(right);
    assert a[0] == (if left.enabled then 'e' else 'd') && b[0] == (if right.enabled then 'e' else 'd');
    var n := if left.enabled then 8 else 9;
    assert a == a[..n] + (Field(left.database) + left.key) && b == b[..n] + (Field(right.database) + right.key);
    assert a[n..] == Field(left.database) + left.key && b[n..] == Field(right.database) + right.key;
    FieldInjective(left.database, right.database, left.key, right.key);
  }

  lemma OneGone(keys: set<string>, gone: string)
    requires gone in keys
    ensures keys - (keys - {gone}) == {gone} && |keys - {gone}| == |keys| - 1
  {
  }

  type Includes = seq<string>

  const CAPACITY := 128

  class ProbeMemory {
    var entries: map<string, Includes>
    /** Every result that was remembered, with the request it was remembered for. */
    ghost var remembered: set<(Request, Includes)>

    ghost predicate Valid()
      reads this
    {
      && |entries| <= CAPACITY
      && (forall text <- entries :: exists request: Request ::
            MemoryKey(request) == text && (request, entries[text]) in remembered)
    }

    constructor ()
      ensures Valid() && entries == map[] && remembered == {}
    {
      entries, remembered := map[], {};
    }

    /** What is in memory under a request is found, and was remembered for that very request. */
    method Find(request: Request) returns (includes: Option<Includes>)
      requires Valid()
      ensures includes.Some? ==> (request, includes.value) in remembered
      ensures includes ==
        if MemoryKey(request) in entries then Some(entries[MemoryKey(request)]) else None
    {
      var text := MemoryKey(request);
      if text !in entries {
        return None;
      }
      ghost var original: Request :| MemoryKey(original) == text && (original, entries[text]) in remembered;
      MemoryKeyInjective(request, original);
      return Some(entries[text]);
    }

    /** The smallest key makes room when the memory is full; an entry that is still there wins over the new one. */
    method RememberIncludes(request: Request, includes: Includes) returns (kept: Includes)
      requires Valid()
      modifies this
      ensures Valid() && remembered == old(remembered) + {(request, includes)}
      ensures (request, kept) in remembered && MemoryKey(request) in entries && entries[MemoryKey(request)] == kept
      ensures exists room :: Room(old(entries), room) && entries == Added(room, MemoryKey(request), includes)
      ensures kept == includes || (MemoryKey(request) in old(entries) && kept == old(entries)[MemoryKey(request)])
    {
      hide MemoryKey, Room;
      remembered := remembered + {(request, includes)};
      MakeRoom();
      ghost var room := entries;
      RoomKept(old(entries), room);
      var text := MemoryKey(request);
      if text !in entries {
        entries := entries[text := includes];
      }
      kept := entries[text];
      ghost var original: Request :| MemoryKey(original) == text && (original, entries[text]) in remembered;
      MemoryKeyInjective(request, original);
    }

    method MakeRoom()
      requires Valid()
      modifies this`entries
      ensures Valid() && |entries| < CAPACITY && Room(old(entries), entries)
    {
      hide MemoryKey;
      if |entries| >= CAPACITY {
        assert entries.Keys != {};
        var first := FirstKey();
        OneGone(entries.Keys, first);
        entries := entries - {first};
      }
    }

    /** Where the ordered map begins. */
    method FirstKey() returns (first: string)
      requires entries != map[]
      ensures IsFirst(entries.Keys, first)
    {
      assert entries.Keys != {};
      first :| first in entries;
      var keys := entries.Keys - {first};
      while keys != {}
        invariant keys <= entries.Keys && IsFirst(entries.Keys - keys, first)
      {
        hide IsFirst;
        var key :| key in keys;
        OneMore(entries.Keys - keys, first, key);
        assert entries.Keys - (keys - {key}) == entries.Keys - keys + {key};
        if Precedes(key, first) {
          first := key;
        }
        keys := keys - {key};
      }
      assert entries.Keys - {} == entries.Keys;
    }
  }

  function Added(room: map<string, Includes>, text: string, includes: Includes): map<string, Includes> {
    if text in room then room else room[text := includes]
  }

  /** The order of the map's keys: character by character, a proper prefix first. */
  predicate Precedes(a: string, b: string) {
    b != "" && (a == "" || a[0] < b[0] || (a[0] == b[0] && Precedes(a[1..], b[1..])))
  }

  lemma {:induction false} OneOrTheOther(a: string, b: string)
    ensures Precedes(a, b) || a == b || Precedes(b, a)
    ensures !Precedes(a, a)
  {
    if a != "" {
      OneOrTheOther(a[1..], if b == "" then b else b[1..]);
      assert a == [a[0]] + a[1..] && (b != "" ==> b == [b[0]] + b[1..]);
    }
  }

  lemma {:induction false} PrecedesThrough(a: string, b: string, c: string)
    requires Precedes(a, b) && Precedes(b, c)
    ensures Precedes(a, c)
  {
    if a != "" && a[0] == b[0] == c[0] {
      PrecedesThrough(a[1..], b[1..], c[1..]);
    }
  }

  ghost predicate IsFirst(keys: set<string>, first: string) {
    first in keys && forall key <- keys | key != first :: Precedes(first, key)
  }

  lemma OneMore(keys: set<string>, first: string, key: string)
    requires IsFirst(keys, first)
    ensures IsFirst(keys + {key}, if Precedes(key, first) then key else first)
  {
    OneOrTheOther(key, first);
    if Precedes(key, first) {
      forall other <- keys | other != first ensures Precedes(key, other) {
        PrecedesThrough(key, first, other);
      }
    }
  }

  /** Nothing goes while there is room; a full memory gives up its smallest key. */
  ghost predicate Room(entries: map<string, Includes>, room: map<string, Includes>) {
    if |entries| < CAPACITY then room == entries
    else exists gone <- entries :: IsFirst(entries.Keys, gone) && room == entries - {gone}
  }

  lemma RoomKept(entries: map<string, Includes>, room: map<string, Includes>)
    requires Room(entries, room)
    ensures forall text <- room :: text in entries && room[text] == entries[text]
  {
  }
}
