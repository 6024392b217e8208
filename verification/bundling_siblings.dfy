/** What becomes of a key that stands beside the reference of an alias entry: every other reference to the same
    target shows it (scripts/openapi_codegen/bundling.py). When the bundle still says what the documents say, and a
    pair of documents for which it does not. */
module BundlingSiblings {
  import opened Text
  import opened Loading
  import opened Bundling

  // ----- every set of documents -----

  /** `walked` stands in the bundle for a reference to `target` that became one to an alias, whose entry holds `key`
      while the reference does not. */
  ghost predicate RefersPast(env: Env, aliases: map<Target, Component>, result: Value, value: Value, current: Path,
                             trail: set<Target>, position: seq<string>, walked: Value, target: Target, key: string) {
    && Walked(env, aliases, result)
    && WalksTo(env, aliases, value, current, trail, position, walked) && !EndsWith(Slashed(position), MAPPING)
    && value.Object? && HasRef(value.fields) && env.locate(value.fields[REF].text, current) == Some(target)
    && target.path != env.source && UsesAlias(aliases, target, trail, position) && PlainName(aliases[target])
    && var entry := Entry(env, aliases[target]).value;
    entry.Object? && key in entry.fields && key != REF && key !in value.fields
  }

  /** There the bundle shows what stands under the key beside the entry's reference, walked in place. */
  lemma SiblingShows(env: Env, aliases: map<Target, Component>, result: Value, value: Value, current: Path,
                     trail: set<Target>, position: seq<string>, walked: Value, target: Target, key: string)
    returns (sibling: Value)
    requires RefersPast(env, aliases, result, value, current, trail, position, walked, target, key)
    ensures WalksTo(env, aliases, Entry(env, aliases[target]).value.fields[key], env.source, {},
                    aliases[target].Keys() + [key], sibling)
    ensures target.path in env.files && Keys(target.fragment).Some?
    ensures forall fuel: nat, rest: seq<string> ::
      Lookup(Alone(env, result), fuel + 1, walked, env.source, [key] + rest) ==
      Lookup(Alone(env, result), fuel, sibling, env.source, rest)
  {
    hide Walk, Lookup, RefTexts, EndsWith, Slashed, Follow;
    var found := WalkedReference(env, aliases, value, current, trail, position);
    var entry, inner, resolved, node := AliasNode(env, aliases, result, target);
    KeepsKey(env, aliases, entry, env.source, {}, aliases[target].Keys(), key);
    sibling := node.fields[key];
    forall fuel: nat, rest: seq<string>
      ensures Lookup(Alone(env, result), fuel + 1, walked, env.source, [key] + rest) ==
              Lookup(Alone(env, result), fuel, sibling, env.source, rest)
    {
      EntryJump(env, aliases, result, Alone(env, result), fuel, walked, target, node, [key] + rest);
      LookupChild(Alone(env, result), fuel, node, env.source, key, rest);
    }
  }

  /** A scalar shows as it is, and nothing below it. */
  lemma ScalarShows(env: Env, aliases: map<Target, Component>, result: Value, value: Value, current: Path,
                    trail: set<Target>, position: seq<string>, walked: Value, target: Target, key: string,
                    rest: seq<string>, leaf: Leaf)
    requires RefersPast(env, aliases, result, value, current, trail, position, walked, target, key)
    requires Scalar(Entry(env, aliases[target]).value.fields[key])
    ensures ReachesFrom(Alone(env, result), walked, env.source, [key] + rest, leaf) <==>
      rest == [] && leaf == AScalar(Entry(env, aliases[target]).value.fields[key])
    ensures Lookup(Alone(env, result), 1, walked, env.source, [key]) ==
            Some(AScalar(Entry(env, aliases[target]).value.fields[key]))
  {
    hide Walk, RefTexts, EndsWith, Slashed, Lookup, ReachesFrom;
    var scalar := Entry(env, aliases[target]).value.fields[key];
    NothingUnfuelled(env, aliases, result, value, current, trail, position, walked, target, key, rest);
    var sibling := SiblingShows(env, aliases, result, value, current, trail, position, walked, target, key);
    KeepsItems(env, aliases, scalar, env.source, {}, aliases[target].Keys() + [key], sibling);
    OnlyThere(Alone(env, result), walked, env.source, key, scalar, rest, leaf);
  }

  /** What lies one reference away is reached, and nothing else. */
  lemma OnlyThere(alone: Env, walked: Value, source: Path, key: string, scalar: Value, rest: seq<string>, leaf: Leaf)
    requires Scalar(scalar) && Lookup(alone, 0, walked, source, [key] + rest) == None
    requires forall fuel: nat, more: seq<string> ::
      Lookup(alone, fuel + 1, walked, source, [key] + more) == Lookup(alone, fuel, scalar, source, more)
    ensures ReachesFrom(alone, walked, source, [key] + rest, leaf) <==> rest == [] && leaf == AScalar(scalar)
    ensures Lookup(alone, 1, walked, source, [key]) == Some(AScalar(scalar))
  {
    assert [key] + [] == [key];
    ScalarLeaf(alone, 0, scalar, source, rest);
    ScalarLeaf(alone, 0, scalar, source, []);
    hide Lookup;
    assert Lookup(alone, 0 + 1, walked, source, [key] + rest) == Lookup(alone, 0, scalar, source, rest);
    assert Lookup(alone, 0 + 1, walked, source, [key] + []) == Lookup(alone, 0, scalar, source, []);
    if ReachesFrom(alone, walked, source, [key] + rest, leaf) {
      var fuel: nat :| Lookup(alone, fuel, walked, source, [key] + rest) == Some(leaf);
      ScalarLeaf(alone, fuel - 1, scalar, source, rest);
      assert Lookup(alone, fuel - 1 + 1, walked, source, [key] + rest) == Lookup(alone, fuel - 1, scalar, source, rest);
    }
  }

  /** Past a reference nothing is found without fuel. */
  lemma NothingUnfuelled(env: Env, aliases: map<Target, Component>, result: Value, value: Value, current: Path,
                         trail: set<Target>, position: seq<string>, walked: Value, target: Target, key: string,
                         rest: seq<string>)
    requires RefersPast(env, aliases, result, value, current, trail, position, walked, target, key)
    ensures Lookup(Alone(env, result), 0, walked, env.source, [key] + rest) == None
  {
    hide Walk, RefTexts, EndsWith, Slashed;
    var found := WalkedReference(env, aliases, value, current, trail, position);
  }

  /** At such a reference the bundle says what the documents say, along every path through a scalar beside the
      entry's reference, exactly if the target reaches that scalar and nothing deeper. */
  lemma SiblingAgreesExactly(env: Env, aliases: map<Target, Component>, result: Value, value: Value, current: Path,
                             trail: set<Target>, position: seq<string>, walked: Value, target: Target, key: string)
    requires RefersPast(env, aliases, result, value, current, trail, position, walked, target, key)
    requires Scalar(Entry(env, aliases[target]).value.fields[key])
    ensures SiblingAgrees(env, target, key, Entry(env, aliases[target]).value.fields[key]) <==>
      forall rest: seq<string>, leaf ::
        ReachesFrom(env, value, current, [key] + rest, leaf) <==>
        ReachesFrom(Alone(env, result), walked, env.source, [key] + rest, leaf)
  {
    hide Walk, ReachesFrom;
    var sibling := SiblingShows(env, aliases, result, value, current, trail, position, walked, target, key);
    var keys := Keys(target.fragment).value;
    forall rest: seq<string>, leaf
      ensures ReachesFrom(env, value, current, [key] + rest, leaf) <==>
        ReachesFrom(env, env.files[target.path], target.path, keys + [key] + rest, leaf)
      ensures ReachesFrom(Alone(env, result), walked, env.source, [key] + rest, leaf) <==>
        ReachesFrom(env, Entry(env, aliases[target]).value.fields[key], env.source, rest, leaf)
    {
      ReachesScalar(env, Entry(env, aliases[target]).value.fields[key], env.source, rest, leaf);
      ReachesPast(env, value, current, target, keys, key, rest, leaf);
      ScalarShows(env, aliases, result, value, current, trail, position, walked, target, key, rest, leaf);
    }
  }

  lemma ReachesScalar(env: Env, scalar: Value, current: Path, path: seq<string>, leaf: Leaf)
    requires Scalar(scalar)
    ensures ReachesFrom(env, scalar, current, path, leaf) <==> path == [] && leaf == AScalar(scalar)
  {
    ScalarLeaf(env, 0, scalar, current, path);
  }

  lemma ReachesPast(env: Env, value: Value, current: Path, target: Target, keys: seq<string>, key: string,
                    rest: seq<string>, leaf: Leaf)
    requires value.Object? && HasRef(value.fields) && key != REF && key !in value.fields
    requires env.locate(value.fields[REF].text, current) == Some(target)
    requires target.path in env.files && Keys(target.fragment) == Some(keys)
    ensures ReachesFrom(env, value, current, [key] + rest, leaf) <==>
      ReachesFrom(env, env.files[target.path], target.path, keys + [key] + rest, leaf)
  {
    hide Lookup;
    assert keys + ([key] + rest) == keys + [key] + rest;
    if ReachesFrom(env, value, current, [key] + rest, leaf) {
      var fuel: nat :| Lookup(env, fuel, value, current, [key] + rest) == Some(leaf);
      LookupThrough(env, fuel, value, current, [key] + rest, target, keys);
      assert Lookup(env, fuel - 1, env.files[target.path], target.path, keys + [key] + rest) == Some(leaf);
    }
    if ReachesFrom(env, env.files[target.path], target.path, keys + [key] + rest, leaf) {
      var fuel: nat :| Lookup(env, fuel, env.files[target.path], target.path, keys + [key] + rest) == Some(leaf);
      LookupThrough(env, fuel + 1, value, current, [key] + rest, target, keys);
      assert Lookup(env, fuel + 1, value, current, [key] + rest) == Some(leaf);
    }
  }

  // ----- two documents -----

  const T := Target("t", "")
  const C := Component("x", "c")

  /** A reference to the other document, with a key beside it or without. */
  const REFERENCE := Object(map[REF := Str("T")])
  const ENTRY := Object(map[REF := Str("T"), "k" := Str("v")])
  const CATEGORY := Object(map["c" := ENTRY])
  const COMPONENTS := Object(map["x" := CATEGORY])
  const ROOT := Object(map["a" := REFERENCE, "components" := COMPONENTS])
  const OTHER := Object(map[])

  function Locate(text: string, current: Path): Option<Target> {
    if text == "T" then Some(T) else None
  }

  function NoIndex(key: string): Option<int> {
    None
  }

  const DOCUMENTS := Env(map["s" := ROOT, "t" := OTHER], "s", Locate, NoIndex)
  const ALIASES: map<Target, Component> := map[T := C]

  const WALKED_ENTRY := Object(map["k" := Str("v")])
  const WALKED_REFERENCE := Object(map[REF := Str("#/components/x/c")])
  const BUNDLE := Object(map["a" := WALKED_REFERENCE,
                             "components" := Object(map["x" := Object(map["c" := WALKED_ENTRY])])])

  /** An object without a reference, outside a mapping, is walked key by key. */
  lemma WalkKeys(env: Env, aliases: map<Target, Component>, fields: map<string, Value>, current: Path,
                 trail: set<Target>, position: seq<string>, walked: map<string, Value>)
    requires Within(env, Object(fields), current) && REF !in fields && !EndsWith(Slashed(position), MAPPING)
    requires walked.Keys == fields.Keys
    requires forall k <- fields :: WalksTo(env, aliases, fields[k], current, trail, position + [k], walked[k])
    ensures Walk(env, aliases, Object(fields), current, trail, position) == Some(Object(walked))
  {
    var result := Walk(env, aliases, Object(fields), current, trail, position);
    assert result.Some? && result.value.Object?;
    assert result.value.fields == walked;
  }

  lemma ObjectTexts(fields: map<string, Value>, k: string, texts: set<string>)
    requires REF !in fields && k in fields && forall k <- fields :: RefTexts(fields[k]) == texts
    ensures RefTexts(Object(fields)) == texts
  {
    assert RefTexts(fields[k]) <= RefTexts(Object(fields));
  }

  lemma ReferenceTexts(fields: map<string, Value>)
    requires HasRef(fields) && forall k <- fields :: RefTexts(fields[k]) == {}
    ensures RefTexts(Object(fields)) == {fields[REF].text}
  {
  }

  lemma Texts()
    ensures RefTexts(REFERENCE) == {"T"} && RefTexts(ENTRY) == {"T"} && RefTexts(OTHER) == {}
    ensures RefTexts(CATEGORY) == {"T"} && RefTexts(COMPONENTS) == {"T"} && RefTexts(ROOT) == {"T"}
  {
    assert RefTexts(Str("T")) == {} && RefTexts(Str("v")) == {};
    hide RefTexts;
    NoTexts();
    ReferenceTexts(REFERENCE.fields);
    ReferenceTexts(ENTRY.fields);
    ObjectTexts(CATEGORY.fields, "c", {"T"});
    ObjectTexts(COMPONENTS.fields, "x", {"T"});
    ObjectTexts(ROOT.fields, "a", {"T"});
  }

  lemma NoTexts()
    ensures RefTexts(OTHER) == {}
  {
  }

  lemma Positions()
    ensures !EndsWith(Slashed([]), MAPPING) && !EndsWith(Slashed(["a"]), MAPPING)
    ensures !EndsWith(Slashed(["components"]), MAPPING) && !EndsWith(Slashed(["components", "x"]), MAPPING)
    ensures !EndsWith(Slashed(["components", "x", "c"]), MAPPING)
    ensures Slashed(["components", "x", "c"]) == "/components/x/c" && Slashed(["a"]) == "/a"
  {
    assert ["components", "x", "c"][1..] == ["x", "c"] && ["x", "c"][1..] == ["c"] && ["c"][1..] == [];
    assert ["components", "x"][1..] == ["x"] && ["x"][1..] == [] && ["a"][1..] == [] && ["components"][1..] == [];
  }

  lemma WalksOther()
    ensures WalksTo(DOCUMENTS, ALIASES, OTHER, "t", {} + {T}, [], OTHER)
  {
    Texts();
    Positions();
    WalkKeys(DOCUMENTS, ALIASES, map[], "t", {} + {T}, [], map[]);
  }

  /** A reference whose target has an alias elsewhere becomes a reference to that alias. */
  lemma WalkAliased(env: Env, aliases: map<Target, Component>, fields: map<string, Value>, current: Path,
                    trail: set<Target>, position: seq<string>, target: Target)
    requires Within(env, Object(fields), current) && fields.Keys == {REF} && HasRef(fields)
    requires !EndsWith(Slashed(position), MAPPING) && env.locate(fields[REF].text, current) == Some(target)
    requires target.path != env.source && target in aliases && aliases[target].Text() != "#" + Slashed(position)
    ensures Walk(env, aliases, Object(fields), current, trail, position) ==
      Some(Object(map[REF := Str(aliases[target].Text())]))
  {
    var walked := Walk(env, aliases, Object(fields), current, trail, position);
    assert walked.Some? && walked.value.Object?;
    assert walked.value.fields == map[REF := Str(aliases[target].Text())];
  }

  lemma WalkText(env: Env, aliases: map<Target, Component>, whole: Value, k: string, current: Path, trail: set<Target>,
                 position: seq<string>)
    requires Within(env, whole, current) && whole.Object? && k in whole.fields && whole.fields[k].Str?
    ensures WalksTo(env, aliases, whole.fields[k], current, trail, position, whole.fields[k])
  {
  }

  /** At its own place the alias entry is the target inlined, and keeps the text that stands beside the
      reference. */
  lemma WalkOwnEntry(env: Env, aliases: map<Target, Component>, fields: map<string, Value>, current: Path,
                     position: seq<string>, target: Target, inner: Value, resolved: map<string, Value>, k: string)
    requires Within(env, Object(fields), current) && k != REF && fields.Keys == {REF, k} && HasRef(fields) &&
      fields[k].Str?
    requires !EndsWith(Slashed(position), MAPPING) && env.locate(fields[REF].text, current) == Some(target)
    requires target.path != env.source && target in aliases && aliases[target].Text() == "#" + Slashed(position)
    requires target.path in env.files && Pointed(env.files[target.path], target.fragment, env.index) == Some(inner)
    requires WalksTo(env, aliases, inner, target.path, {} + {target}, [], Object(resolved))
    ensures Walk(env, aliases, Object(fields), current, {}, position) == Some(Object(resolved + map[k := fields[k]]))
  {
    hide RefTexts, EndsWith, Slashed, Follow, Keys;
    FollowWithin(env, env.files[target.path], target.path, Keys(target.fragment).value);
    WalkText(env, aliases, Object(fields), k, current, {}, position + [k]);
    var walked := Walk(env, aliases, Object(fields), current, {}, position);
    assert walked.Some? && walked.value.Object?;
    assert walked.value.fields == resolved + map[k := fields[k]];
  }

  lemma WalksEntry()
    ensures WalksTo(DOCUMENTS, ALIASES, ENTRY, "s", {}, ["components", "x", "c"], WALKED_ENTRY)
  {
    hide Walk, RefTexts, EndsWith, Slashed;
    Texts();
    Positions();
    WalksOther();
    assert C.Text() == "#" + Slashed(["components", "x", "c"]);
    WalkOwnEntry(DOCUMENTS, ALIASES, ENTRY.fields, "s", ["components", "x", "c"], T, OTHER, map[], "k");
    assert map[] + map["k" := ENTRY.fields["k"]] == WALKED_ENTRY.fields;
  }

  lemma WalksReference()
    ensures WalksTo(DOCUMENTS, ALIASES, REFERENCE, "s", {}, ["a"], WALKED_REFERENCE)
  {
    hide Walk, RefTexts, EndsWith, Slashed;
    Texts();
    Positions();
    assert C.Text() == "#" + Slashed(["components", "x", "c"]) == "#/components/x/c";
    assert |"#/components/x/c"| != |"#/a"|;
    WalkAliased(DOCUMENTS, ALIASES, REFERENCE.fields, "s", {}, ["a"], T);
  }

  lemma WalksComponents()
    ensures WalksTo(DOCUMENTS, ALIASES, COMPONENTS, "s", {}, ["components"], BUNDLE.fields["components"])
  {
    hide Walk;
    Texts();
    Positions();
    WalksEntry();
    assert ["components"] + ["x"] == ["components", "x"];
    assert ["components", "x"] + ["c"] == ["components", "x", "c"];
    WalkKeys(DOCUMENTS, ALIASES, CATEGORY.fields, "s", {}, ["components", "x"], map["c" := WALKED_ENTRY]);
    WalkKeys(DOCUMENTS, ALIASES, COMPONENTS.fields, "s", {}, ["components"], BUNDLE.fields["components"].fields);
  }

  lemma WalksRoot()
    ensures WalksTo(DOCUMENTS, ALIASES, ROOT, "s", {}, [], BUNDLE)
  {
    hide Walk;
    Texts();
    Positions();
    WalksReference();
    WalksComponents();
    assert [] + ["a"] == ["a"] && [] + ["components"] == ["components"];
    WalkKeys(DOCUMENTS, ALIASES, ROOT.fields, "s", {}, [], BUNDLE.fields);
  }

  lemma DocumentsLackKey(fuel: nat)
    ensures Lookup(DOCUMENTS, fuel, ROOT, "s", ["a", "k"]) == None
  {
    assert ["a", "k"][1..] == ["k"];
    assert Lookup(DOCUMENTS, fuel, REFERENCE, "s", ["k"]) == None by {
      if fuel > 0 {
        assert [] + ["k"] == ["k"];
        assert Lookup(DOCUMENTS, fuel - 1, OTHER, "t", ["k"]) == None;
      }
    }
  }

  lemma PlainEntry()
    ensures PlainName(C)
  {
    hide Spellable, Slashed, EndsWith;
    Positions();
    LetterIsSpellable('x');
    LetterIsSpellable('c');
  }

  lemma LetterIsSpellable(c: char)
    requires c != '/'
    ensures Spellable([c])
  {
  }

  lemma BundleHasKey()
    ensures Lookup(Alone(DOCUMENTS, BUNDLE), 1, BUNDLE, "s", ["a", "k"]) == Some(AScalar(Str("v")))
  {
    hide Walk, Lookup, Slashed, RefTexts, EndsWith;
    Positions();
    TableIsRight();
    PlainEntry();
    WalksRoot();
    WalksReference();
    assert C.Text() == "#" + Slashed(["components", "x", "c"]) == "#/components/x/c";
    assert |"#/components/x/c"| != |"#/a"|;
    ScalarShows(DOCUMENTS, ALIASES, BUNDLE, REFERENCE, "s", {}, ["a"], WALKED_REFERENCE, T, "k", [], AScalar(Str("v")));
    LookupChild(Alone(DOCUMENTS, BUNDLE), 1, BUNDLE, "s", "a", ["k"]);
    assert ["a"] + ["k"] == ["a", "k"];
  }

  lemma TableIsRight()
    ensures AliasTable(DOCUMENTS, ALIASES)
  {
  }

  /** The alias table and the walk are as the program makes them, every reference into the documents is clear, and
      still the bundle reaches a leaf that the documents do not: the key beside the alias entry's reference shows
      through another reference to the same target. */
  lemma SiblingsShowThrough()
    ensures AliasTable(DOCUMENTS, ALIASES)
    ensures Walk(DOCUMENTS, ALIASES, ROOT, "s", {}, []) == Some(BUNDLE)
    ensures Reaches(Alone(DOCUMENTS, BUNDLE), ["a", "k"], AScalar(Str("v")))
    ensures !Reaches(DOCUMENTS, ["a", "k"], AScalar(Str("v")))
  {
    hide Walk, Lookup, AliasTable;
    TableIsRight();
    WalksRoot();
    BundleHasKey();
    assert Alone(DOCUMENTS, BUNDLE).files["s"] == BUNDLE && Alone(DOCUMENTS, BUNDLE).source == "s";
    forall fuel: nat ensures Lookup(DOCUMENTS, fuel, ROOT, "s", ["a", "k"]) == None {
      DocumentsLackKey(fuel);
    }
  }
}
