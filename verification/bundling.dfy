/** Bundling a contract spread over several files (scripts/openapi_codegen/bundling.py). */
module Bundling {
  import opened Text
  import opened Loading

  type Path = string

  const REF := "$ref"
  const MAPPING := "/discriminator/mapping"

  datatype Target = Target(path: Path, fragment: string)

  /** A component of the root document, spelled as the local reference `Text()`. */
  datatype Component = Component(category: string, name: string) {
    function Keys(): seq<string> {
      ["components", category, name]
    }

    function Text(): string {
      "#" + Slashed(Keys())
    }
  }

  /** The files that load to an object, the root document, how a reference text is located from a
      document (None where `location` raises), and Python's int() on a key. */
  datatype Env = Env(
    files: map<Path, Value>,
    source: Path,
    locate: (string, Path) -> Option<Target>,
    index: string -> Option<int>)

  // ----- the finite set of targets that bounds the recursion -----

  ghost function RefTexts(value: Value): set<string> {
    match value
    case List(items) => set i, t | 0 <= i < |items| && t in RefTexts(items[i]) :: t
    case Object(fields) =>
      (set k, t | k in fields && t in RefTexts(fields[k]) :: t) +
      (if HasRef(fields) then {fields[REF].text} else {})
    case _ => {}
  }

  ghost function Targets(env: Env): set<Target> {
    set p, t | p in env.files && t in RefTexts(env.files[p]) && env.locate(t, p).Some? :: env.locate(t, p).value
  }

  ghost predicate Within(env: Env, value: Value, current: Path) {
    current in env.files && RefTexts(value) <= RefTexts(env.files[current])
  }

  predicate HasRef(fields: map<string, Value>) {
    REF in fields && fields[REF].Str?
  }

  lemma {:induction false} FollowWithin(env: Env, value: Value, current: Path, keys: seq<string>)
    requires Within(env, value, current)
    requires Follow(value, keys, env.index).Some?
    ensures Within(env, Follow(value, keys, env.index).value, current)
    decreases keys
  {
    if keys != [] {
      FollowWithin(env, Child(value, keys[0], env.index).value, current, keys[1..]);
    }
  }

  // ----- the walk -----

  /** The walk over one value: `trail` holds the targets being inlined, `position` the keys since the
      last list item or inlined target. None stands for a raised error. */
  function Walk(env: Env, aliases: map<Target, Component>, value: Value, current: Path, trail: set<Target>,
                position: seq<string>): (result: Option<Value>)
    requires Within(env, value, current)
    decreases Targets(env) - trail, value
  {
    match value
    case List(items) =>
      if forall i | 0 <= i < |items| :: Walk(env, aliases, items[i], current, trail, []).Some? then
        Some(List(seq(|items|, i requires 0 <= i < |items| =>
          Walk(env, aliases, items[i], current, trail, []).value)))
      else None
    case Object(fields) =>
      if EndsWith(Slashed(position), MAPPING) then
        if forall k | k in fields :: MappingEntry(env, aliases, fields[k], current).Some? then
          Some(Object(map k | k in fields :: MappingEntry(env, aliases, fields[k], current).value))
        else None
      else if exists k | k in fields && k != REF ::
          Walk(env, aliases, fields[k], current, trail, position + [k]).None? then None
      else
        var siblings := map k | k in fields && k != REF ::
          Walk(env, aliases, fields[k], current, trail, position + [k]).value;
        if REF !in fields || fields[REF] == Null then Some(Object(siblings))
        else if !fields[REF].Str? then None
        else
          (match env.locate(fields[REF].text, current)
          case None => None
          case Some(target) =>
            if target.path == env.source then
              Some(Object(siblings[REF := Str("#" + target.fragment)]))
            else if target in aliases && (aliases[target].Text() != "#" + Slashed(position) || target in trail) then
              Some(Object(siblings[REF := Str(aliases[target].Text())]))
            else if target in trail || target.path !in env.files then None
            else
              (match Pointed(env.files[target.path], target.fragment, env.index)
              case None => None
              case Some(inner) =>
                FollowWithin(env, env.files[target.path], target.path, Keys(target.fragment).value);
                assert target in Targets(env);
                (match Walk(env, aliases, inner, target.path, trail + {target}, [])
                 case Some(Object(resolved)) => Some(Object(resolved + siblings))
                 case _ => None)))
    case _ => Some(value)
  }

  /** A discriminator mapping entry: a reference is redirected, anything else is kept. */
  function MappingEntry(env: Env, aliases: map<Target, Component>, entry: Value, current: Path): Option<Value> {
    if !entry.Str? || '#' !in entry.text then Some(entry)
    else match env.locate(entry.text, current)
      case None => None
      case Some(target) =>
        Some(if target.path == env.source then Str("#" + target.fragment)
             else if target in aliases then Str(aliases[target].Text()) else entry)
  }

  // ----- the meaning of a set of documents -----

  datatype Leaf = AScalar(value: Value) | AList(length: nat) | AnObject

  /** What a key path reaches from a value, with references resolved on the way: a key beside a
      reference wins over the same key of its target, and resolving restarts from the target's
      document. `fuel` bounds the references resolved. */
  function Lookup(env: Env, fuel: nat, value: Value, current: Path, path: seq<string>): Option<Leaf>
    decreases fuel, |path|
  {
    match value
    case Object(fields) =>
      if path != [] && path[0] != REF && path[0] in fields then
        Lookup(env, fuel, fields[path[0]], current, path[1..])
      else if HasRef(fields) then
        (if fuel == 0 then None else
         match env.locate(fields[REF].text, current)
         case None => None
         case Some(target) =>
           if target.path !in env.files || Keys(target.fragment).None? then None
           else Lookup(env, fuel - 1, env.files[target.path], target.path, Keys(target.fragment).value + path))
      else if path == [] then Some(AnObject)
      else None
    case List(items) =>
      if path == [] then Some(AList(|items|))
      else
        (match Child(value, path[0], env.index)
         case Some(item) => Lookup(env, fuel, item, current, path[1..])
         case None => None)
    case _ => if path == [] then Some(AScalar(value)) else None
  }

  ghost predicate ReachesFrom(env: Env, value: Value, current: Path, path: seq<string>, leaf: Leaf) {
    exists fuel: nat :: Lookup(env, fuel, value, current, path) == Some(leaf)
  }

  ghost predicate Reaches(env: Env, path: seq<string>, leaf: Leaf)
    requires env.source in env.files
  {
    ReachesFrom(env, env.files[env.source], env.source, path, leaf)
  }

  function LocalTarget(source: Path): (string, Path) -> Option<Target> {
    (text, current) => if StartsWith(text, "#") then Some(Target(source, text[1..])) else None
  }

  /** The bundle read on its own: one document whose references are local. */
  function Alone(env: Env, result: Value): Env {
    Env(map[env.source := result], env.source, LocalTarget(env.source), env.index)
  }

  // ----- the alias table and the assumptions on the documents -----

  /** The entries of one category of the root document's components. */
  function Entries(env: Env, category: string): Option<Value>
    requires env.source in env.files
  {
    var root := env.files[env.source];
    if root.Object? && "components" in root.fields && root.fields["components"].Object? &&
       category in root.fields["components"].fields
    then Some(root.fields["components"].fields[category]) else None
  }

  function Entry(env: Env, component: Component): Option<Value>
    requires env.source in env.files
  {
    match Entries(env, component.category)
    case Some(Object(entries)) => if component.name in entries then Some(entries[component.name]) else None
    case _ => None
  }

  /** A component of the root document is a reference to `target` that leaves the document. */
  predicate IsAlias(env: Env, component: Component, target: Target)
    requires env.source in env.files
  {
    match Entry(env, component)
    case Some(entry) =>
      (match EntryReference(entry)
       case Some(text) => IsExternal(text) && env.locate(text, env.source) == Some(target)
       case None => false)
    case None => false
  }

  /** The reference text of a component entry, "" when it has none; None for a reference that is not a text. */
  function EntryReference(entry: Value): Option<string> {
    if !entry.Object? || REF !in entry.fields then Some("")
    else if entry.fields[REF].Str? then Some(entry.fields[REF].text)
    else None
  }

  predicate IsExternal(text: string) {
    text != "" && text[0] != '#'
  }

  /** Keys that lead through objects only, none of them a reference. */
  predicate ObjectChain(value: Value, keys: seq<string>)
    decreases keys
  {
    keys == [] ||
    (value.Object? && keys[0] in value.fields && keys[0] != REF && ObjectChain(value.fields[keys[0]], keys[1..]))
  }

  function At(value: Value, keys: seq<string>): Value
    requires ObjectChain(value, keys)
    decreases keys
  {
    if keys == [] then value else At(value.fields[keys[0]], keys[1..])
  }

  /** Every alias names a component that refers to its target. */
  ghost predicate AliasTable(env: Env, aliases: map<Target, Component>)
    requires env.source in env.files
  {
    forall target <- aliases :: IsAlias(env, aliases[target], target)
  }

  predicate Scalar(value: Value) {
    !value.List? && !value.Object?
  }

  /** No reference in it, so that looking into it resolves none. */
  predicate ReferenceFree(value: Value) {
    match value
    case List(items) => forall i | 0 <= i < |items| :: ReferenceFree(items[i])
    case Object(fields) => REF !in fields && forall k | k in fields :: ReferenceFree(fields[k])
    case _ => true
  }

  /** Below `target` the documents reach under the key exactly what the sibling reaches. */
  ghost predicate SiblingAgrees(env: Env, target: Target, key: string, sibling: Value) {
    target.path in env.files && Keys(target.fragment).Some? &&
    forall rest: seq<string>, leaf ::
      ReachesFrom(env, env.files[target.path], target.path, Keys(target.fragment).value + [key] + rest, leaf) <==>
      ReachesFrom(env, sibling, env.source, rest, leaf)
  }

  /** The component's names are spelled as they are, and it is no discriminator mapping. */
  predicate PlainName(component: Component) {
    REF !in component.Keys() && Spellable(component.category) && Spellable(component.name) &&
    !EndsWith(Slashed(component.Keys()), MAPPING)
  }

  /** Beside its reference an alias component holds only values without references that its target says as well. */
  ghost predicate PlainAlias(env: Env, component: Component, target: Target)
    requires env.source in env.files && Entry(env, component).Some?
  {
    var entry := Entry(env, component).value;
    PlainName(component) && entry.Object? &&
    forall k <- entry.fields | k != REF ::
      ReferenceFree(entry.fields[k]) && SiblingAgrees(env, target, k, entry.fields[k]) &&
      (Scalar(entry.fields[k]) || !EndsWith(Slashed(component.Keys()), "/discriminator"))
  }

  ghost predicate PlainAliases(env: Env, aliases: map<Target, Component>)
    requires env.source in env.files && AliasTable(env, aliases)
  {
    forall target <- aliases | target.path != env.source :: PlainAlias(env, aliases[target], target)
  }

  /** What is reached below the key beside an alias's reference is reached below the key of its target too. */
  ghost predicate SiblingImplied(env: Env, target: Target, key: string, sibling: Value) {
    target.path in env.files && Keys(target.fragment).Some? &&
    forall rest: seq<string>, leaf :: ReachesFrom(env, sibling, env.source, rest, leaf) ==>
      ReachesFrom(env, env.files[target.path], target.path, Keys(target.fragment).value + [key] + rest, leaf)
  }

  /** Beside its reference an alias component says nothing that its target does not say. */
  ghost predicate SoundAlias(env: Env, component: Component, target: Target)
    requires env.source in env.files && Entry(env, component).Some?
  {
    var entry := Entry(env, component).value;
    PlainName(component) && entry.Object? &&
    forall k <- entry.fields | k != REF :: SiblingImplied(env, target, k, entry.fields[k]) &&
      (Scalar(entry.fields[k]) || !EndsWith(Slashed(component.Keys()), "/discriminator"))
  }

  ghost predicate SoundAliases(env: Env, aliases: map<Target, Component>)
    requires env.source in env.files && AliasTable(env, aliases)
  {
    forall target <- aliases | target.path != env.source :: SoundAlias(env, aliases[target], target)
  }

  /** A path that never enters a discriminator mapping. */
  ghost predicate Clear(position: seq<string>, path: seq<string>) {
    forall i | 0 <= i <= |path| :: !EndsWith(Slashed(position + path[..i]), MAPPING)
  }

  ghost predicate ClearKeys(keys: seq<string>) {
    REF !in keys && Clear([], keys) && !EndsWith(Slashed(keys), "/discriminator")
  }

  ghost predicate ClearReferences(env: Env) {
    forall target <- Targets(env) | Keys(target.fragment).Some? :: ClearKeys(Keys(target.fragment).value)
  }

  /** The walked documents and their alias table, whatever stands beside the references of the components. */
  ghost predicate Walked(env: Env, aliases: map<Target, Component>, result: Value) {
    env.source in env.files && AliasTable(env, aliases) &&
    Walk(env, aliases, env.files[env.source], env.source, {}, []) == Some(result)
  }

  /** Enough for the bundle to say nothing new. */
  ghost predicate Bundled(env: Env, aliases: map<Target, Component>, result: Value) {
    Walked(env, aliases, result) && SoundAliases(env, aliases) && ClearReferences(env)
  }

  /** Enough for the bundle to say the same. */
  ghost predicate Faithful(env: Env, aliases: map<Target, Component>, result: Value) {
    Walked(env, aliases, result) && PlainAliases(env, aliases) && ClearReferences(env)
  }

  /** The documents of `env` with the alias table of their components, and the bundle read on its own. */
  ghost predicate BundledAs(env: Env, aliases: map<Target, Component>, result: Value, alone: Env) {
    Bundled(env, aliases, result) && alone == Alone(env, result)
  }

  ghost predicate FaithfulAs(env: Env, aliases: map<Target, Component>, result: Value, alone: Env) {
    Faithful(env, aliases, result) && alone == Alone(env, result)
  }

  ghost predicate WalksTo(env: Env, aliases: map<Target, Component>, value: Value, current: Path, trail: set<Target>,
                          position: seq<string>, walked: Value) {
    Within(env, value, current) && Walk(env, aliases, value, current, trail, position) == Some(walked)
  }

  // ----- lemmas on lookup -----

  lemma {:induction false} FollowLookup(env: Env, fuel: nat, value: Value, current: Path, keys: seq<string>,
                                        path: seq<string>)
    requires REF !in keys
    requires Follow(value, keys, env.index).Some?
    ensures Lookup(env, fuel, value, current, keys + path) ==
            Lookup(env, fuel, Follow(value, keys, env.index).value, current, path)
    decreases keys
  {
    if keys == [] {
      assert keys + path == path;
    } else {
      assert (keys + path)[1..] == keys[1..] + path;
      FollowLookup(env, fuel, Child(value, keys[0], env.index).value, current, keys[1..], path);
    }
  }

  lemma {:induction false} MoreFuel(env: Env, fuel: nat, more: nat, value: Value, current: Path, path: seq<string>)
    requires fuel <= more && Lookup(env, fuel, value, current, path).Some?
    ensures Lookup(env, more, value, current, path) == Lookup(env, fuel, value, current, path)
    decreases fuel, |path|
  {
    match value
    case Object(fields) =>
      if path != [] && path[0] != REF && path[0] in fields {
        MoreFuel(env, fuel, more, fields[path[0]], current, path[1..]);
      } else if HasRef(fields) {
        var target := env.locate(fields[REF].text, current).value;
        MoreFuel(env, fuel - 1, more - 1, env.files[target.path], target.path, Keys(target.fragment).value + path);
      }
    case List(items) =>
      if path != [] {
        MoreFuel(env, fuel, more, Child(value, path[0], env.index).value, current, path[1..]);
      }
    case _ =>
  }

  /** Clearness survives the two things a walk does to its position: extending and forgetting it. */
  lemma ClearStep(position: seq<string>, path: seq<string>)
    requires Clear(position, path) && path != []
    ensures Clear(position + [path[0]], path[1..])
    ensures Clear([], path[1..])
    ensures Clear([], path)
  {
    forall i | 0 <= i <= |path| - 1
      ensures !EndsWith(Slashed(position + [path[0]] + path[1..][..i]), MAPPING)
    {
      assert position + [path[0]] + path[1..][..i] == position + path[..i + 1];
    }
    ClearForget(position + [path[0]], path[1..]);
    ClearForget(position, path);
  }

  lemma ClearForget(position: seq<string>, path: seq<string>)
    requires Clear(position, path)
    ensures Clear([], path)
  {
    forall i | 0 <= i <= |path| ensures !EndsWith(Slashed([] + path[..i]), MAPPING) {
      assert [] + path[..i] == path[..i];
      TailOfSlashed(position, path[..i]);
    }
  }

  lemma TailOfSlashed(left: seq<string>, right: seq<string>)
    ensures EndsWith(Slashed(right), MAPPING) ==> EndsWith(Slashed(left + right), MAPPING)
  {
    hide Slashed;
    SlashedConcat(left, right);
  }

  lemma ClearConcat(keys: seq<string>, path: seq<string>)
    requires ClearKeys(keys) && Clear([], path)
    ensures Clear([], keys + path)
  {
    forall i | 0 <= i <= |keys + path| ensures !EndsWith(Slashed([] + (keys + path)[..i]), MAPPING) {
      var whole := [] + (keys + path)[..i];
      if i <= |keys| {
        assert whole == [] + keys[..i];
      } else {
        var rest := path[..i - |keys|];
        assert whole == keys + rest && rest == [] + path[..i - |keys|];
        SlashedConcat(keys, rest);
        if EndsWith(Slashed(whole), MAPPING) {
          SplitMapping(Slashed(keys), Slashed(rest));
        }
      }
    }
  }

  lemma SplitMapping(left: string, right: string)
    requires EndsWith(left + right, MAPPING)
    requires right != "" && right[0] == '/'
    ensures EndsWith(right, MAPPING) || EndsWith(left, "/discriminator")
  {
    var whole := left + right;
    var start := |whole| - |MAPPING|;
    if |right| < |MAPPING| {
      assert whole[start..][|left| - start] == right[0];
      assert MAPPING[|left| - start] == '/';
      assert |left| - start == 14;
      assert left[start..] == MAPPING[..14] == "/discriminator";
    } else {
      assert right[|right| - |MAPPING|..] == whole[start..];
    }
  }

  // ----- what the walk does to one object -----

  lemma {:induction false} KeepsKey(env: Env, aliases: map<Target, Component>, value: Value, current: Path,
                                    trail: set<Target>, position: seq<string>, key: string)
    requires Within(env, value, current) && value.Object?
    requires !EndsWith(Slashed(position), MAPPING)
    requires Walk(env, aliases, value, current, trail, position).Some?
    requires key in value.fields && key != REF
    ensures var walked := Walk(env, aliases, value, current, trail, position).value;
      walked.Object? && key in walked.fields && Within(env, value.fields[key], current) &&
      Walk(env, aliases, value.fields[key], current, trail, position + [key]) == Some(walked.fields[key])
  {
  }

  /** A walk keeps every chain of object keys and walks what lies at its end. */
  lemma {:induction false} KeepsChain(env: Env, aliases: map<Target, Component>, value: Value, current: Path,
                                      trail: set<Target>, position: seq<string>, keys: seq<string>)
    requires Within(env, value, current) && ObjectChain(value, keys)
    requires Walk(env, aliases, value, current, trail, position).Some?
    requires forall i | 0 <= i < |keys| :: !EndsWith(Slashed(position + keys[..i]), MAPPING)
    ensures var last := At(value, keys);
      Within(env, last, current) &&
      Walk(env, aliases, last, current, trail, position + keys).Some? &&
      Follow(Walk(env, aliases, value, current, trail, position).value, keys, env.index) ==
      Walk(env, aliases, last, current, trail, position + keys)
    decreases keys
  {
    hide Walk, EndsWith, RefTexts;
    if keys == [] {
      assert position + keys == position;
    } else {
      assert position + keys[..0] == position;
      KeepsKey(env, aliases, value, current, trail, position, keys[0]);
      assert position + keys == position + [keys[0]] + keys[1..];
      forall i | 0 <= i < |keys| - 1
        ensures !EndsWith(Slashed(position + [keys[0]] + keys[1..][..i]), MAPPING)
      {
        assert position + [keys[0]] + keys[1..][..i] == position + keys[..i + 1];
      }
      KeepsChain(env, aliases, value.fields[keys[0]], current, trail, position + [keys[0]], keys[1..]);
    }
  }

  lemma EntryChain(env: Env, component: Component)
    requires env.source in env.files && Entry(env, component).Some? && REF !in component.Keys()
    ensures ObjectChain(env.files[env.source], component.Keys())
    ensures At(env.files[env.source], component.Keys()) == Entry(env, component).value
  {
    var keys := component.Keys();
    assert keys[1..] == [component.category, component.name];
    assert keys[1..][1..] == [component.name];
    assert keys[1..][1..][1..] == [];
    var components := env.files[env.source].fields["components"];
    var entries := components.fields[component.category];
    assert component.category != REF && component.name != REF by {
      assert keys[1] == component.category && keys[2] == component.name;
    }
    assert ObjectChain(entries, keys[1..][1..]) && At(entries, keys[1..][1..]) == Entry(env, component).value;
    assert ObjectChain(components, keys[1..]);
  }

  /** A component of the root document is walked in place. */
  lemma ComponentNode(env: Env, aliases: map<Target, Component>, result: Value, component: Component)
    requires env.source in env.files && Walk(env, aliases, env.files[env.source], env.source, {}, []) == Some(result)
    requires Entry(env, component).Some? && REF !in component.Keys() && Spellable(component.category)
    ensures Within(env, Entry(env, component).value, env.source)
    ensures Follow(result, component.Keys(), env.index).Some?
    ensures Walk(env, aliases, Entry(env, component).value, env.source, {}, component.Keys()) ==
            Follow(result, component.Keys(), env.index)
  {
    hide Walk, EndsWith, RefTexts;
    var keys := component.Keys();
    forall i | 0 <= i < 3 ensures !EndsWith(Slashed([] + keys[..i]), MAPPING) {
      ClearPrefix(component, i);
    }
    EntryChain(env, component);
    KeepsChain(env, aliases, env.files[env.source], env.source, {}, [], keys);
    assert [] + keys == keys;
  }

  lemma ClearPrefix(component: Component, i: nat)
    requires i < 3 && '/' !in component.category
    ensures !EndsWith(Slashed([] + component.Keys()[..i]), MAPPING)
  {
    var keys := component.Keys();
    if i == 0 {
      assert [] + keys[..i] == [];
    } else if i == 1 {
      assert [] + keys[..i] == ["components"];
    } else {
      assert [] + keys[..i] == ["components", component.category];
      ClearCategory(component.category);
    }
  }

  lemma ClearCategory(category: string)
    requires '/' !in category
    ensures !EndsWith(Slashed(["components", category]), MAPPING)
  {
    var tail := "/" + category;
    assert ["components", category] == ["components"] + [category];
    SlashedConcat(["components"], [category]);
    assert Slashed([category]) == tail;
    if EndsWith(Slashed(["components", category]), MAPPING) {
      SplitMapping(Slashed(["components"]), tail);
      SlashInTail(category);
      assert false;
    }
  }

  lemma SlashInTail(key: string)
    requires EndsWith("/" + key, MAPPING)
    ensures '/' in key
  {
    var tail := "/" + key;
    assert tail[|tail| - |MAPPING|..][14] == '/';
    assert key[|tail| - |MAPPING| + 13] == '/';
  }

  /** The alias text leads back to the component exactly if its category and name are spellable. */
  lemma AliasNamesItself(component: Component)
    ensures Keys(component.Text()[1..]) == Some(component.Keys()) <==>
      Spellable(component.category) && Spellable(component.name)
    ensures component.Text()[1..] == Slashed(component.Keys())
  {
    hide Spellable, Keys;
    SpelledExactly(component.Keys());
    ComponentsIsSpellable();
    assert component.Keys()[1] == component.category && component.Keys()[2] == component.name;
  }

  lemma ComponentsIsSpellable()
    ensures Spellable("components")
  {
  }

  /** Where an alias leads inside the bundle: to its entry, walked in place. There the target is inlined, and the
      keys beside the reference win over those of the target. */
  lemma AliasNode(env: Env, aliases: map<Target, Component>, result: Value, target: Target)
    returns (entry: Value, inner: Value, resolved: Value, node: Value)
    requires Walked(env, aliases, result)
    requires target in aliases && target.path != env.source && PlainName(aliases[target])
    ensures Entry(env, aliases[target]) == Some(entry) && entry.Object? && HasRef(entry.fields)
    ensures var keys := aliases[target].Keys();
      REF !in keys && Keys(Slashed(keys)) == Some(keys) && Follow(result, keys, env.index) == Some(node)
    ensures WalksTo(env, aliases, entry, env.source, {}, aliases[target].Keys(), node)
    ensures target.path in env.files && Pointed(env.files[target.path], target.fragment, env.index) == Some(inner)
    ensures WalksTo(env, aliases, inner, target.path, {} + {target}, [], resolved)
    ensures node.Object? && resolved.Object? && node.fields.Keys == resolved.fields.Keys + (entry.fields.Keys - {REF})
    ensures forall k | k in resolved.fields && (k == REF || k !in entry.fields) :: node.fields[k] == resolved.fields[k]
  {
    hide Walk, Spellable, Slashed, EndsWith, RefTexts, Follow;
    var component := aliases[target];
    entry := Entry(env, component).value;
    AliasNamesItself(component);
    ComponentNode(env, aliases, result, component);
    node := Walk(env, aliases, entry, env.source, {}, component.Keys()).value;
    inner, resolved := WalkedInline(env, aliases, entry, env.source, {}, component.Keys(), target);
  }

  /** A list stays a list of the same length, and what a key picks from it is walked; a scalar stays as it is. */
  lemma KeepsItems(env: Env, aliases: map<Target, Component>, value: Value, current: Path, trail: set<Target>,
                   position: seq<string>, walked: Value)
    requires WalksTo(env, aliases, value, current, trail, position, walked) && !value.Object?
    ensures value.List? ==>
      (walked.List? && |walked.items| == |value.items| &&
       forall key :: (Child(value, key, env.index).Some? <==> Child(walked, key, env.index).Some?) &&
         (Child(value, key, env.index).Some? ==>
         WalksTo(env, aliases, Child(value, key, env.index).value, current, trail, [],
           Child(walked, key, env.index).value)))
    ensures !value.List? ==> walked == value
  {
  }

  /** Without a reference the walked object has the same keys and no reference. */
  lemma KeepsPlainObject(env: Env, aliases: map<Target, Component>, value: Value, current: Path, trail: set<Target>,
                         position: seq<string>, walked: Value)
    requires WalksTo(env, aliases, value, current, trail, position, walked)
    requires value.Object? && !HasRef(value.fields) && !EndsWith(Slashed(position), MAPPING)
    ensures walked.Object? && walked.fields.Keys == value.fields.Keys - {REF}
  {
  }

  // ----- what the walk does to a reference -----

  predicate UsesAlias(aliases: map<Target, Component>, target: Target, trail: set<Target>, position: seq<string>) {
    target in aliases && (aliases[target].Text() != "#" + Slashed(position) || target in trail)
  }

  /** The text of the reference that stays in place of one to `target`. */
  function KeptText(env: Env, aliases: map<Target, Component>, target: Target): string {
    if target.path == env.source || target !in aliases then "#" + target.fragment else aliases[target].Text()
  }

  lemma WalkedReference(env: Env, aliases: map<Target, Component>, value: Value, current: Path, trail: set<Target>,
                        position: seq<string>) returns (target: Target)
    requires Within(env, value, current) && Walk(env, aliases, value, current, trail, position).Some?
    requires !EndsWith(Slashed(position), MAPPING)
    requires value.Object? && HasRef(value.fields)
    ensures env.locate(value.fields[REF].text, current) == Some(target) && target in Targets(env)
    ensures var walked := Walk(env, aliases, value, current, trail, position).value;
      walked.Object? &&
      (target.path == env.source || UsesAlias(aliases, target, trail, position) ==>
        walked.fields.Keys == value.fields.Keys &&
        walked.fields[REF] == Str(KeptText(env, aliases, target)))
    ensures target.path != env.source && !UsesAlias(aliases, target, trail, position) ==>
      target !in trail && target.path in env.files && Pointed(env.files[target.path], target.fragment, env.index).Some?
  {
    target := env.locate(value.fields[REF].text, current).value;
  }

  lemma WalkedInline(env: Env, aliases: map<Target, Component>, value: Value, current: Path, trail: set<Target>,
                     position: seq<string>, target: Target) returns (inner: Value, resolved: Value)
    requires Within(env, value, current) && Walk(env, aliases, value, current, trail, position).Some?
    requires !EndsWith(Slashed(position), MAPPING)
    requires value.Object? && HasRef(value.fields)
    requires env.locate(value.fields[REF].text, current) == Some(target)
    requires target.path != env.source && !UsesAlias(aliases, target, trail, position)
    ensures target !in trail && target in Targets(env) && target.path in env.files && Within(env, inner, target.path)
    ensures Pointed(env.files[target.path], target.fragment, env.index) == Some(inner)
    ensures Walk(env, aliases, inner, target.path, trail + {target}, []) == Some(resolved) && resolved.Object?
    ensures var walked := Walk(env, aliases, value, current, trail, position).value;
      walked.Object? && walked.fields.Keys == resolved.fields.Keys + (value.fields.Keys - {REF}) &&
      forall k | k in resolved.fields && (k == REF || k !in value.fields) ::
        walked.fields[k] == resolved.fields[k]
  {
    inner := Pointed(env.files[target.path], target.fragment, env.index).value;
    FollowWithin(env, env.files[target.path], target.path, Keys(target.fragment).value);
    resolved := Walk(env, aliases, inner, target.path, trail + {target}, []).value;
  }

  lemma LookupChild(env: Env, fuel: nat, value: Value, current: Path, key: string, path: seq<string>)
    requires value.Object? && key in value.fields && key != REF
    ensures Lookup(env, fuel, value, current, [key] + path) == Lookup(env, fuel, value.fields[key], current, path)
  {
    assert ([key] + path)[1..] == path;
  }

  /** A key that an object lacks is looked up in the target of its reference. */
  lemma LookupThrough(env: Env, fuel: nat, value: Value, current: Path, path: seq<string>, target: Target,
                      keys: seq<string>)
    requires value.Object? && HasRef(value.fields) && (path == [] || path[0] == REF || path[0] !in value.fields)
    requires env.locate(value.fields[REF].text, current) == Some(target)
    requires target.path in env.files && Keys(target.fragment) == Some(keys)
    ensures Lookup(env, fuel, value, current, path) ==
            if fuel == 0 then None else Lookup(env, fuel - 1, env.files[target.path], target.path, keys + path)
  {
  }

  /** A lookup that succeeds past a reference has found its target's document and has fuel left. */
  lemma LookupTarget(env: Env, fuel: nat, value: Value, current: Path, path: seq<string>, target: Target, leaf: Leaf)
    returns (keys: seq<string>)
    requires value.Object? && HasRef(value.fields) && (path == [] || path[0] == REF || path[0] !in value.fields)
    requires env.locate(value.fields[REF].text, current) == Some(target)
    requires Lookup(env, fuel, value, current, path) == Some(leaf)
    ensures fuel > 0 && target.path in env.files && Keys(target.fragment) == Some(keys)
    ensures Lookup(env, fuel - 1, env.files[target.path], target.path, keys + path) == Some(leaf)
  {
    keys := Keys(target.fragment).value;
    LookupThrough(env, fuel, value, current, path, target, keys);
  }

  /** Two objects that agree on every key the path may ask for first reach the same leaf. */
  lemma LookupAgrees(env: Env, fuel: nat, left: Value, right: Value, current: Path, path: seq<string>)
    requires left.Object? && right.Object?
    requires path != [] && path[0] != REF ==> (path[0] in left.fields <==> path[0] in right.fields)
    requires path != [] && path[0] != REF && path[0] in left.fields ==> left.fields[path[0]] == right.fields[path[0]]
    requires REF in left.fields <==> REF in right.fields
    requires REF in left.fields ==> left.fields[REF] == right.fields[REF]
    ensures Lookup(env, fuel, left, current, path) == Lookup(env, fuel, right, current, path)
  {
  }

  // ----- meaning preservation -----

  /** Whatever the documents reach, the bundle reaches too. */
  lemma {:induction false} Forward(env: Env, aliases: map<Target, Component>, result: Value, alone: Env, fuel: nat,
      value: Value, current: Path, trail: set<Target>, position: seq<string>, walked: Value, path: seq<string>,
      leaf: Leaf)
    requires FaithfulAs(env, aliases, result, alone)
    requires WalksTo(env, aliases, value, current, trail, position, walked)
    requires Clear(position, path)
    requires Lookup(env, fuel, value, current, path) == Some(leaf)
    ensures Lookup(alone, fuel, walked, env.source, path) == Some(leaf)
    decreases fuel, |path|, 2
  {
    hide Faithful, Walk;
    assert position + path[..0] == position;
    match value
    case List(items) =>
      KeepsItems(env, aliases, value, current, trail, position, walked);
      if path != [] {
        ClearStep(position, path);
        var item := Child(value, path[0], env.index).value;
        var itemWalked := Child(walked, path[0], env.index).value;
        Forward(env, aliases, result, alone, fuel, item, current, trail, [], itemWalked, path[1..], leaf);
      }
    case Object(fields) =>
      if path != [] && path[0] != REF && path[0] in fields {
        KeepsKey(env, aliases, value, current, trail, position, path[0]);
        ClearStep(position, path);
        Forward(env, aliases, result, alone, fuel, fields[path[0]], current, trail, position + [path[0]],
                walked.fields[path[0]], path[1..], leaf);
      } else if HasRef(fields) {
        ForwardReference(env, aliases, result, alone, fuel, value, current, trail, position, walked, path, leaf);
      } else {
        KeepsPlainObject(env, aliases, value, current, trail, position, walked);
      }
    case _ =>
      KeepsItems(env, aliases, value, current, trail, position, walked);
  }

  lemma {:induction false} ForwardReference(env: Env, aliases: map<Target, Component>, result: Value, alone: Env,
      fuel: nat, value: Value, current: Path, trail: set<Target>, position: seq<string>, walked: Value,
      path: seq<string>, leaf: Leaf)
    requires FaithfulAs(env, aliases, result, alone)
    requires WalksTo(env, aliases, value, current, trail, position, walked)
    requires Clear(position, path) && !EndsWith(Slashed(position), MAPPING)
    requires Lookup(env, fuel, value, current, path) == Some(leaf)
    requires value.Object? && HasRef(value.fields)
    requires path == [] || path[0] == REF || path[0] !in value.fields
    ensures Lookup(alone, fuel, walked, env.source, path) == Some(leaf)
    decreases fuel, |path|, 1
  {
    hide Faithful, FaithfulAs, Walk, Lookup, Targets, Clear;
    var target := WalkedReference(env, aliases, value, current, trail, position);
    var keys := LookupTarget(env, fuel, value, current, path, target, leaf);
    ClearForget(position, path);
    if target.path == env.source {
      ForwardLocal(env, aliases, result, alone, fuel, walked, target, keys, path, leaf);
    } else if UsesAlias(aliases, target, trail, position) {
      ForwardAlias(env, aliases, result, alone, fuel, walked, target, keys, path, leaf);
    } else {
      var inner, resolved := WalkedInline(env, aliases, value, current, trail, position, target);
      ForwardInto(env, aliases, result, alone, fuel - 1, target, keys, inner, trail, resolved, path, leaf);
      MoreFuel(alone, fuel - 1, fuel, resolved, env.source, path);
      LookupAgrees(alone, fuel, resolved, walked, env.source, path);
    }
  }

  lemma {:induction false} ForwardLocal(env: Env, aliases: map<Target, Component>, result: Value, alone: Env, fuel: nat,
      walked: Value, target: Target, keys: seq<string>, path: seq<string>, leaf: Leaf)
    requires FaithfulAs(env, aliases, result, alone) && fuel > 0
    requires target in Targets(env) && target.path == env.source && Keys(target.fragment) == Some(keys)
    requires walked.Object? && HasRef(walked.fields) && walked.fields[REF].text == "#" + target.fragment
    requires path == [] || path[0] == REF || path[0] !in walked.fields
    requires Clear([], path) && Lookup(env, fuel - 1, env.files[env.source], env.source, keys + path) == Some(leaf)
    ensures Lookup(alone, fuel, walked, env.source, path) == Some(leaf)
    decreases fuel, |path|, 0
  {
    hide Faithful, Lookup;
    ForwardRoot(env, aliases, result, alone, fuel - 1, target, keys, path, leaf);
    LocalJump(env, result, alone, fuel, walked, target.fragment, keys, path);
  }

  lemma {:induction false} ForwardRoot(env: Env, aliases: map<Target, Component>, result: Value, alone: Env, fuel: nat,
      target: Target, keys: seq<string>, path: seq<string>, leaf: Leaf)
    requires FaithfulAs(env, aliases, result, alone)
    requires target in Targets(env) && target.path == env.source && Keys(target.fragment) == Some(keys)
    requires Clear([], path) && Lookup(env, fuel, env.files[env.source], env.source, keys + path) == Some(leaf)
    ensures Lookup(alone, fuel, result, env.source, keys + path) == Some(leaf)
    decreases fuel, |keys + path|, 3
  {
    assert ClearKeys(keys);
    ClearConcat(keys, path);
    Forward(env, aliases, result, alone, fuel, env.files[env.source], env.source, {}, [], result, keys + path, leaf);
  }

  lemma {:induction false} ForwardAlias(env: Env, aliases: map<Target, Component>, result: Value, alone: Env, fuel: nat,
      walked: Value, target: Target, keys: seq<string>, path: seq<string>, leaf: Leaf)
    requires FaithfulAs(env, aliases, result, alone) && fuel > 0
    requires target in Targets(env) && target.path != env.source && Keys(target.fragment) == Some(keys)
    requires target in aliases && target.path in env.files
    requires walked.Object? && HasRef(walked.fields) && walked.fields[REF].text == aliases[target].Text()
    requires path == [] || path[0] == REF || path[0] !in walked.fields
    requires Clear([], path) && Lookup(env, fuel - 1, env.files[target.path], target.path, keys + path) == Some(leaf)
    ensures Lookup(alone, fuel, walked, env.source, path) == Some(leaf)
    decreases fuel, |path|, 0
  {
    hide Faithful, Bundled, Walked, Lookup, PlainName, Targets, Pointed, SoundAlias, Entry;
    PlainIsSound(env, aliases, result);
    AliasIsSound(env, aliases, result, target);
    var entry, sibling, inner, resolved := AliasJump(env, aliases, result, alone, fuel, walked, target, path);
    if SiblingPath(entry, path) {
      ForwardSibling(env, aliases, result, alone, fuel - 1, target, entry, sibling, keys, path, leaf);
    } else {
      ForwardInto(env, aliases, result, alone, fuel - 1, target, keys, inner, {}, resolved, path, leaf);
    }
  }

  lemma {:induction false} ForwardSibling(env: Env, aliases: map<Target, Component>, result: Value, alone: Env,
      fuel: nat, target: Target, entry: Value, sibling: Value, keys: seq<string>, path: seq<string>, leaf: Leaf)
    requires FaithfulAs(env, aliases, result, alone) && target in aliases && target.path != env.source
    requires target.path in env.files && Keys(target.fragment) == Some(keys)
    requires env.source in env.files && Entry(env, aliases[target]) == Some(entry)
    requires entry.Object? && SiblingPath(entry, path) && Clear([], path)
    requires WalksTo(env, aliases, entry.fields[path[0]], env.source, {}, aliases[target].Keys() + [path[0]], sibling)
    requires Lookup(env, fuel, env.files[target.path], target.path, keys + path) == Some(leaf)
    ensures Lookup(alone, fuel, sibling, env.source, path[1..]) == Some(leaf)
    decreases fuel, |path|
  {
    hide Faithful, Lookup, Entry, Clear;
    var value, at := entry.fields[path[0]], aliases[target].Keys() + [path[0]];
    SiblingReaches(env, aliases, result, target, keys, path, leaf, fuel);
    if Scalar(value) {
      KeepsItems(env, aliases, value, env.source, {}, at, sibling);
      ScalarLeaf(env, fuel, value, env.source, path[1..]);
      ScalarLeaf(alone, fuel, value, env.source, path[1..]);
    } else {
      PlainEntry(env, aliases, result, target, path[0]);
      ClearSibling(aliases[target], path);
      Forward(env, aliases, result, alone, fuel, value, env.source, {}, at, sibling, path[1..], leaf);
    }
  }

  lemma {:induction false} ForwardInto(env: Env, aliases: map<Target, Component>, result: Value, alone: Env, fuel: nat,
      target: Target, keys: seq<string>, inner: Value, trail: set<Target>, resolved: Value, path: seq<string>,
      leaf: Leaf)
    requires FaithfulAs(env, aliases, result, alone) 
    requires target in Targets(env) && target.path in env.files && Keys(target.fragment) == Some(keys)
    requires Pointed(env.files[target.path], target.fragment, env.index) == Some(inner)
    requires WalksTo(env, aliases, inner, target.path, trail + {target}, [], resolved)
    requires Clear([], path) && Lookup(env, fuel, env.files[target.path], target.path, keys + path) == Some(leaf)
    ensures Lookup(alone, fuel, resolved, env.source, path) == Some(leaf)
    decreases fuel, |path|, 3
  {
    assert ClearKeys(keys);
    FollowLookup(env, fuel, env.files[target.path], target.path, keys, path);
    Forward(env, aliases, result, alone, fuel, inner, target.path, trail + {target}, [], resolved, path, leaf);
  }

  /** Looking past a local reference of the bundle continues at the bundle's root. */
  lemma LocalJump(env: Env, result: Value, alone: Env, fuel: nat, walked: Value, fragment: string, keys: seq<string>,
                  path: seq<string>)
    requires alone == Alone(env, result)
    requires fuel > 0 && Keys(fragment) == Some(keys)
    requires walked.Object? && HasRef(walked.fields) && walked.fields[REF].text == "#" + fragment
    requires path == [] || path[0] == REF || path[0] !in walked.fields
    ensures Lookup(alone, fuel, walked, env.source, path) ==
            Lookup(alone, fuel - 1, result, env.source, keys + path)
  {
    LookupThrough(alone, fuel, walked, env.source, path, Target(env.source, fragment), keys);
  }

  /** The path asks first for a key beside the entry's reference. */
  predicate SiblingPath(entry: Value, path: seq<string>)
    requires entry.Object?
  {
    path != [] && path[0] != REF && path[0] in entry.fields
  }

  /** Looking past an alias reference of the bundle continues at a key beside the component's own reference, walked
      in place, or else at its target, inlined. */
  lemma AliasJump(env: Env, aliases: map<Target, Component>, result: Value, alone: Env, fuel: nat, walked: Value,
                  target: Target, path: seq<string>)
    returns (entry: Value, sibling: Value, inner: Value, resolved: Value)
    requires Walked(env, aliases, result) && alone == Alone(env, result) && fuel > 0
    requires target in aliases && target.path != env.source && PlainName(aliases[target])
    requires walked.Object? && HasRef(walked.fields) && walked.fields[REF].text == aliases[target].Text()
    requires path == [] || path[0] == REF || path[0] !in walked.fields
    ensures Entry(env, aliases[target]) == Some(entry) && entry.Object?
    ensures target.path in env.files && Pointed(env.files[target.path], target.fragment, env.index) == Some(inner)
    ensures WalksTo(env, aliases, inner, target.path, {} + {target}, [], resolved)
    ensures SiblingPath(entry, path) ==>
      WalksTo(env, aliases, entry.fields[path[0]], env.source, {}, aliases[target].Keys() + [path[0]], sibling)
    ensures Lookup(alone, fuel, walked, env.source, path) ==
      if SiblingPath(entry, path) then Lookup(alone, fuel - 1, sibling, env.source, path[1..])
      else Lookup(alone, fuel - 1, resolved, env.source, path)
  {
    hide Walk, Targets, RefTexts, Slashed, Lookup, Pointed, Keys, AliasTable, Follow, Entry;
    var node;
    entry, inner, resolved, node := AliasNode(env, aliases, result, target);
    sibling := entry;
    EntryJump(env, aliases, result, alone, fuel - 1, walked, target, node, path);
    if SiblingPath(entry, path) {
      KeepsKey(env, aliases, entry, env.source, {}, aliases[target].Keys(), path[0]);
      sibling := node.fields[path[0]];
      LookupChild(alone, fuel - 1, node, env.source, path[0], path[1..]);
      assert [path[0]] + path[1..] == path;
    } else {
      LookupAgrees(alone, fuel - 1, node, resolved, env.source, path);
    }
  }

  lemma EntryJump(env: Env, aliases: map<Target, Component>, result: Value, alone: Env, fuel: nat, walked: Value,
                  target: Target, node: Value, path: seq<string>)
    requires alone == Alone(env, result) && target in aliases
    requires var keys := aliases[target].Keys();
      REF !in keys && Keys(Slashed(keys)) == Some(keys) && Follow(result, keys, env.index) == Some(node)
    requires walked.Object? && HasRef(walked.fields) && walked.fields[REF].text == aliases[target].Text()
    requires path == [] || path[0] == REF || path[0] !in walked.fields
    ensures Lookup(alone, fuel + 1, walked, env.source, path) == Lookup(alone, fuel, node, env.source, path)
  {
    hide Lookup, Follow, Slashed;
    var keys := aliases[target].Keys();
    LocalJump(env, result, alone, fuel + 1, walked, Slashed(keys), keys, path);
    FollowLookup(alone, fuel, result, env.source, keys, path);
  }

  /** What the documents reach below an alias's target, they reach in the value beside its reference, without
      resolving any reference. */
  lemma SiblingReaches(env: Env, aliases: map<Target, Component>, result: Value, target: Target, keys: seq<string>,
                       path: seq<string>, leaf: Leaf, fuel: nat)
    requires Faithful(env, aliases, result) && target in aliases && target.path != env.source
    requires Entry(env, aliases[target]).Some? && Entry(env, aliases[target]).value.Object?
    requires SiblingPath(Entry(env, aliases[target]).value, path) && Keys(target.fragment) == Some(keys)
    requires target.path in env.files
    requires Lookup(env, fuel, env.files[target.path], target.path, keys + path) == Some(leaf)
    ensures Lookup(env, fuel, Entry(env, aliases[target]).value.fields[path[0]], env.source, path[1..]) == Some(leaf)
  {
    hide Walk, Lookup, PlainName;
    var value := Entry(env, aliases[target]).value.fields[path[0]];
    PlainEntry(env, aliases, result, target, path[0]);
    assert keys + path == keys + [path[0]] + path[1..];
    assert ReachesFrom(env, env.files[target.path], target.path, keys + [path[0]] + path[1..], leaf);
    assert ReachesFrom(env, value, env.source, path[1..], leaf);
    var more: nat :| Lookup(env, more, value, env.source, path[1..]) == Some(leaf);
    NoFuelNeeded(env, fuel, more, value, env.source, path[1..]);
  }

  lemma PlainEntry(env: Env, aliases: map<Target, Component>, result: Value, target: Target, key: string)
    requires Faithful(env, aliases, result) && target in aliases && target.path != env.source && key != REF
    requires Entry(env, aliases[target]).Some? && Entry(env, aliases[target]).value.Object?
    requires key in Entry(env, aliases[target]).value.fields
    ensures var value := Entry(env, aliases[target]).value.fields[key];
      PlainName(aliases[target]) && ReferenceFree(value) && SiblingAgrees(env, target, key, value) &&
      (Scalar(value) || !EndsWith(Slashed(aliases[target].Keys()), "/discriminator"))
  {
    hide Walk, ReachesFrom;
    assert PlainAlias(env, aliases[target], target);
  }

  lemma {:induction false} NoFuelNeeded(env: Env, fuel: nat, other: nat, value: Value, current: Path, path: seq<string>)
    requires ReferenceFree(value)
    ensures Lookup(env, fuel, value, current, path) == Lookup(env, other, value, current, path)
    decreases |path|
  {
    match value
    case Object(fields) =>
      if path != [] && path[0] in fields {
        NoFuelNeeded(env, fuel, other, fields[path[0]], current, path[1..]);
      }
    case List(items) =>
      if path != [] && Child(value, path[0], env.index).Some? {
        NoFuelNeeded(env, fuel, other, Child(value, path[0], env.index).value, current, path[1..]);
      }
    case _ =>
  }

  lemma ScalarLeaf(env: Env, fuel: nat, value: Value, current: Path, path: seq<string>)
    requires Scalar(value)
    ensures Lookup(env, fuel, value, current, path) == if path == [] then Some(AScalar(value)) else None
  {
  }

  /** Whatever the bundle reaches, the documents reach too. */
  lemma {:induction false} Backward(env: Env, aliases: map<Target, Component>, result: Value, alone: Env, fuel: nat,
      value: Value, current: Path, trail: set<Target>, position: seq<string>, walked: Value, path: seq<string>,
      leaf: Leaf)
    returns (more: nat)
    requires BundledAs(env, aliases, result, alone)
    requires WalksTo(env, aliases, value, current, trail, position, walked)
    requires Clear(position, path)
    requires Lookup(alone, fuel, walked, env.source, path) == Some(leaf)
    ensures Lookup(env, more, value, current, path) == Some(leaf)
    decreases fuel, |path|, Targets(env) - trail, 2
  {
    hide Bundled, Walk;
    assert position + path[..0] == position;
    more := 0;
    match value
    case List(items) =>
      KeepsItems(env, aliases, value, current, trail, position, walked);
      if path != [] {
        ClearStep(position, path);
        var item := Child(value, path[0], env.index).value;
        var itemWalked := Child(walked, path[0], env.index).value;
        more := Backward(env, aliases, result, alone, fuel, item, current, trail, [], itemWalked, path[1..], leaf);
      }
    case Object(fields) =>
      if path != [] && path[0] != REF && path[0] in fields {
        KeepsKey(env, aliases, value, current, trail, position, path[0]);
        ClearStep(position, path);
        more := Backward(env, aliases, result, alone, fuel, fields[path[0]], current, trail, position + [path[0]],
                         walked.fields[path[0]], path[1..], leaf);
      } else if HasRef(fields) {
        more := BackwardReference(env, aliases, result, alone, fuel, value, current, trail, position, walked, path,
                                  leaf);
      } else {
        KeepsPlainObject(env, aliases, value, current, trail, position, walked);
      }
    case _ =>
      KeepsItems(env, aliases, value, current, trail, position, walked);
  }

  lemma {:induction false} BackwardReference(env: Env, aliases: map<Target, Component>, result: Value, alone: Env,
      fuel: nat, value: Value, current: Path, trail: set<Target>, position: seq<string>, walked: Value,
      path: seq<string>, leaf: Leaf)
    returns (more: nat)
    requires BundledAs(env, aliases, result, alone)
    requires WalksTo(env, aliases, value, current, trail, position, walked)
    requires Clear(position, path) && !EndsWith(Slashed(position), MAPPING)
    requires Lookup(alone, fuel, walked, env.source, path) == Some(leaf)
    requires value.Object? && HasRef(value.fields)
    requires path == [] || path[0] == REF || path[0] !in value.fields
    ensures Lookup(env, more, value, current, path) == Some(leaf)
    decreases fuel, |path|, Targets(env) - trail, 1
  {
    hide Bundled, BundledAs, Walk, Lookup, Targets, Clear;
    var target := WalkedReference(env, aliases, value, current, trail, position);
    ClearForget(position, path);
    var keys;
    if target.path == env.source {
      keys, more := BackwardLocal(env, aliases, result, alone, fuel, walked, target, trail, path, leaf);
    } else if UsesAlias(aliases, target, trail, position) {
      keys, more := BackwardAlias(env, aliases, result, alone, fuel, walked, target, trail, path, leaf);
    } else {
      var inner, resolved := WalkedInline(env, aliases, value, current, trail, position, target);
      LookupAgrees(alone, fuel, resolved, walked, env.source, path);
      more := Backward(env, aliases, result, alone, fuel, inner, target.path, trail + {target}, [], resolved, path,
                       leaf);
      keys := IntoTarget(env, aliases, result, alone, more, target, inner, path);
    }
    LookupThrough(env, more + 1, value, current, path, target, keys);
    more := more + 1;
  }

  lemma {:induction false} BackwardLocal(env: Env, aliases: map<Target, Component>, result: Value, alone: Env,
      fuel: nat, walked: Value, target: Target, trail: set<Target>, path: seq<string>, leaf: Leaf)
    returns (keys: seq<string>, more: nat)
    requires BundledAs(env, aliases, result, alone)
    requires target in Targets(env) && target.path == env.source
    requires walked.Object? && HasRef(walked.fields) && walked.fields[REF].text == "#" + target.fragment
    requires path == [] || path[0] == REF || path[0] !in walked.fields
    requires Clear([], path) && Lookup(alone, fuel, walked, env.source, path) == Some(leaf)
    ensures env.source in env.files && Keys(target.fragment) == Some(keys)
    ensures Lookup(env, more, env.files[env.source], env.source, keys + path) == Some(leaf)
    decreases fuel, |path|, Targets(env) - trail, 0
  {
    hide Walk, Lookup;
    keys := LookupTarget(alone, fuel, walked, env.source, path, Target(env.source, target.fragment), leaf);
    assert ClearKeys(keys);
    ClearConcat(keys, path);
    more := Backward(env, aliases, result, alone, fuel - 1, env.files[env.source], env.source, {}, [], result,
                     keys + path, leaf);
  }

  lemma {:induction false} BackwardAlias(env: Env, aliases: map<Target, Component>, result: Value, alone: Env,
      fuel: nat, walked: Value, target: Target, trail: set<Target>, path: seq<string>, leaf: Leaf)
    returns (keys: seq<string>, more: nat)
    requires BundledAs(env, aliases, result, alone)
    requires target in Targets(env) && target.path != env.source && target in aliases
    requires walked.Object? && HasRef(walked.fields) && walked.fields[REF].text == aliases[target].Text()
    requires path == [] || path[0] == REF || path[0] !in walked.fields
    requires Clear([], path) && Lookup(alone, fuel, walked, env.source, path) == Some(leaf)
    ensures target.path in env.files && Keys(target.fragment) == Some(keys)
    ensures Lookup(env, more, env.files[target.path], target.path, keys + path) == Some(leaf)
    decreases fuel, |path|, Targets(env) - trail, 0
  {
    hide Bundled, Walk, Walked, PlainName, Targets, Pointed, SoundAlias, Entry, EndsWith, Slashed, Clear;
    assert fuel > 0;
    hide Lookup;
    AliasIsSound(env, aliases, result, target);
    var entry, sibling, inner, resolved := AliasJump(env, aliases, result, alone, fuel, walked, target, path);
    if SiblingPath(entry, path) {
      keys, more := BackwardSibling(env, aliases, result, alone, fuel - 1, target, entry, sibling, path, leaf);
    } else {
      more := Backward(env, aliases, result, alone, fuel - 1, inner, target.path, {} + {target}, [], resolved, path,
                       leaf);
      keys := IntoTarget(env, aliases, result, alone, more, target, inner, path);
    }
  }

  lemma {:induction false} BackwardSibling(env: Env, aliases: map<Target, Component>, result: Value, alone: Env,
      fuel: nat, target: Target, entry: Value, sibling: Value, path: seq<string>, leaf: Leaf)
    returns (keys: seq<string>, more: nat)
    requires BundledAs(env, aliases, result, alone) && target in aliases && target.path != env.source
    requires env.source in env.files && Entry(env, aliases[target]) == Some(entry)
    requires entry.Object? && SiblingPath(entry, path) && Clear([], path)
    requires WalksTo(env, aliases, entry.fields[path[0]], env.source, {}, aliases[target].Keys() + [path[0]], sibling)
    requires Lookup(alone, fuel, sibling, env.source, path[1..]) == Some(leaf)
    ensures target.path in env.files && Keys(target.fragment) == Some(keys)
    ensures Lookup(env, more, env.files[target.path], target.path, keys + path) == Some(leaf)
    decreases fuel, |path|
  {
    hide Bundled, Lookup, Entry;
    AliasIsSound(env, aliases, result, target);
    var at := aliases[target].Keys() + [path[0]];
    if Scalar(entry.fields[path[0]]) {
      KeepsItems(env, aliases, entry.fields[path[0]], env.source, {}, at, sibling);
      more := SameScalar(env, alone, fuel, sibling, path[1..], leaf);
    } else {
      ClearSibling(aliases[target], path);
      more := Backward(env, aliases, result, alone, fuel, entry.fields[path[0]], env.source, {}, at, sibling,
                       path[1..], leaf);
    }
    keys, more := SiblingReached(env, entry.fields[path[0]], target, path, leaf, more);
  }

  lemma SameScalar(env: Env, alone: Env, fuel: nat, scalar: Value, path: seq<string>, leaf: Leaf) returns (more: nat)
    requires Scalar(scalar) && Lookup(alone, fuel, scalar, env.source, path) == Some(leaf)
    ensures Lookup(env, more, scalar, env.source, path) == Some(leaf)
  {
    more := 0;
  }

  lemma SiblingReached(env: Env, sibling: Value, target: Target, path: seq<string>, leaf: Leaf, fuel: nat)
    returns (keys: seq<string>, more: nat)
    requires path != [] && SiblingImplied(env, target, path[0], sibling)
    requires Lookup(env, fuel, sibling, env.source, path[1..]) == Some(leaf)
    ensures target.path in env.files && Keys(target.fragment) == Some(keys)
    ensures Lookup(env, more, env.files[target.path], target.path, keys + path) == Some(leaf)
  {
    hide Lookup;
    keys := Keys(target.fragment).value;
    assert ReachesFrom(env, sibling, env.source, path[1..], leaf);
    assert keys + path == keys + [path[0]] + path[1..];
    assert ReachesFrom(env, env.files[target.path], target.path, keys + [path[0]] + path[1..], leaf);
    more :| Lookup(env, more, env.files[target.path], target.path, keys + path) == Some(leaf);
  }

  /** Below a component a clear path stays clear. */
  lemma ClearSibling(component: Component, path: seq<string>)
    requires PlainName(component) && !EndsWith(Slashed(component.Keys()), "/discriminator")
    requires path != [] && Clear([], path)
    ensures Clear(component.Keys() + [path[0]], path[1..])
  {
    var keys := component.Keys();
    forall i | 0 <= i <= 3 ensures !EndsWith(Slashed([] + keys[..i]), MAPPING) {
      if i < 3 {
        ClearPrefix(component, i);
      } else {
        assert [] + keys[..3] == keys;
      }
    }
    ClearConcat(keys, path);
    forall i | 0 <= i <= |path[1..]| ensures !EndsWith(Slashed(keys + [path[0]] + path[1..][..i]), MAPPING) {
      assert keys + [path[0]] + path[1..][..i] == [] + (keys + path)[..i + 4];
    }
  }

  lemma AliasIsSound(env: Env, aliases: map<Target, Component>, result: Value, target: Target)
    requires Bundled(env, aliases, result) && target in aliases && target.path != env.source
    ensures Walked(env, aliases, result) && env.source in env.files && PlainName(aliases[target])
    ensures Entry(env, aliases[target]).Some? && SoundAlias(env, aliases[target], target)
  {
    hide Walk;
    assert SoundAlias(env, aliases[target], target);
    hide SiblingImplied, PlainName;
  }

  /** Agreeing siblings are sound ones. */
  lemma PlainIsSound(env: Env, aliases: map<Target, Component>, result: Value)
    requires Faithful(env, aliases, result)
    ensures Bundled(env, aliases, result)
  {
    hide Walk, PlainName, ReachesFrom;
    forall target <- aliases | target.path != env.source ensures SoundAlias(env, aliases[target], target) {
      var entry := Entry(env, aliases[target]).value;
      assert PlainAlias(env, aliases[target], target);
      forall k <- entry.fields | k != REF ensures SiblingImplied(env, target, k, entry.fields[k]) {
        assert SiblingAgrees(env, target, k, entry.fields[k]);
      }
    }
  }

  /** Looking past what a pointer names is looking along the pointer first. */
  lemma IntoTarget(env: Env, aliases: map<Target, Component>, result: Value, alone: Env, fuel: nat, target: Target,
                   inner: Value, path: seq<string>) returns (keys: seq<string>)
    requires BundledAs(env, aliases, result, alone)
    requires target in Targets(env) && target.path in env.files
    requires Pointed(env.files[target.path], target.fragment, env.index) == Some(inner)
    ensures Keys(target.fragment) == Some(keys)
    ensures Lookup(env, fuel, env.files[target.path], target.path, keys + path) ==
            Lookup(env, fuel, inner, target.path, path)
  {
    hide Walk, Lookup;
    keys := Keys(target.fragment).value;
    assert ClearKeys(keys);
    FollowLookup(env, fuel, env.files[target.path], target.path, keys, path);
  }

  /** A bundle reaches nothing new, as long as the keys beside alias references, of whatever kind, say nothing
      that their targets do not say. */
  lemma NothingNew(env: Env, aliases: map<Target, Component>, result: Value, path: seq<string>, leaf: Leaf)
    requires Bundled(env, aliases, result) && Clear([], path)
    ensures Reaches(Alone(env, result), path, leaf) ==> Reaches(env, path, leaf)
  {
    var alone, root := Alone(env, result), env.files[env.source];
    if Reaches(alone, path, leaf) {
      var fuel: nat :| Lookup(alone, fuel, result, env.source, path) == Some(leaf);
      var more := Backward(env, aliases, result, alone, fuel, root, env.source, {}, [], result, path, leaf);
    }
  }

  /** A successful walk over the root document reaches the same leaf as the documents along every key
      path outside the discriminator mappings, and reaches nothing else. */
  lemma SameLeaves(env: Env, aliases: map<Target, Component>, result: Value, path: seq<string>, leaf: Leaf)
    requires Faithful(env, aliases, result) && Clear([], path)
    ensures Reaches(env, path, leaf) <==> Reaches(Alone(env, result), path, leaf)
  {
    var alone, root := Alone(env, result), env.files[env.source];
    PlainIsSound(env, aliases, result);
    NothingNew(env, aliases, result, path, leaf);
    if Reaches(env, path, leaf) {
      var fuel: nat :| Lookup(env, fuel, root, env.source, path) == Some(leaf);
      Forward(env, aliases, result, alone, fuel, root, env.source, {}, [], result, path, leaf);
    }
  }

  // ----- the whole run -----

  /** The last component visited that is an alias of the target. */
  ghost predicate IsLastAlias(env: Env, visited: seq<Component>, target: Target, component: Component)
    requires env.source in env.files
  {
    exists i | 0 <= i < |visited| ::
      visited[i] == component && IsAlias(env, component, target) &&
      forall j | i < j < |visited| :: !IsAlias(env, visited[j], target)
  }

  /** Every target of a visited alias is in the table, under its last alias. */
  ghost predicate LastWins(env: Env, visited: seq<Component>, table: map<Target, Component>)
    requires env.source in env.files
  {
    (forall target <- table :: IsLastAlias(env, visited, target, table[target])) &&
    (forall target, c <- visited :: IsAlias(env, c, target) ==> target in table)
  }

  ghost predicate NoneTwice(visited: seq<Component>) {
    forall i, j | 0 <= i < j < |visited| :: visited[i] != visited[j]
  }

  lemma VisitStep(env: Env, visited: seq<Component>, table: map<Target, Component>, component: Component,
                  found: Option<Target>)
    requires env.source in env.files && LastWins(env, visited, table)
    requires forall target :: IsAlias(env, component, target) <==> found == Some(target)
    ensures LastWins(env, visited + [component], if found.Some? then table[found.value := component] else table)
  {
    var longer, next := visited + [component], if found.Some? then table[found.value := component] else table;
    forall target <- next ensures IsLastAlias(env, longer, target, next[target]) {
      if found == Some(target) {
        assert longer[|visited|] == component;
      } else {
        assert IsLastAlias(env, visited, target, table[target]);
        var i :| 0 <= i < |visited| && visited[i] == table[target] && IsAlias(env, table[target], target) &&
          forall j | i < j < |visited| :: !IsAlias(env, visited[j], target);
        assert longer[i] == table[target];
      }
    }
  }

  lemma LastWinsTable(env: Env, visited: seq<Component>, table: map<Target, Component>)
    requires env.source in env.files && LastWins(env, visited, table)
    ensures AliasTable(env, table)
  {
    forall target <- table ensures IsAlias(env, table[target], target) {
      assert IsLastAlias(env, visited, target, table[target]);
    }
  }

  /** The entry's reference, if it has one, is a text, and can be located if it leaves the document. */
  predicate EntryCollects(env: Env, entry: Value) {
    match EntryReference(entry)
    case None => false
    case Some(text) => IsExternal(text) ==> env.locate(text, env.source).Some?
  }

  predicate CategoryCollects(env: Env, entries: Value) {
    entries.Object? && forall name <- entries.fields :: EntryCollects(env, entries.fields[name])
  }

  /** Nothing in the components of the root document keeps the aliases from being collected. */
  predicate Collects(env: Env)
    requires env.source in env.files && env.files[env.source].Object?
  {
    var root := env.files[env.source].fields;
    "components" in root ==>
      root["components"].Object? &&
      forall category <- root["components"].fields :: CategoryCollects(env, root["components"].fields[category])
  }

  /** The aliases of one category are added to the table. */
  method AddCategory(env: Env, category: string, entries: Value, table: map<Target, Component>,
                     ghost visited: seq<Component>)
    returns (aliases: Option<map<Target, Component>>, ghost visiting: seq<Component>)
    requires env.source in env.files && Entries(env, category) == Some(entries)
    requires LastWins(env, visited, table) && NoneTwice(visited)
    requires forall c <- visited :: c.category != category
    ensures aliases.Some? <==> CategoryCollects(env, entries)
    ensures aliases.Some? ==> LastWins(env, visiting, aliases.value) && NoneTwice(visiting)
    ensures aliases.Some? ==> forall c ::
      c in visiting <==> c in visited || (c.category == category && Entry(env, c).Some?)
  {
    hide LastWins;
    visiting := visited;
    if !entries.Object? {
      return None, visiting;
    }
    var result := table;
    var names := entries.fields.Keys;
    while names != {}
      invariant names <= entries.fields.Keys
      invariant forall name <- entries.fields.Keys - names :: EntryCollects(env, entries.fields[name])
      invariant LastWins(env, visiting, result) && NoneTwice(visiting)
      invariant forall c :: c in visiting <==>
        c in visited || (c.category == category && c.name in entries.fields && c.name !in names)
    {
      var name :| name in names;
      var found: Option<Target> := None;
      match EntryReference(entries.fields[name])
      case None => return None, visiting;
      case Some(text) =>
        if IsExternal(text) {
          found := env.locate(text, env.source);
          if found.None? {
            return None, visiting;
          }
        }
        VisitStep(env, visiting, result, Component(category, name), found);
        if found.Some? {
          result := result[found.value := Component(category, name)];
        }
        visiting := visiting + [Component(category, name)];
      names := names - {name};
    }
    return Some(result), visiting;
  }

  /** The entries are visited in some order, in the program that of the document; of the aliases of one target the
      last one visited is kept. */
  method BuildAliases(env: Env) returns (aliases: Option<map<Target, Component>>, ghost visited: seq<Component>)
    requires env.source in env.files && env.files[env.source].Object?
    ensures aliases.Some? <==> Collects(env)
    ensures aliases.Some? ==> LastWins(env, visited, aliases.value) && NoneTwice(visited)
    ensures aliases.Some? ==> forall component :: component in visited <==> Entry(env, component).Some?
    ensures aliases.Some? ==> AliasTable(env, aliases.value)
    ensures aliases.Some? ==> forall component, target | IsAlias(env, component, target) :: target in aliases.value
  {
    hide IsLastAlias, NoneTwice;
    visited := [];
    NothingTwice();
    var root := env.files[env.source];
    var components := if "components" in root.fields then root.fields["components"] else Object(map[]);
    if !components.Object? {
      return None, visited;
    }
    var result: map<Target, Component> := map[];
    var categories := components.fields.Keys;
    while categories != {}
      invariant categories <= components.fields.Keys
      invariant forall c <- components.fields.Keys - categories :: CategoryCollects(env, components.fields[c])
      invariant LastWins(env, visited, result) && NoneTwice(visited)
      invariant forall c :: c in visited <==> c.category !in categories && Entry(env, c).Some?
    {
      var category :| category in categories;
      var added;
      added, visited := AddCategory(env, category, components.fields[category], result, visited);
      if added.None? {
        return None, visited;
      }
      result := added.value;
      categories := categories - {category};
    }
    LastWinsTable(env, visited, result);
    return Some(result), visited;
  }

  lemma NothingTwice()
    ensures NoneTwice([])
  {
  }

  /** Every reference of the value is a text whose pointer resolves in the bundle. */
  predicate Resolves(result: Value, value: Value, index: string -> Option<int>) {
    match value
    case List(items) => forall i | 0 <= i < |items| :: Resolves(result, items[i], index)
    case Object(fields) =>
      (REF in fields ==>
        (fields[REF].Str? &&
         Pointed(result, if fields[REF].text == "" then "" else fields[REF].text[1..], index).Some?)) &&
      forall k | k in fields :: Resolves(result, fields[k], index)
    case _ => true
  }

  /** None stands for any error raised while loading, collecting aliases, walking or verifying, and for nothing
      else. */
  method Bundle(env: Env) returns (result: Option<Value>, aliases: map<Target, Component>)
    requires forall p <- env.files :: env.files[p].Object?
    ensures result.Some? ==>
      && env.source in env.files
      && AliasTable(env, aliases)
      && (forall component, target | IsAlias(env, component, target) :: target in aliases)
      && Walk(env, aliases, env.files[env.source], env.source, {}, []) == result
      && Resolves(result.value, result.value, env.index)
    ensures result.None? && env.source in env.files && Collects(env) ==>
      && AliasTable(env, aliases)
      && (forall component, target | IsAlias(env, component, target) :: target in aliases)
      && (match Walk(env, aliases, env.files[env.source], env.source, {}, [])
          case None => true
          case Some(walked) => !Resolves(walked, walked, env.index))
    ensures result.Some? ==> Collects(env)
  {
    aliases := map[];
    if env.source !in env.files {
      return None, aliases;
    }
    var built;
    ghost var visited;
    built, visited := BuildAliases(env);
    if built.None? {
      return None, aliases;
    }
    aliases := built.value;
    result := Walk(env, aliases, env.files[env.source], env.source, {}, []);
    if result.Some? && !Resolves(result.value, result.value, env.index) {
      result := None;
    }
  }

  // ----- every reference of a bundle is local -----

  predicate LocalReferences(value: Value) {
    match value
    case List(items) => forall i | 0 <= i < |items| :: LocalReferences(items[i])
    case Object(fields) =>
      (REF in fields ==> (fields[REF].Str? && StartsWith(fields[REF].text, "#"))) &&
      forall k | k in fields :: LocalReferences(fields[k])
    case _ => true
  }

  /** Under the key stands a value of local references; a reference of its own is local as well. */
  predicate LocalAt(key: string, value: Value) {
    LocalReferences(value) && (key == REF ==> value.Str? && StartsWith(value.text, "#"))
  }

  /** The references of the value are local, those under hidden keys aside. */
  predicate LocalBut(value: Value, hidden: set<string>) {
    match value
    case List(_) => LocalReferences(value)
    case Object(fields) => forall k | k in fields && k !in hidden :: LocalAt(k, fields[k])
    case _ => true
  }

  /** An entry of a discriminator mapping as it stands in the bundle: a text is redirected, and matters only under
      the key `$ref`; anything else is copied unread. */
  predicate EntryLocal(env: Env, aliases: map<Target, Component>, key: string, entry: Value, current: Path) {
    if entry.Str? then
      key == REF ==>
        (match MappingEntry(env, aliases, entry, current)
         case Some(Str(text)) => StartsWith(text, "#")
         case _ => false)
    else key != REF && LocalReferences(entry)
  }

  predicate Inlines(env: Env, aliases: map<Target, Component>, target: Target, trail: set<Target>,
                    position: seq<string>) {
    target.path != env.source && !UsesAlias(aliases, target, trail, position)
  }

  /** Every discriminator mapping that the walk reaches and shows has local entries. Keys beside a reference hide the
      same keys of what is inlined for it. */
  ghost predicate MappingsLocal(env: Env, aliases: map<Target, Component>, value: Value, current: Path,
                                trail: set<Target>, position: seq<string>, hidden: set<string>)
    requires Within(env, value, current) && Walk(env, aliases, value, current, trail, position).Some?
    decreases Targets(env) - trail, value
  {
    match value
    case List(items) => forall i | 0 <= i < |items| :: MappingsLocal(env, aliases, items[i], current, trail, [], {})
    case Object(fields) =>
      if EndsWith(Slashed(position), MAPPING) then
        forall k | k in fields && k !in hidden :: EntryLocal(env, aliases, k, fields[k], current)
      else
        (forall k | k in fields && k != REF && k !in hidden ::
           MappingsLocal(env, aliases, fields[k], current, trail, position + [k], {})) &&
        (HasRef(fields) ==>
           var target := env.locate(fields[REF].text, current).value;
           Inlines(env, aliases, target, trail, position) ==>
             (FollowWithin(env, env.files[target.path], target.path, Keys(target.fragment).value);
              assert target in Targets(env);
              MappingsLocal(env, aliases, Pointed(env.files[target.path], target.fragment, env.index).value,
                            target.path, trail + {target}, [], hidden + (fields.Keys - {REF}))))
    case _ => true
  }

  /** A walk leaves no reference to another document exactly if every discriminator mapping that it reaches and shows
      has local entries. */
  lemma OnlyLocal(env: Env, aliases: map<Target, Component>, value: Value, current: Path, trail: set<Target>,
                  position: seq<string>, walked: Value)
    requires WalksTo(env, aliases, value, current, trail, position, walked)
    ensures LocalReferences(walked) <==> MappingsLocal(env, aliases, value, current, trail, position, {})
  {
    hide Walk, MappingsLocal;
    LocalExactly(env, aliases, value, current, trail, position, walked, {});
  }

  lemma {:induction false} LocalExactly(env: Env, aliases: map<Target, Component>, value: Value, current: Path,
      trail: set<Target>, position: seq<string>, walked: Value, hidden: set<string>)
    requires WalksTo(env, aliases, value, current, trail, position, walked) && REF !in hidden
    ensures LocalBut(walked, hidden) <==> MappingsLocal(env, aliases, value, current, trail, position, hidden)
    decreases Targets(env) - trail, value
  {
    match value
    case List(items) =>
      forall i | 0 <= i < |items|
        ensures LocalReferences(walked.items[i]) <==> MappingsLocal(env, aliases, items[i], current, trail, [], {})
      {
        LocalExactly(env, aliases, items[i], current, trail, [], walked.items[i], {});
      }
    case Object(fields) =>
      if !EndsWith(Slashed(position), MAPPING) {
        LocalObject(env, aliases, value, current, trail, position, walked, hidden);
      }
    case _ =>
  }

  lemma {:induction false} LocalObject(env: Env, aliases: map<Target, Component>, value: Value, current: Path,
      trail: set<Target>, position: seq<string>, walked: Value, hidden: set<string>)
    requires WalksTo(env, aliases, value, current, trail, position, walked) && REF !in hidden
    requires value.Object? && !EndsWith(Slashed(position), MAPPING)
    ensures LocalBut(walked, hidden) <==> MappingsLocal(env, aliases, value, current, trail, position, hidden)
    decreases Targets(env) - trail, value, 0
  {
    forall k | k in value.fields && k != REF
      ensures walked.Object? && k in walked.fields
      ensures LocalAt(k, walked.fields[k]) <==>
        MappingsLocal(env, aliases, value.fields[k], current, trail, position + [k], {})
    {
      KeepsKey(env, aliases, value, current, trail, position, k);
      LocalExactly(env, aliases, value.fields[k], current, trail, position + [k], walked.fields[k], {});
    }
    if HasRef(value.fields) {
      var target := WalkedReference(env, aliases, value, current, trail, position);
      if Inlines(env, aliases, target, trail, position) {
        var inner, resolved := WalkedInline(env, aliases, value, current, trail, position, target);
        LocalExactly(env, aliases, inner, target.path, trail + {target}, [], resolved,
                     hidden + (value.fields.Keys - {REF}));
      }
    } else {
      KeepsPlainObject(env, aliases, value, current, trail, position, walked);
    }
    hide Walk;
  }
}
