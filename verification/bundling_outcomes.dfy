/** When bundling succeeds, and what becomes of discriminator mappings (scripts/openapi_codegen/bundling.py). */
module BundlingOutcomes {
  import opened Text
  import opened Loading
  import opened Bundling

  // ----- when the walk raises an error -----

  /** A value that the walk visits: the document it stands in, the targets being inlined, and the keys since the last
      list item or inlined target. */
  datatype Node = Node(value: Value, current: Path, trail: set<Target>, position: seq<string>)

  predicate AtMapping(node: Node) {
    EndsWith(Slashed(node.position), MAPPING)
  }

  ghost predicate NodeWithin(env: Env, node: Node) {
    Within(env, node.value, node.current)
  }

  ghost function WalkNode(env: Env, aliases: map<Target, Component>, node: Node): Option<Value>
    requires NodeWithin(env, node)
  {
    Walk(env, aliases, node.value, node.current, node.trail, node.position)
  }

  /** The text is none of a local reference, or it is one to be inlined that leads nowhere, to no object, or back to
      what is being inlined. */
  predicate BadReference(env: Env, aliases: map<Target, Component>, node: Node, text: string) {
    match env.locate(text, node.current)
    case None => true
    case Some(target) =>
      Inlines(env, aliases, target, node.trail, node.position) &&
      (target in node.trail || target.path !in env.files ||
       match Pointed(env.files[target.path], target.fragment, env.index)
       case None => true
       case Some(inner) => !inner.Object?)
  }

  /** The walk raises an error at this very node. */
  predicate Raises(env: Env, aliases: map<Target, Component>, node: Node) {
    node.value.Object? &&
    var fields := node.value.fields;
    if AtMapping(node) then
      exists k <- fields ::
        fields[k].Str? && '#' in fields[k].text && env.locate(fields[k].text, node.current).None?
    else
      REF in fields && fields[REF] != Null &&
      (!fields[REF].Str? || BadReference(env, aliases, node, fields[REF].text))
  }

  /** The walk goes on from the node to the next: an item, a field, or the target that is inlined. */
  ghost predicate Visits(env: Env, aliases: map<Target, Component>, node: Node, next: Node) {
    match node.value
    case List(items) => exists i | 0 <= i < |items| :: next == Node(items[i], node.current, node.trail, [])
    case Object(fields) =>
      !AtMapping(node) &&
      ((exists k <- fields :: k != REF && next == Node(fields[k], node.current, node.trail, node.position + [k])) ||
       (HasRef(fields) && VisitsTarget(env, aliases, node, fields[REF].text, next)))
    case _ => false
  }

  ghost predicate VisitsTarget(env: Env, aliases: map<Target, Component>, node: Node, text: string, next: Node) {
    match env.locate(text, node.current)
    case None => false
    case Some(target) =>
      Inlines(env, aliases, target, node.trail, node.position) && target !in node.trail && target.path in env.files &&
      Pointed(env.files[target.path], target.fragment, env.index) == Some(next.value) &&
      next == Node(next.value, target.path, node.trail + {target}, [])
  }

  ghost predicate Route(env: Env, aliases: map<Target, Component>, nodes: seq<Node>) {
    nodes != [] && forall i: nat | i + 1 < |nodes| :: Visits(env, aliases, nodes[i], nodes[i + 1])
  }

  /** A walk that succeeds succeeds on what it visits. */
  lemma WalksNext(env: Env, aliases: map<Target, Component>, node: Node, next: Node)
    requires NodeWithin(env, node) && WalkNode(env, aliases, node).Some? && Visits(env, aliases, node, next)
    ensures NodeWithin(env, next) && WalkNode(env, aliases, next).Some?
  {
    match node.value
    case List(items) =>
    case Object(fields) =>
      if exists k <- fields :: k != REF && next == Node(fields[k], node.current, node.trail, node.position + [k]) {
        var k :| k in fields && k != REF && next == Node(fields[k], node.current, node.trail, node.position + [k]);
        KeepsKey(env, aliases, node.value, node.current, node.trail, node.position, k);
      } else {
        var target := env.locate(fields[REF].text, node.current).value;
        var inner, resolved :=
          WalkedInline(env, aliases, node.value, node.current, node.trail, node.position, target);
      }
  }

  lemma RaisesNothing(env: Env, aliases: map<Target, Component>, node: Node)
    requires NodeWithin(env, node) && WalkNode(env, aliases, node).Some?
    ensures !Raises(env, aliases, node)
  {
    if node.value.Object? && AtMapping(node) {
      forall k <- node.value.fields ensures MappingEntry(env, aliases, node.value.fields[k], node.current).Some? {
      }
    } else if node.value.Object? && HasRef(node.value.fields) {
      var target := WalkedReference(env, aliases, node.value, node.current, node.trail, node.position);
      if Inlines(env, aliases, target, node.trail, node.position) {
        var inner, resolved :=
          WalkedInline(env, aliases, node.value, node.current, node.trail, node.position, target);
        SameKind(env, aliases, inner, target.path, node.trail + {target}, []);
      }
    }
  }

  /** The walk turns objects, and nothing else, into objects. */
  lemma SameKind(env: Env, aliases: map<Target, Component>, value: Value, current: Path, trail: set<Target>,
                 position: seq<string>)
    requires Within(env, value, current) && Walk(env, aliases, value, current, trail, position).Some?
    ensures Walk(env, aliases, value, current, trail, position).value.Object? <==> value.Object?
  {
  }

  lemma {:induction false} RouteWalks(env: Env, aliases: map<Target, Component>, nodes: seq<Node>, n: nat)
    requires Route(env, aliases, nodes) && n < |nodes|
    requires NodeWithin(env, nodes[0]) && WalkNode(env, aliases, nodes[0]).Some?
    ensures NodeWithin(env, nodes[n]) && WalkNode(env, aliases, nodes[n]).Some?
  {
    hide Visits, NodeWithin, WalkNode;
    if n > 0 {
      RouteWalks(env, aliases, nodes, n - 1);
      assert Visits(env, aliases, nodes[n - 1], nodes[n - 1 + 1]);
      WalksNext(env, aliases, nodes[n - 1], nodes[n]);
    }
  }

  lemma LongerRoute(env: Env, aliases: map<Target, Component>, node: Node, nodes: seq<Node>)
    requires Route(env, aliases, nodes) && Visits(env, aliases, node, nodes[0])
    ensures Route(env, aliases, [node] + nodes)
  {
    hide Visits;
    var longer := [node] + nodes;
    forall i: nat | i + 1 < |longer| ensures Visits(env, aliases, longer[i], longer[i + 1]) {
      if i > 0 {
        assert Visits(env, aliases, nodes[i - 1], nodes[i - 1 + 1]);
      }
    }
  }

  /** A walk that fails visits a node that raises an error. */
  lemma {:induction false} FailingRoute(env: Env, aliases: map<Target, Component>, node: Node)
    returns (nodes: seq<Node>)
    requires NodeWithin(env, node) && WalkNode(env, aliases, node).None?
    ensures Route(env, aliases, nodes) && nodes[0] == node && Raises(env, aliases, nodes[|nodes| - 1])
    decreases Targets(env) - node.trail, node.value
  {
    if Raises(env, aliases, node) {
      return [node];
    }
    var next := FailingNext(env, aliases, node);
    var rest := FailingRoute(env, aliases, next);
    LongerRoute(env, aliases, node, rest);
    return [node] + rest;
  }

  /** A walk that fails, but not here, fails on what it visits next. */
  lemma FailingNext(env: Env, aliases: map<Target, Component>, node: Node) returns (next: Node)
    requires NodeWithin(env, node) && WalkNode(env, aliases, node).None? && !Raises(env, aliases, node)
    ensures NodeWithin(env, next) && WalkNode(env, aliases, next).None? && Visits(env, aliases, node, next)
    ensures (node.trail == next.trail && next.value < node.value) ||
            (node.trail < next.trail && next.trail - node.trail <= Targets(env))
  {
    match node.value
    case List(items) =>
      var i: nat :| i < |items| && Walk(env, aliases, items[i], node.current, node.trail, []).None?;
      next := Node(items[i], node.current, node.trail, []);
    case Object(fields) =>
      if exists k :: k in fields && k != REF &&
          Walk(env, aliases, fields[k], node.current, node.trail, node.position + [k]).None? {
        var k :| k in fields && k != REF &&
          Walk(env, aliases, fields[k], node.current, node.trail, node.position + [k]).None?;
        next := Node(fields[k], node.current, node.trail, node.position + [k]);
      } else {
        var target := env.locate(fields[REF].text, node.current).value;
        var inner := Pointed(env.files[target.path], target.fragment, env.index).value;
        FollowWithin(env, env.files[target.path], target.path, Keys(target.fragment).value);
        assert target in Targets(env);
        next := Node(inner, target.path, node.trail + {target}, []);
        if WalkNode(env, aliases, next).Some? {
          SameKind(env, aliases, inner, target.path, node.trail + {target}, []);
        }
      }
  }

  /** Bundling walks every value it visits from the root: it fails exactly if one of them raises an error, and
      otherwise ends with a result. */
  lemma WalkSucceedsExactly(env: Env, aliases: map<Target, Component>, node: Node)
    requires NodeWithin(env, node)
    ensures WalkNode(env, aliases, node).Some? <==>
      forall nodes | Route(env, aliases, nodes) && nodes[0] == node :: !Raises(env, aliases, nodes[|nodes| - 1])
  {
    hide Raises, NodeWithin, WalkNode, Visits;
    if WalkNode(env, aliases, node).Some? {
      forall nodes | Route(env, aliases, nodes) && nodes[0] == node
        ensures !Raises(env, aliases, nodes[|nodes| - 1])
      {
        RouteWalks(env, aliases, nodes, |nodes| - 1);
        RaisesNothing(env, aliases, nodes[|nodes| - 1]);
      }
    } else {
      var nodes := FailingRoute(env, aliases, node);
    }
  }

  // ----- lookups without references -----

  function LeafOf(value: Value): Leaf {
    match value
    case Object(_) => AnObject
    case List(items) => AList(|items|)
    case _ => AScalar(value)
  }

  /** Where no reference is in the way, a lookup reaches what the pointer of the same keys leads to. */
  lemma {:induction false} PlainLookup(env: Env, fuel: nat, value: Value, current: Path, keys: seq<string>)
    requires ReferenceFree(value) && REF !in keys
    ensures Lookup(env, fuel, value, current, keys) ==
      match Follow(value, keys, env.index)
      case Some(found) => Some(LeafOf(found))
      case None => None
    decreases |keys|
  {
    if keys != [] && Child(value, keys[0], env.index).Some? {
      PlainLookup(env, fuel, Child(value, keys[0], env.index).value, current, keys[1..]);
    }
  }

  // ----- what the final verification finds -----

  predicate PartOf(whole: Value, part: Value) {
    match whole
    case List(items) => part in items
    case Object(fields) => exists k <- fields :: fields[k] == part
    case _ => false
  }

  /** Each value is an item or a field of the one before. */
  ghost predicate Descent(values: seq<Value>) {
    values != [] && forall i: nat | i + 1 < |values| :: PartOf(values[i], values[i + 1])
  }

  /** A reference in the object is a text that leads to something in the bundle. */
  predicate LeadsSomewhere(result: Value, value: Value, index: string -> Option<int>) {
    value.Object? && REF in value.fields ==>
      value.fields[REF].Str? &&
      Pointed(result, if value.fields[REF].text == "" then "" else value.fields[REF].text[1..], index).Some?
  }

  lemma {:induction false} ResolvesBelow(result: Value, values: seq<Value>, n: nat, index: string -> Option<int>)
    requires Descent(values) && n < |values| && Resolves(result, values[0], index)
    ensures Resolves(result, values[n], index)
  {
    hide Pointed;
    if n > 0 {
      ResolvesBelow(result, values, n - 1, index);
      assert PartOf(values[n - 1], values[n - 1 + 1]);
    }
  }

  lemma LongerDescent(value: Value, values: seq<Value>)
    requires Descent(values) && PartOf(value, values[0])
    ensures Descent([value] + values)
  {
    hide PartOf;
    var longer := [value] + values;
    forall i: nat | i + 1 < |longer| ensures PartOf(longer[i], longer[i + 1]) {
      if i > 0 {
        assert PartOf(values[i - 1], values[i - 1 + 1]);
      }
    }
  }

  lemma {:induction false} Dangling(result: Value, value: Value, index: string -> Option<int>)
    returns (values: seq<Value>)
    requires !Resolves(result, value, index)
    ensures Descent(values) && values[0] == value && !LeadsSomewhere(result, values[|values| - 1], index)
    decreases value
  {
    hide Pointed;
    if !LeadsSomewhere(result, value, index) {
      return [value];
    }
    var part: Value;
    match value {
      case List(items) =>
        var i: nat :| i < |items| && !Resolves(result, items[i], index);
        part := items[i];
      case Object(fields) =>
        var k :| k in fields && !Resolves(result, fields[k], index);
        part := fields[k];
    }
    var rest := Dangling(result, part, index);
    LongerDescent(value, rest);
    return [value] + rest;
  }

  /** The verification passes exactly if every reference anywhere in the bundle leads to something in it. */
  lemma VerifiesExactly(result: Value, value: Value, index: string -> Option<int>)
    ensures Resolves(result, value, index) <==>
      forall values | Descent(values) && values[0] == value ::
        LeadsSomewhere(result, values[|values| - 1], index)
  {
    hide PartOf, Pointed;
    if Resolves(result, value, index) {
      forall values | Descent(values) && values[0] == value
        ensures LeadsSomewhere(result, values[|values| - 1], index)
      {
        ResolvesBelow(result, values, |values| - 1, index);
      }
    } else {
      var values := Dangling(result, value, index);
    }
  }

  // ----- discriminator mappings -----

  predicate IsReferenceText(entry: Value) {
    entry.Str? && '#' in entry.text
  }

  ghost predicate Aliased(env: Env, target: Target)
    requires env.source in env.files
  {
    exists c :: IsAlias(env, c, target)
  }

  /** What becomes of an entry that refers to the target: a local reference to the same place, the spelling of a
      component that stands for it, or what it was. */
  ghost predicate Redirected(env: Env, result: Value, target: Target, entry: Value, shown: Value)
    requires env.source in env.files
  {
    if target.path == env.source then
      shown.Str? && Alone(env, result).locate(shown.text, env.source) == Some(Target(env.source, target.fragment))
    else if Aliased(env, target) then exists c :: IsAlias(env, c, target) && shown == Str(c.Text())
    else shown == entry
  }

  ghost predicate EntryShown(env: Env, result: Value, current: Path, entry: Value, shown: Value)
    requires env.source in env.files
  {
    if IsReferenceText(entry) then
      env.locate(entry.text, current).Some? &&
      Redirected(env, result, env.locate(entry.text, current).value, entry, shown)
    else shown == entry
  }

  ghost predicate CompleteTable(env: Env, aliases: map<Target, Component>)
    requires env.source in env.files
  {
    AliasTable(env, aliases) && forall c, target | IsAlias(env, c, target) :: target in aliases
  }

  /** Every object that the walk meets where a discriminator mapping stands keeps its keys, and each entry that is a
      reference text is redirected: into the bundle if its target lies in the root document, to a component that stands
      for the target if there is one; anything else stands as it was. */
  lemma MappingsRedirected(env: Env, aliases: map<Target, Component>, result: Value, node: Node, walked: Value)
    requires env.source in env.files && CompleteTable(env, aliases)
    requires node.value.Object? && AtMapping(node)
    requires NodeWithin(env, node) && WalkNode(env, aliases, node) == Some(walked)
    ensures walked.Object? && walked.fields.Keys == node.value.fields.Keys
    ensures forall k <- walked.fields ::
      EntryShown(env, result, node.current, node.value.fields[k], walked.fields[k])
  {
    forall k <- walked.fields
      ensures EntryShown(env, result, node.current, node.value.fields[k], walked.fields[k])
    {
      EntryRedirected(env, aliases, result, node.current, node.value.fields[k], walked.fields[k]);
    }
  }

  lemma EntryRedirected(env: Env, aliases: map<Target, Component>, result: Value, current: Path, entry: Value,
                        shown: Value)
    requires env.source in env.files && CompleteTable(env, aliases)
    requires MappingEntry(env, aliases, entry, current) == Some(shown)
    ensures EntryShown(env, result, current, entry, shown)
  {
    if IsReferenceText(entry) {
      var target := env.locate(entry.text, current).value;
      if target in aliases {
        assert IsAlias(env, aliases[target], target);
      }
    }
  }

  /** In the bundle itself, a mapping that the root document reaches through objects stands where it stood,
      redirected. */
  lemma RootMappingsRedirected(env: Env, aliases: map<Target, Component>, result: Value, keys: seq<string>)
    requires Walked(env, aliases, result) && CompleteTable(env, aliases)
    requires ObjectChain(env.files[env.source], keys) && At(env.files[env.source], keys).Object?
    requires EndsWith(Slashed(keys), MAPPING)
    requires forall i | 0 <= i < |keys| :: !EndsWith(Slashed(keys[..i]), MAPPING)
    ensures var was, shown := At(env.files[env.source], keys), Follow(result, keys, env.index);
      shown.Some? && shown.value.Object? && shown.value.fields.Keys == was.fields.Keys &&
      forall k <- was.fields :: EntryShown(env, result, env.source, was.fields[k], shown.value.fields[k])
  {
    hide Walk, EndsWith, EntryShown, CompleteTable, Slashed;
    var root := env.files[env.source];
    forall i | 0 <= i < |keys| ensures !EndsWith(Slashed([] + keys[..i]), MAPPING) {
      assert [] + keys[..i] == keys[..i];
    }
    assert [] + keys == keys;
    KeepsChain(env, aliases, root, env.source, {}, [], keys);
    var node := Node(At(root, keys), env.source, {}, keys);
    MappingsRedirected(env, aliases, result, node, Follow(result, keys, env.index).value);
  }
}
