/** The import graph of the Python package and the search for a cycle in it
    (python/scripts/check_import_boundaries.py). */
module ImportCycles {
  type Graph = map<string, set<string>>

  /** One relative import: its resolved target module and the names taken from it. */
  datatype Import = Import(target: string, names: seq<string>)

  // ----- the graph -----

  predicate Names(statement: Import, child: string) {
    child == statement.target || exists name <- statement.names :: child == statement.target + "." + name
  }

  /** Some statement of the owner names the child, and the child is one of the modules. */
  predicate Imports(imports: map<string, seq<Import>>, owner: string, child: string) {
    owner in imports && child in imports && NamedIn(imports[owner], child)
  }

  ghost predicate Closed(graph: Graph) {
    forall node <- graph, child <- graph[node] :: child in graph
  }

  predicate NamedIn(statements: seq<Import>, child: string) {
    exists statement <- statements :: Names(statement, child)
  }

  lemma NamedStep(statements: seq<Import>, i: nat, child: string)
    requires i < |statements|
    ensures NamedIn(statements[..i + 1], child) <==> NamedIn(statements[..i], child) || Names(statements[i], child)
  {
    hide Names;
    assert statements[..i + 1] == statements[..i] + [statements[i]];
  }

  /** The modules that one statement names. */
  method Named(modules: set<string>, statement: Import) returns (children: set<string>)
    ensures forall child :: child in children <==> child in modules && Names(statement, child)
  {
    children := if statement.target in modules then {statement.target} else {};
    for j := 0 to |statement.names|
      invariant forall child :: child in children <==>
        child in modules && Names(Import(statement.target, statement.names[..j]), child)
    {
      assert statement.names[..j + 1] == statement.names[..j] + [statement.names[j]];
      var child := statement.target + "." + statement.names[j];
      if child in modules {
        children := children + {child};
      }
    }
    assert statement.names[..|statement.names|] == statement.names;
  }

  method Children(imports: map<string, seq<Import>>, owner: string) returns (children: set<string>)
    requires owner in imports
    ensures forall child :: child in children <==> Imports(imports, owner, child)
  {
    hide NamedIn, Names;
    children := {};
    var statements := imports[owner];
    NothingNamed(statements);
    for i := 0 to |statements|
      invariant forall child :: child in children <==> child in imports && NamedIn(statements[..i], child)
    {
      var more := Named(imports.Keys, statements[i]);
      forall child ensures child in children + more <==> child in imports && NamedIn(statements[..i + 1], child) {
        NamedStep(statements, i, child);
      }
      children := children + more;
    }
    assert statements[..|statements|] == statements;
  }

  lemma NothingNamed(statements: seq<Import>)
    ensures forall child :: !NamedIn(statements[..0], child)
  {
  }

  /** The edges are exactly the imports between modules, so that every child is a node. */
  method Dependencies(imports: map<string, seq<Import>>) returns (graph: Graph)
    ensures graph.Keys == imports.Keys && Closed(graph)
    ensures forall owner <- graph, child :: child in graph[owner] <==> Imports(imports, owner, child)
  {
    hide Imports;
    graph := map[];
    var owners := imports.Keys;
    while owners != {}
      invariant graph.Keys + owners == imports.Keys && graph.Keys !! owners
      invariant forall owner <- graph, child :: child in graph[owner] <==> Imports(imports, owner, child)
    {
      var owner :| owner in owners;
      var children := Children(imports, owner);
      graph := graph[owner := children];
      owners := owners - {owner};
    }
    forall node <- graph, child <- graph[node] ensures child in graph {
      ImportsKnown(imports, node, child);
    }
  }

  lemma ImportsKnown(imports: map<string, seq<Import>>, owner: string, child: string)
    requires Imports(imports, owner, child)
    ensures child in imports
  {
  }

  // ----- walks -----

  ghost predicate Walk(graph: Graph, nodes: seq<string>) {
    && (forall i | 0 <= i < |nodes| :: nodes[i] in graph)
    && (forall i | 0 <= i < |nodes| - 1 :: nodes[i + 1] in graph[nodes[i]])
  }

  /** A walk along at least one edge that returns to where it began. */
  ghost predicate Cycle(graph: Graph, nodes: seq<string>) {
    |nodes| >= 2 && nodes[0] == nodes[|nodes| - 1] && Walk(graph, nodes)
  }

  ghost predicate Acyclic(graph: Graph) {
    forall nodes :: !Cycle(graph, nodes)
  }

  /** Every node is listed once, after all its children. */
  ghost predicate PostOrder(graph: Graph, order: seq<string>) {
    && (forall i | 0 <= i < |order| :: order[i] in graph)
    && (forall i | 0 <= i < |order| :: ChildrenBefore(graph, order, i))
    && (forall i, j | 0 <= i < j < |order| :: order[i] != order[j])
  }

  ghost predicate ChildrenBefore(graph: Graph, order: seq<string>, i: nat)
    requires i < |order|
  {
    order[i] in graph && forall child <- graph[order[i]] :: child in order[..i]
  }

  /** A walk that starts in the order goes strictly down in it. */
  lemma {:induction false} WalksDescend(graph: Graph, order: seq<string>, nodes: seq<string>, start: nat, end: nat)
    requires PostOrder(graph, order) && Walk(graph, nodes) && start < end < |nodes| && nodes[start] in order
    ensures exists i, j :: 0 <= j < i < |order| && order[i] == nodes[start] && order[j] == nodes[end]
    decreases end
  {
    var i :| 0 <= i < |order| && order[i] == nodes[start];
    assert ChildrenBefore(graph, order, i);
    if start + 1 == end {
      assert nodes[start + 1] in order[..i];
      var j :| 0 <= j < i && order[j] == nodes[end];
    } else {
      WalksDescend(graph, order, nodes, start, end - 1);
      var i', j' :| 0 <= j' < i' < |order| && order[i'] == nodes[start] && order[j'] == nodes[end - 1];
      assert ChildrenBefore(graph, order, j');
      assert nodes[end - 1 + 1] in order[..j'];
      var j :| 0 <= j < j' && order[j] == nodes[end];
    }
  }

  lemma OrderedIsAcyclic(graph: Graph, order: seq<string>)
    requires PostOrder(graph, order) && forall node <- graph :: node in order
    ensures Acyclic(graph)
  {
    forall nodes ensures !Cycle(graph, nodes) {
      if Cycle(graph, nodes) {
        WalksDescend(graph, order, nodes, 0, |nodes| - 1);
        assert false;
      }
    }
  }

  ghost predicate Distinct(nodes: seq<string>) {
    forall i, j | 0 <= i < j < |nodes| :: nodes[i] != nodes[j]
  }

  function IndexOf(nodes: seq<string>, node: string): (i: nat)
    requires node in nodes
    ensures i < |nodes| && nodes[i] == node && node !in nodes[..i]
  {
    if nodes[0] == node then 0 else 1 + IndexOf(nodes[1..], node)
  }

  function Elements(nodes: seq<string>): set<string> {
    set n | n in nodes
  }

  // ----- the search -----

  class Search {
    const graph: Graph
    var active: seq<string>
    var complete: set<string>
    ghost var order: seq<string>

    constructor (graph: Graph)
      requires Closed(graph)
      ensures Valid() && active == [] && complete == {} && this.graph == graph
    {
      this.graph, active, complete, order := graph, [], {}, [];
    }

    /** The active nodes are a walk without repetition; the complete ones come in post order. */
    ghost predicate Valid()
      reads this
    {
      && Closed(graph) && Walk(graph, active) && PostOrder(graph, order)
      && Distinct(active)
      && (forall node :: node in complete <==> node in order)
      && (forall node <- active :: node !in complete)
    }

    predicate Extends(node: string)
      reads this
    {
      node in graph && (active != [] ==> active[|active| - 1] in graph && node in graph[active[|active| - 1]])
    }

    /** Returns a cycle, or leaves the node complete and the active walk as it was. */
    method Visit(node: string) returns (cycle: seq<string>)
      requires Valid() && Extends(node)
      modifies this
      ensures cycle != [] ==> Cycle(graph, cycle)
      ensures cycle == [] ==> Valid() && active == old(active) && node in complete && old(complete) <= complete
      decreases graph.Keys - Elements(active)
    {
      hide Walk, PostOrder, Cycle, Distinct, Elements;
      if node in active {
        var i := IndexOf(active, node);
        cycle := active[i..] + [node];
        CloseWalk(graph, active, i, node);
        return;
      }
      if node in complete {
        return [];
      }
      ExtendWalk(graph, active, node);
      active := active + [node];
      var children := graph[node];
      while children != {}
        invariant Valid() && active == old(active) + [node] && old(complete) <= complete
        invariant children <= graph[node] && forall child <- graph[node] :: child in children || child in complete
      {
        var child :| child in children;
        cycle := Visit(child);
        if cycle != [] {
          return;
        }
        children := children - {child};
      }
      active := active[..|active| - 1];
      AppendOrder(graph, order, node);
      complete := complete + {node};
      order := order + [node];
      return [];
    }

    /** A cycle of the graph, or the empty list exactly when there is none. */
    method FindCycle() returns (cycle: seq<string>)
      requires Valid() && active == []
      modifies this
      ensures cycle == [] <==> Acyclic(graph)
      ensures cycle != [] ==> Cycle(graph, cycle)
    {
      var nodes := graph.Keys;
      while nodes != {}
        invariant Valid() && active == [] && nodes <= graph.Keys
        invariant forall node <- graph :: node in nodes || node in complete
      {
        var node :| node in nodes;
        cycle := Visit(node);
        if cycle != [] {
          return;
        }
        nodes := nodes - {node};
      }
      OrderedIsAcyclic(graph, order);
      return [];
    }
  }

  lemma ExtendWalk(graph: Graph, nodes: seq<string>, node: string)
    requires Walk(graph, nodes) && node in graph && (nodes != [] ==> node in graph[nodes[|nodes| - 1]])
    requires Distinct(nodes) && node !in nodes
    ensures Walk(graph, nodes + [node]) && Distinct(nodes + [node])
    ensures Elements(nodes + [node]) == Elements(nodes) + {node} && node !in Elements(nodes)
    ensures (nodes + [node])[..|nodes|] == nodes
  {
  }

  lemma CloseWalk(graph: Graph, nodes: seq<string>, i: nat, node: string)
    requires Walk(graph, nodes) && i < |nodes| && nodes[i] == node && node in graph[nodes[|nodes| - 1]]
    ensures Cycle(graph, nodes[i..] + [node])
  {
    var cycle := nodes[i..] + [node];
    forall k | 0 <= k < |cycle| - 1 ensures cycle[k + 1] in graph[cycle[k]] {
      if k < |cycle| - 2 {
        assert nodes[i + k + 1] in graph[nodes[i + k]];
      }
    }
  }

  lemma AppendOrder(graph: Graph, order: seq<string>, node: string)
    requires PostOrder(graph, order) && node in graph && node !in order
    requires forall child <- graph[node] :: child in order
    ensures PostOrder(graph, order + [node])
  {
    var more := order + [node];
    assert more[..|order|] == order;
    forall k | 0 <= k < |more| ensures ChildrenBefore(graph, more, k) {
      if k < |order| {
        assert ChildrenBefore(graph, order, k) && more[..k] == order[..k];
      }
    }
  }
}
