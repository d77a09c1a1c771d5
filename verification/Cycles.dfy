/** Directed-cycle detection over required relationships, as both the manifest and the
    relational specification run it. */
module Cycles {
  import opened Text

  type Graph = map<Text, set<Text>>

  ghost predicate Edge(g: Graph, a: Text, b: Text) {
    a in g && b in g[a]
  }

  ghost predicate IsPath(g: Graph, path: seq<Text>) {
    path != [] && forall i :: 0 <= i < |path| - 1 ==> Edge(g, path[i], path[i + 1])
  }

  /** Some node reaches itself along one edge or more. */
  ghost predicate HasCycle(g: Graph) {
    exists path :: |path| >= 2 && IsPath(g, path) && path[0] == path[|path| - 1]
  }

  ghost predicate Distinct(s: seq<Text>) {
    forall i, j :: 0 <= i < j < |s| ==> s[i] != s[j]
  }

  /** Every edge out of a listed node leads to a node listed before it. */
  ghost predicate TargetsFirst(g: Graph, order: seq<Text>) {
    Distinct(order)
    && forall i, t :: 0 <= i < |order| && Edge(g, order[i], t) ==> t in order[..i]
  }

  /** An order of all nodes in which every required target comes before its source. */
  ghost predicate Topological(g: Graph, order: seq<Text>) {
    TargetsFirst(g, order) && forall n :: n in g ==> n in order
  }

  lemma {:induction false} PathDescends(g: Graph, order: seq<Text>, path: seq<Text>, i: nat)
    requires TargetsFirst(g, order) && IsPath(g, path) && |path| >= 2
    requires i < |order| && path[0] == order[i]
    ensures path[|path| - 1] in order[..i]
    decreases |path|
  {
    assert Edge(g, path[0], path[1]);
    if |path| > 2 {
      var j :| 0 <= j < i && order[j] == path[1];
      var rest := path[1..];
      forall k | 0 <= k < |rest| - 1 ensures Edge(g, rest[k], rest[k + 1]) {
        assert rest[k] == path[k + 1] && rest[k + 1] == path[k + 1 + 1];
      }
      PathDescends(g, order, rest, j);
      assert order[..j] <= order[..i];
    }
  }

  /** A topological order leaves no room for a cycle. */
  lemma {:induction false} OrderedIsAcyclic(g: Graph, order: seq<Text>)
    requires Topological(g, order)
    ensures !HasCycle(g)
  {
    if HasCycle(g) {
      var path :| |path| >= 2 && IsPath(g, path) && path[0] == path[|path| - 1];
      assert Edge(g, path[0], path[1]);
      var i :| 0 <= i < |order| && order[i] == path[0];
      PathDescends(g, order, path, i);
    }
  }

  /** A node that is already on the stack closes a cycle. */
  lemma {:induction false} StackCycle(g: Graph, stack: seq<Text>, node: Text)
    requires IsPath(g, stack + [node]) && node in stack
    ensures HasCycle(g)
  {
    var k :| 0 <= k < |stack| && stack[k] == node;
    var path := stack + [node];
    var cycle := path[k..];
    forall i | 0 <= i < |cycle| - 1 ensures Edge(g, cycle[i], cycle[i + 1]) {
      assert cycle[i] == path[k + i] && cycle[i + 1] == path[k + i + 1];
    }
    assert |cycle| >= 2 && IsPath(g, cycle) && cycle[0] == cycle[|cycle| - 1];
  }

  lemma {:induction false} ExtendPath(g: Graph, path: seq<Text>, target: Text)
    requires IsPath(g, path) && Edge(g, path[|path| - 1], target)
    ensures IsPath(g, path + [target])
  {
  }

  /** The depth-first search with the two sets its closure updates. The order in which
      targets are tried is left open: it covers both the set iteration of the relational
      check and the sorted iteration of the manifest check. */
  class DepthFirst {
    const graph: Graph
    var active: set<Text>
    var complete: set<Text>
    ghost var order: seq<Text>

    constructor (graph: Graph)
      ensures this.graph == graph && active == {} && complete == {} && order == [] && Valid()
    {
      this.graph := graph;
      active, complete, order := {}, {}, [];
    }

    ghost predicate Valid()
      reads this
    {
      && TargetsFirst(graph, order)
      && (forall n :: n in complete <==> n in order)
      && active !! complete
    }

    function Targets(node: Text): set<Text> {
      if node in graph then graph[node] else {}
    }

    ghost function Universe(): set<Text> {
      graph.Keys + set n, t | n in graph && t in graph[n] :: t
    }

    /** The active nodes are a path that an edge extends to `node`. */
    ghost predicate OnStack(stack: seq<Text>, node: Text)
      reads this
    {
      && IsPath(graph, stack + [node])
      && (forall n :: n in active <==> n in stack)
      && active <= Universe() && node in Universe()
    }

    method Visit(node: Text, ghost stack: seq<Text>) returns (cyclic: bool)
      requires Valid() && OnStack(stack, node)
      modifies this
      ensures cyclic ==> HasCycle(graph)
      ensures !cyclic ==> Valid() && active == old(active) && node in complete && old(complete) <= complete
      decreases |Universe() - active|
    {
      if node in active {
        StackCycle(graph, stack, node);
        return true;
      }
      if node in complete {
        return false;
      }
      active := active + {node};
      ghost var unvisited := Universe() - old(active);
      assert unvisited - {node} == Universe() - active;
      Shrinks(unvisited, node);
      var todo := Targets(node);
      while todo != {}
        invariant Valid() && active == old(active) + {node} && old(complete) <= complete
        invariant todo <= Targets(node) && Targets(node) - todo <= complete
        decreases |todo|
      {
        var target :| target in todo;
        ExtendPath(graph, stack + [node], target);
        var found := Visit(target, stack + [node]);
        if found {
          return true;
        }
        todo := todo - {target};
      }
      active := active - {node};
      complete := complete + {node};
      FinishNode(graph, order, node);
      order := order + [node];
      return false;
    }

    /** `any(visit(node) for node in graph)`. */
    method Run() returns (cyclic: bool)
      requires active == {} && complete == {} && order == []
      modifies this
      ensures cyclic <==> HasCycle(graph)
      ensures !cyclic ==> exists order :: Topological(graph, order)
    {
      var todo := graph.Keys;
      while todo != {}
        invariant Valid() && active == {} && todo <= graph.Keys && graph.Keys - todo <= complete
        decreases |todo|
      {
        var node :| node in todo;
        var found := Visit(node, []);
        if found {
          return true;
        }
        todo := todo - {node};
      }
      assert Topological(graph, order);
      OrderedIsAcyclic(graph, order);
      return false;
    }
  }

  lemma {:induction false} Shrinks(s: set<Text>, x: Text)
    requires x in s
    ensures |s - {x}| < |s|
  {
  }

  /** A node whose targets are all listed may be listed next. */
  lemma {:induction false} FinishNode(g: Graph, order: seq<Text>, node: Text)
    requires TargetsFirst(g, order) && node !in order
    requires forall t :: Edge(g, node, t) ==> t in order
    ensures TargetsFirst(g, order + [node])
  {
    var all := order + [node];
    forall i, t | 0 <= i < |all| && Edge(g, all[i], t) ensures t in all[..i] {
      assert all[..i] == order[..i];
      if i == |order| {
        assert order[..i] == order;
      }
    }
  }

  // ----- the two callers -----

  /** The relational check, over a graph that has every entity as a key. */
  method RelationalHasCycle(graph: Graph) returns (cyclic: bool)
    requires forall n :: n in graph ==> graph[n] <= graph.Keys
    ensures cyclic <==> HasCycle(graph)
    ensures !cyclic ==> exists order :: Topological(graph, order)
  {
    var search := new DepthFirst(graph);
    cyclic := search.Run();
  }

  function Adjacency(edges: set<(Text, Text)>): Graph {
    map a | a in Sources(edges) :: TargetsOf(edges, a)
  }

  function Sources(edges: set<(Text, Text)>): set<Text> {
    set e | e in edges :: e.0
  }

  function TargetsOf(edges: set<(Text, Text)>, a: Text): set<Text> {
    set e | e in edges && e.0 == a :: e.1
  }

  /** The manifest check, which first groups the edges by source. */
  method ManifestHasCycle(edges: set<(Text, Text)>) returns (cyclic: bool)
    ensures cyclic <==> HasCycle(Adjacency(edges))
  {
    var adjacency: Graph := map[];
    var todo := edges;
    while todo != {}
      invariant todo <= edges
      invariant forall a :: a in adjacency <==> exists e :: e in edges - todo && e.0 == a
      invariant forall a, b :: a in adjacency ==> (b in adjacency[a] <==> (a, b) in edges - todo)
      decreases |todo|
    {
      var edge :| edge in todo;
      var known := if edge.0 in adjacency then adjacency[edge.0] else {};
      adjacency := adjacency[edge.0 := known + {edge.1}];
      todo := todo - {edge};
    }
    assert edges - todo == edges;
    SameAdjacency(edges, adjacency);
    var search := new DepthFirst(adjacency);
    cyclic := search.Run();
  }

  lemma {:induction false} SameAdjacency(edges: set<(Text, Text)>, adjacency: Graph)
    requires forall a :: a in adjacency <==> exists e :: e in edges && e.0 == a
    requires forall a, b :: a in adjacency ==> (b in adjacency[a] <==> (a, b) in edges)
    ensures adjacency == Adjacency(edges)
  {
    var expected := Adjacency(edges);
    assert adjacency.Keys == expected.Keys;
    forall a | a in adjacency ensures adjacency[a] == expected[a] {
      forall b ensures b in adjacency[a] <==> b in expected[a] {
        if (a, b) in edges {
          var e := (a, b);
          assert e in edges && e.0 == a && e.1 == b;
        }
      }
    }
  }

  lemma {:induction false} SamePaths(g: Graph, h: Graph)
    requires forall a, b :: Edge(g, a, b) ==> Edge(h, a, b)
    ensures HasCycle(g) ==> HasCycle(h)
  {
    if HasCycle(g) {
      var path :| |path| >= 2 && IsPath(g, path) && path[0] == path[|path| - 1];
      assert IsPath(h, path);
    }
  }

  /** The two checks agree whenever they look at the same edges, whatever keys the
      relational graph adds for entities without required relationships. */
  lemma {:induction false} ChecksAgree(edges: set<(Text, Text)>, graph: Graph)
    requires forall a, b :: Edge(graph, a, b) <==> (a, b) in edges
    ensures HasCycle(graph) <==> HasCycle(Adjacency(edges))
  {
    var grouped := Adjacency(edges);
    forall a, b ensures Edge(grouped, a, b) <==> (a, b) in edges {
      if (a, b) in edges {
        var e := (a, b);
        assert e in edges && e.0 == a && e.1 == b;
      }
    }
    SamePaths(graph, grouped);
    SamePaths(grouped, graph);
  }
}
