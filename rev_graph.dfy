/**
 * The reverse graph of `build_dom_tree` in src/analyze/dom_tree.py,
 * lines 20-25: for every edge `u -> v`, `u` is appended to the list of `v`.
 */
module RevGraph {
  import opened DomGraph
  import BbUtils

  /** `revgraph[v]` when `v in revgraph`, else no predecessors. */
  function Preds(rev: map<int, seq<int>>, v: int): seq<int> {
    if v in rev then rev[v] else []
  }

  /** `revgraph` lists every edge `u -> v` as `u` in the list of `v`, as often as `graph` does. */
  ghost predicate Reverses(g: Graph, rev: map<int, seq<int>>) {
    forall n {:trigger RevKey(n)} :: RevKey(n) ==> RevInv(g, rev)
  }

  /**
   * A trigger guard that holds for every `n` and means nothing in the model:
   * the invariant it guards is opened only where a proof asserts `RevKey(0)`
   * (see `DomGraph.Unseal`).
   */
  predicate RevKey(n: nat) { n >= 0 }

  ghost predicate RevInv(g: Graph, rev: map<int, seq<int>>) {
    && (forall u, v :: multiset(Preds(rev, v))[u] == multiset(Succ(g, u))[v])
    && (forall v :: v in rev ==> |rev[v]| > 0)
  }

  /** The predecessors listed are exactly the graph's edges into a node. */
  lemma ReversedEdges(g: Graph, rev: map<int, seq<int>>, u: int, v: int)
    requires Reverses(g, rev)
    ensures u in Preds(rev, v) <==> Edge(g, u, v)
  {
    assert RevKey(0);
    assert multiset(Preds(rev, v))[u] == multiset(Succ(g, u))[v];
  }

  /** The reverse graph, lines 21-25. The keys of `graph` are taken in any order. */
  method BuildRev(graph: Graph) returns (revgraph: map<int, seq<int>>)
    ensures Reverses(graph, revgraph)
  {
    revgraph := map[];
    var left := graph.Keys;
    while left != {}
      invariant left <= graph.Keys
      invariant SoFar(graph, revgraph, left)
      invariant forall v :: v in revgraph ==> |revgraph[v]| > 0
      decreases |left|
    {
      var u := BbUtils.PickKey(left);
      ghost var before := revgraph;
      revgraph := AddEdges(revgraph, u, graph[u]);
      SoFarStep(graph, before, revgraph, left, u);
      left := left - {u};
    }
    SoFarDone(graph, revgraph);
  }

  /** The lists hold the edges out of the keys of `graph` already visited, those not in `left`. */
  ghost predicate SoFar(graph: Graph, rev: map<int, seq<int>>, left: set<int>) {
    forall w, v {:trigger multiset(Preds(rev, v))[w]} ::
      multiset(Preds(rev, v))[w] == if w in graph && w !in left then multiset(graph[w])[v] else 0
  }

  lemma SoFarStep(graph: Graph, rev: map<int, seq<int>>, rev1: map<int, seq<int>>, left: set<int>, u: int)
    requires SoFar(graph, rev, left) && u in left && u in graph && Added(rev, rev1, u, graph[u])
    ensures SoFar(graph, rev1, left - {u})
  {
    assert RevKey(0);
    forall w, v ensures multiset(Preds(rev1, v))[w] ==
                        if w in graph && w !in left - {u} then multiset(graph[w])[v] else 0 {
      assert multiset(Preds(rev1, v))[w] ==
             multiset(Preds(rev, v))[w] + if w == u then multiset(graph[u])[v] else 0;
    }
  }

  lemma SoFarDone(graph: Graph, rev: map<int, seq<int>>)
    requires SoFar(graph, rev, {}) && forall v :: v in rev ==> |rev[v]| > 0
    ensures Reverses(graph, rev)
  {
    forall u, v ensures multiset(Preds(rev, v))[u] == multiset(Succ(graph, u))[v] {
      assert multiset(Preds(rev, v))[u] == if u in graph then multiset(graph[u])[v] else 0;
    }
    assert RevInv(graph, rev);
  }

  /** `rev1` is `rev` with `u` added to the list of every node of `part`, as often as it occurs there. */
  ghost predicate Added(rev: map<int, seq<int>>, rev1: map<int, seq<int>>, u: int, part: seq<int>) {
    forall n {:trigger RevKey(n)} :: RevKey(n) ==> AddedInv(rev, rev1, u, part)
  }

  ghost predicate AddedInv(rev: map<int, seq<int>>, rev1: map<int, seq<int>>, u: int, part: seq<int>) {
    forall w, v {:trigger multiset(Preds(rev1, v))[w]} :: multiset(Preds(rev1, v))[w] == multiset(Preds(rev, v))[w] + if w == u then multiset(part)[v] else 0
  }

  /** Appending `u` to the list of `v` extends `Added` by one successor. */
  lemma AddedStep(rev: map<int, seq<int>>, mid: map<int, seq<int>>, rev1: map<int, seq<int>>, u: int, part: seq<int>, v: int)
    requires Added(rev, mid, u, part)
    requires rev1 == mid[v := Preds(mid, v) + [u]]
    ensures Added(rev, rev1, u, part + [v])
  {
    assert RevKey(0);
    forall w, x ensures multiset(Preds(rev1, x))[w] ==
                        multiset(Preds(rev, x))[w] + if w == u then multiset(part + [v])[x] else 0 {
      AddedAt(rev, mid, rev1, u, part, v, w, x);
    }
    assert AddedInv(rev, rev1, u, part + [v]);
  }

  /** `AddedStep` at one predecessor `w` of one node `x`. */
  lemma AddedAt(rev: map<int, seq<int>>, mid: map<int, seq<int>>, rev1: map<int, seq<int>>, u: int, part: seq<int>, v: int, w: int, x: int)
    requires multiset(Preds(mid, x))[w] == multiset(Preds(rev, x))[w] + if w == u then multiset(part)[x] else 0
    requires rev1 == mid[v := Preds(mid, v) + [u]]
    ensures multiset(Preds(rev1, x))[w] == multiset(Preds(rev, x))[w] + if w == u then multiset(part + [v])[x] else 0
  {
    assert multiset(part + [v]) == multiset(part) + multiset{v};
    if x == v {
      assert Preds(rev1, x) == Preds(mid, x) + [u];
    } else {
      assert Preds(rev1, x) == Preds(mid, x);
    }
  }

  /** The inner loop of lines 22-25: `u` is appended to the list of each of its successors. */
  method AddEdges(rev: map<int, seq<int>>, u: int, succs: seq<int>) returns (rev1: map<int, seq<int>>)
    requires forall v :: v in rev ==> |rev[v]| > 0
    ensures Added(rev, rev1, u, succs)
    ensures forall v :: v in rev1 ==> |rev1[v]| > 0
  {
    rev1 := rev;
    var j := 0;
    while j < |succs|
      invariant 0 <= j <= |succs|
      invariant Added(rev, rev1, u, succs[..j])
      invariant forall v :: v in rev1 ==> |rev1[v]| > 0
    {
      rev1 := AddEdge(rev, rev1, u, succs[..j], succs[j]);
      assert succs[..j + 1] == succs[..j] + [succs[j]];
      j := j + 1;
    }
    assert succs[..j] == succs;
  }

  /** One round of that loop: `revgraph[v].append(u)`, creating the list when it is missing. */
  method AddEdge(ghost rev: map<int, seq<int>>, mid: map<int, seq<int>>, u: int, ghost part: seq<int>, v: int)
    returns (rev1: map<int, seq<int>>)
    requires Added(rev, mid, u, part)
    requires forall w :: w in mid ==> |mid[w]| > 0
    ensures Added(rev, rev1, u, part + [v])
    ensures forall w :: w in rev1 ==> |rev1[w]| > 0
  {
    var preds := if v in mid then mid[v] else [];
    rev1 := mid[v := preds + [u]];
    AddedStep(rev, mid, rev1, u, part, v);
  }
}
