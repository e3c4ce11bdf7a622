/**
 * `build_dom_tree` of src/analyze/dom_tree.py: the Lengauer-Tarjan
 * semidominator algorithm. The numbering the recursive `dfs` builds is the
 * state of a `DepthFirst` object; the dicts of the later passes are passed
 * to, and returned by, the methods that stand for the nested functions.
 */
module DomTree {
  import opened DomGraph
  import opened DfsFacts
  import opened Semidom
  import opened IdomTree
  import opened RevGraph
  import opened Dominance

  /** `build_dom_tree(graph, start)`: the dominator tree of the nodes reachable from `start`. */
  method BuildDomTree(graph: Graph, start: int) returns (tree: Tree, ghost t: Numbering, ghost idom: map<int, int>)
    ensures Done(t) && t.g == graph && t.start == start
    ensures tree.node == start
    ensures forall x :: Count(tree, x) == if Reachable(graph, start, x) then 1 else 0
    ensures Proper(t, idom) && Parented(tree, start, idom)
    ensures forall x :: Reachable(graph, start, x) && x != start ==> x in idom && IsIdom(graph, start, idom[x], x)
  {
    var search := new DepthFirst(graph, start);
    DfsStart(graph, start);
    search.Dfs(start, []);
    t := Numbering(graph, start, search.dfn, search.dfnrev, search.up, search.fin);
    var dfn, dfnrev, up := search.dfn, search.dfnrev, search.up;
    var revgraph := BuildRev(graph);
    var sdom, idom0 := Semidominators(t, dfn, dfnrev, up, revgraph);
    SealComputed(t, sdom, idom0);
    var idom1 := FixIdom(t, dfn, dfnrev, sdom, idom0);
    DfnrevDistinct(t);
    var idomrev := BuildIdomRev(dfnrev, idom1);
    StartZero(t);
    tree := BuildTree(t, idom1, idomrev, start, start);
    idom := idom1;
    forall x ensures Count(tree, x) == if Reachable(graph, start, x) then 1 else 0 {
      NumberedIffReachable(t, x);
      if x in t.dfn {
        UnderStart(t, idom, x);
      }
    }
    forall x | Reachable(graph, start, x) && x != start ensures x in idom && IsIdom(graph, start, idom[x], x) {
      NumberedIffReachable(t, x);
    }
  }

  /** The state `dfs` builds: the numbering, its inverse and the tree parents. */
  class DepthFirst {
    const graph: Graph
    const start: int
    var dfn: map<int, nat>
    /** `dfnrev`, a dict whose keys are exactly 0 .. len(dfn) - 1, as a sequence. */
    var dfnrev: seq<int>
    var up: map<int, int>
    ghost var fin: map<int, nat>

    /** Lines 6-10. */
    constructor(graph: Graph, start: int)
      ensures this.graph == graph && this.start == start
      ensures dfn == map[] && dfnrev == [] && up == map[start := start] && fin == map[]
    {
      this.graph := graph;
      this.start := start;
      dfn := map[];
      dfnrev := [];
      up := map[start := start];
      fin := map[];
    }

    ghost predicate Dfsing(active: seq<int>)
      reads this
    {
      DfsState(graph, start, dfn, dfnrev, up, fin, active)
    }

    /** `dfs(u)`: numbers `u`, then visits its unnumbered successors in order. */
    method Dfs(u: int, ghost active: seq<int>)
      requires Dfsing(active)
      requires u !in dfn && u in Nodes(graph) + {start}
      requires active == [] <==> dfn == map[]
      requires active == [] ==> u == start
      requires active != [] ==> u in up && up[u] == active[|active| - 1] && Edge(graph, up[u], u)
      modifies this
      ensures Dfsing(active)
      ensures u in dfn && old(dfn).Keys <= dfn.Keys
      decreases |Nodes(graph) + {start} - dfn.Keys|, 0
    {
      Number(u, active);
      VisitSuccs(u, active + [u]);
      Finish(u, active);
    }

    /** The first lines of `dfs(u)`: `u` takes the next number. */
    method Number(u: int, ghost active: seq<int>)
      requires Dfsing(active)
      requires u !in dfn && u in Nodes(graph) + {start}
      requires active == [] <==> dfn == map[]
      requires active == [] ==> u == start
      requires active != [] ==> u in up && up[u] == active[|active| - 1] && Edge(graph, up[u], u)
      modifies this
      ensures Dfsing(active + [u])
      ensures dfn.Keys == old(dfn).Keys + {u}
      ensures |Nodes(graph) + {start} - dfn.Keys| < |Nodes(graph) + {start} - old(dfn).Keys|
    {
      FewerLeft(Nodes(graph) + {start}, dfn.Keys, u);
      ghost var dfn0, dfnrev0 := dfn, dfnrev;
      dfn := dfn[u := |dfn|];
      dfnrev := dfnrev + [u];
      SealedNumberStep(graph, start, dfn0, dfnrev0, up, fin, active, u, dfn, dfnrev);
    }

    /** The return from `dfs(u)`: its subtree is complete. */
    ghost method Finish(u: int, active: seq<int>)
      requires Dfsing(active + [u])
      requires forall y :: y in Succ(graph, u) ==> y in dfn
      modifies this
      ensures Dfsing(active)
      ensures dfn == old(dfn)
    {
      ghost var fin0 := fin;
      fin := fin[u := |dfn|];
      SealedFinishStep(graph, start, dfn, dfnrev, up, fin0, active, u, fin);
    }

    /** The loop of `dfs(u)` over the successors of `u`, the top of the stack `me`. */
    method VisitSuccs(u: int, ghost me: seq<int>)
      requires Dfsing(me) && me != [] && me[|me| - 1] == u && u in dfn
      modifies this
      ensures Dfsing(me)
      ensures forall y :: y in Succ(graph, u) ==> y in dfn
      ensures old(dfn).Keys <= dfn.Keys
      decreases |Nodes(graph) + {start} - dfn.Keys|, 1
    {
      var succs := if u in graph then graph[u] else [];
      var i := 0;
      while i < |succs|
        invariant 0 <= i <= |succs|
        invariant Dfsing(me) && u in dfn
        invariant forall j :: 0 <= j < i ==> succs[j] in dfn
        invariant old(dfn).Keys <= dfn.Keys
      {
        var v := succs[i];
        if v !in dfn {
          ghost var up0 := up;
          up := up[v := u];
          SealedParentStep(graph, start, dfn, dfnrev, up0, fin, me, v, u, up);
          ghost var before := dfn;
          SubsetCard(Nodes(graph) + {start} - dfn.Keys, Nodes(graph) + {start} - old(dfn).Keys);
          Dfs(v, me);
          assert forall j :: 0 <= j < i ==> succs[j] in before;
        }
        i := i + 1;
      }
    }
  }

  /*
   * The passes of lines 27-88 read the numbering `dfs` left in `dfn`,
   * `dfnrev` and `up` (ghost `t` is that numbering with its finishing
   * times) and change the dicts `fa`, `sdom`, `idom`, `minn` and
   * `aux_graph`. Each nested function below takes the dicts it changes and
   * returns their new values.
   */

  /** `dfn`, `dfnrev` and `up` are those of the completed search `t`. */
  ghost predicate Searched(t: Numbering, dfn: map<int, nat>, dfnrev: seq<int>, up: map<int, int>) {
    Done(t) && t.dfn == dfn && t.dfnrev == dfnrev && t.up == up
  }

  /** Lines 27-37: every link, label, semidominator and `idom` starts as the node itself. */
  method Init(ghost t: Numbering, dfnrev: seq<int>)
    returns (fa: map<int, int>, sdom: map<int, int>, idom: map<int, int>, minn: map<int, int>)
    requires Done(t) && t.dfnrev == dfnrev
    ensures SForest(t, |dfnrev|, fa, minn) && SSemi(t, |dfnrev|, sdom)
    ensures SBuckets(t, |dfnrev|, |dfnrev|, sdom, idom, map[])
    ensures SLabels(t, |dfnrev|, fa, minn, sdom) && SLeast(t, |dfnrev|, sdom) && SIdoms(t, |dfnrev|, sdom, idom)
  {
    fa, sdom, idom, minn := map[], map[], map[], map[];
    var i := 0;
    while i < |dfnrev|
      invariant 0 <= i <= |dfnrev|
      invariant sdom == fa && idom == fa && minn == fa
      invariant forall x :: x in fa <==> x in dfnrev[..i]
      invariant forall x :: x in fa ==> fa[x] == x
    {
      var u := dfnrev[i];
      assert dfnrev[..i + 1] == dfnrev[..i] + [u];
      fa := fa[u := u];
      sdom := sdom[u := u];
      idom := idom[u := u];
      minn := minn[u := u];
      i := i + 1;
    }
    assert dfnrev[..i] == dfnrev;
    DfnrevDistinct(t);
    SealedInit(t, fa, minn, sdom, idom);
    MeaningInit(t, fa, minn, sdom, idom);
  }

  /**
   * `find(x)`, lines 38-45: the root of `x`'s tree in the forest, with path
   * compression; `minn[x]` becomes the label of least semidominator on the
   * compressed path. Nodes numbered after `x` keep their link and label.
   */
  method Find(ghost t: Numbering, dfn: map<int, nat>, sdom: map<int, int>, fa: map<int, int>, minn: map<int, int>,
              x: int, ghost k: nat)
    returns (fa1: map<int, int>, minn1: map<int, int>, r: int)
    requires Done(t) && t.dfn == dfn && x in dfn && SForest(t, k, fa, minn) && SSemi(t, k, sdom)
    requires SLabels(t, k, fa, minn, sdom)
    ensures SForest(t, k, fa1, minn1) && SLabels(t, k, fa1, minn1, sdom)
    ensures x in minn1 && LabelMin(t, sdom, r, minn1[x], x)
    ensures Anc(t, r, x) && dfn[r] < k && Between(t, k, r, x)
    ensures x in minn1 && Anc(t, minn1[x], x) && Anc(t, r, minn1[x])
    ensures forall z :: z in dfn && dfn[z] > dfn[x] && z in fa ==> z in fa1 && fa1[z] == fa[z]
    ensures forall z :: z in dfn && dfn[z] > dfn[x] && z in minn ==> z in minn1 && minn1[z] == minn[z]
    decreases dfn[x]
  {
    FindCase(t, k, fa, minn, x);
    if fa[x] == x {
      AncRefl(t, x);
      BetweenSelf(t, k, x);
      SemiAt(t, k, sdom, x);
      LabelRoot(t, sdom, x);
      return fa, minn, x;
    }
    var y := fa[x];
    var root;
    fa1, minn1, root := Find(t, dfn, sdom, fa, minn, y, k);
    FindCase(t, k, fa1, minn1, x);
    SemiAt(t, k, sdom, minn1[x]);
    SemiAt(t, k, sdom, minn1[y]);
    ghost var fa0, minn0 := fa1, minn1;
    fa1 := fa1[x := root];
    if dfn[sdom[minn1[y]]] < dfn[sdom[minn1[x]]] {
      minn1 := minn1[x := minn1[y]];
    }
    SealedCompress(t, k, fa0, minn0, x, root, minn1[x], fa1, minn1);
    SealedLabelsCompress(t, k, fa0, minn0, sdom, x, y, root, minn1[x], fa1, minn1);
    r := fa1[x];
  }

  /**
   * Lines 48-56: the semidominator number of `u`, the least number of a
   * numbered predecessor before `u` or of the label's semidominator of one
   * after it.
   */
  method SemiOf(ghost t: Numbering, dfn: map<int, nat>, dfnrev: seq<int>, up: map<int, int>,
                revgraph: map<int, seq<int>>, sdom: map<int, int>, fa: map<int, int>, minn: map<int, int>,
                u: int, ghost i: nat)
    returns (fa1: map<int, int>, minn1: map<int, int>, sd: nat)
    requires Searched(t, dfn, dfnrev, up) && Reverses(t.g, revgraph)
    requires u in dfn && dfn[u] == i && i < |dfnrev| && u != t.start
    requires SForest(t, i + 1, fa, minn) && SSemi(t, i + 1, sdom)
    requires SLabels(t, i + 1, fa, minn, sdom) && SLeast(t, i + 1, sdom)
    ensures SForest(t, i + 1, fa1, minn1) && SLabels(t, i + 1, fa1, minn1, sdom)
    ensures sd < dfn[u] && SdomPath(t, dfnrev[sd], u)
    ensures forall w :: w in dfn && SdomPath(t, w, u) ==> sd <= dfn[w]
  {
    AncParent(t, u);
    ReversedEdges(t.g, revgraph, up[u], u);
    var preds := revgraph[u];
    fa1, minn1, sd := fa, minn, dfn[u];
    SdomPathSelf(t, u);
    DfnRev(t, u);
    var j := 0;
    while j < |preds|
      invariant 0 <= j <= |preds|
      invariant SForest(t, i + 1, fa1, minn1) && SLabels(t, i + 1, fa1, minn1, sdom)
      invariant sd <= dfn[u] && SdomPath(t, dfnrev[sd], u)
      invariant up[u] in preds[..j] ==> sd < dfn[u]
      invariant forall v :: v in preds[..j] && v in dfn ==> CoveredBy(t, sdom, sd, u, v)
    {
      fa1, minn1, sd := RelaxAt(t, dfn, dfnrev, up, revgraph, sdom, fa1, minn1, u, i, sd, j);
      j := j + 1;
    }
    assert preds[..j] == preds;
    forall v | Edge(t.g, v, u) && v in dfn ensures v in preds {
      ReversedEdges(t.g, revgraph, v, u);
    }
    LeastCandidate(t, i, sdom, preds, u, sd);
  }

  /** The round of the loop of lines 49-56 for the predecessor at position `j`; unnumbered ones are passed over. */
  method RelaxAt(ghost t: Numbering, dfn: map<int, nat>, dfnrev: seq<int>, up: map<int, int>,
                 revgraph: map<int, seq<int>>, sdom: map<int, int>, fa: map<int, int>, minn: map<int, int>,
                 u: int, ghost i: nat, sd: nat, j: nat)
    returns (fa1: map<int, int>, minn1: map<int, int>, sd1: nat)
    requires Searched(t, dfn, dfnrev, up) && Reverses(t.g, revgraph)
    requires u in dfn && dfn[u] == i && i < |dfnrev| && u != t.start && u in up
    requires u in revgraph && j < |revgraph[u]|
    requires SForest(t, i + 1, fa, minn) && SSemi(t, i + 1, sdom)
    requires SLabels(t, i + 1, fa, minn, sdom)
    requires sd <= dfn[u] && SdomPath(t, dfnrev[sd], u)
    requires up[u] in revgraph[u][..j] ==> sd < dfn[u]
    requires forall v :: v in revgraph[u][..j] && v in dfn ==> CoveredBy(t, sdom, sd, u, v)
    ensures SForest(t, i + 1, fa1, minn1) && SLabels(t, i + 1, fa1, minn1, sdom)
    ensures sd1 <= sd && SdomPath(t, dfnrev[sd1], u)
    ensures up[u] in revgraph[u][..j + 1] ==> sd1 < dfn[u]
    ensures forall v :: v in revgraph[u][..j + 1] && v in dfn ==> CoveredBy(t, sdom, sd1, u, v)
  {
    AncParent(t, u);
    var preds := revgraph[u];
    var v := preds[j];
    fa1, minn1, sd1 := fa, minn, sd;
    if v in dfn {
      ReversedEdges(t.g, revgraph, v, u);
      fa1, minn1, sd1 := Relax(t, dfn, dfnrev, up, sdom, fa, minn, u, v, i, sd);
    }
    assert preds[..j + 1] == preds[..j] + [v];
    forall w | w in preds[..j + 1] && w in dfn && w != v ensures CoveredBy(t, sdom, sd1, u, w) {
      CoveredLower(t, sdom, sd, sd1, u, w);
    }
  }

  /** One round of the loop of lines 49-56, for a numbered predecessor `v` of `u`. */
  method Relax(ghost t: Numbering, dfn: map<int, nat>, dfnrev: seq<int>, up: map<int, int>,
               sdom: map<int, int>, fa: map<int, int>, minn: map<int, int>, u: int, v: int, ghost i: nat, sd: nat)
    returns (fa1: map<int, int>, minn1: map<int, int>, sd1: nat)
    requires Searched(t, dfn, dfnrev, up)
    requires u in dfn && dfn[u] == i && i < |dfnrev| && u != t.start && u in up
    requires Edge(t.g, v, u) && v in dfn
    requires SForest(t, i + 1, fa, minn) && SSemi(t, i + 1, sdom) && SLabels(t, i + 1, fa, minn, sdom)
    requires sd <= dfn[u] && SdomPath(t, dfnrev[sd], u)
    ensures SForest(t, i + 1, fa1, minn1) && SLabels(t, i + 1, fa1, minn1, sdom)
    ensures sd1 <= sd && SdomPath(t, dfnrev[sd1], u)
    ensures v == up[u] ==> sd1 < dfn[u]
    ensures CoveredBy(t, sdom, sd1, u, v)
  {
    AncParent(t, u);
    var root;
    fa1, minn1, root := Find(t, dfn, sdom, fa, minn, v, i + 1);
    if dfn[v] < dfn[u] {
      SdomPathEdge(t, v, u);
      DfnRev(t, v);
      sd1 := if dfn[v] < sd then dfn[v] else sd;
      CoveredBelow(t, sdom, sd1, u, v);
    } else {
      SealedCandidate(t, i + 1, fa1, minn1, sdom, u, v, root);
      var c := dfn[sdom[minn1[v]]];
      sd1 := if c < sd then c else sd;
      CoveredAbove(t, sdom, sd1, u, v, root, minn1[v]);
    }
  }

  /**
   * Lines 62-68: every node waiting in the bucket of `u`'s parent gets its
   * provisional `idom`: the parent when the label's semidominator is the
   * parent, the label otherwise.
   */
  method Flush(ghost t: Numbering, dfn: map<int, nat>, up: map<int, int>, sdom: map<int, int>,
               fa: map<int, int>, minn: map<int, int>, idom: map<int, int>, aux: map<int, seq<int>>,
               u: int, ghost i: nat)
    returns (fa1: map<int, int>, minn1: map<int, int>, idom1: map<int, int>)
    requires Done(t) && t.dfn == dfn && t.up == up
    requires u in dfn && dfn[u] == i && u != t.start && u in up && up[u] in aux
    requires SForest(t, i, fa, minn) && SSemi(t, i, sdom) && SBuckets(t, i + 1, i, sdom, idom, aux)
    requires SLabels(t, i, fa, minn, sdom) && SIdoms(t, i, sdom, idom)
    ensures SForest(t, i, fa1, minn1) && SBuckets(t, i + 1, i, sdom, idom1, aux)
    ensures SLabels(t, i, fa1, minn1, sdom) && SIdoms(t, i, sdom, idom1)
    ensures forall v :: v in aux[up[u]] ==> v in idom1 && Anc(t, idom1[v], v) && idom1[v] != v
  {
    var w := up[u];
    var bucket := aux[w];
    fa1, minn1, idom1 := fa, minn, idom;
    var j := 0;
    while j < |bucket|
      invariant 0 <= j <= |bucket|
      invariant SForest(t, i, fa1, minn1) && SBuckets(t, i + 1, i, sdom, idom1, aux)
      invariant SLabels(t, i, fa1, minn1, sdom) && SIdoms(t, i, sdom, idom1)
      invariant forall l :: 0 <= l < j ==> bucket[l] in idom1 && Anc(t, idom1[bucket[l]], bucket[l]) && idom1[bucket[l]] != bucket[l]
    {
      var v := bucket[j];
      BucketEntry(t, i + 1, i, sdom, idom1, aux, w, v);
      SealedInSubtree(t, i, sdom, idom1, aux, u, v);
      var root;
      fa1, minn1, root := Find(t, dfn, sdom, fa1, minn1, v, i);
      SemiAt(t, i, sdom, minn1[v]);
      RootIsParent(t, i, u, v, root);
      ghost var idom0 := idom1;
      if sdom[minn1[v]] == w {
        AncLess(t, w, u);
        idom1 := idom1[v := w];
      } else {
        idom1 := idom1[v := minn1[v]];
      }
      SealedIdom(t, i + 1, i, sdom, idom0, aux, w, v, idom1[v], idom1);
      AncParent(t, u);
      SealedIdomsFlush(t, i, sdom, idom0, w, v, minn1[v], idom1);
      j := j + 1;
    }
  }

  /** One round of the loop of lines 46-69, for the node numbered `i`. */
  method Step(ghost t: Numbering, dfn: map<int, nat>, dfnrev: seq<int>, up: map<int, int>,
              revgraph: map<int, seq<int>>, fa: map<int, int>, minn: map<int, int>, sdom: map<int, int>,
              idom: map<int, int>, aux: map<int, seq<int>>, i: nat)
    returns (fa1: map<int, int>, minn1: map<int, int>, sdom1: map<int, int>, idom1: map<int, int>,
             aux1: map<int, seq<int>>)
    requires Searched(t, dfn, dfnrev, up) && Reverses(t.g, revgraph) && 1 <= i < |dfnrev|
    requires SForest(t, i + 1, fa, minn) && SSemi(t, i + 1, sdom) && SBuckets(t, i + 1, i + 1, sdom, idom, aux)
    requires SLabels(t, i + 1, fa, minn, sdom) && SLeast(t, i + 1, sdom) && SIdoms(t, i + 1, sdom, idom)
    ensures SForest(t, i, fa1, minn1) && SSemi(t, i, sdom1) && SBuckets(t, i, i, sdom1, idom1, aux1)
    ensures SLabels(t, i, fa1, minn1, sdom1) && SLeast(t, i, sdom1) && SIdoms(t, i, sdom1, idom1)
  {
    var u := dfnrev[i];
    DfnRevIndex(t, i);
    StartZero(t);
    var sd;
    fa1, minn1, sd := SemiOf(t, dfn, dfnrev, up, revgraph, sdom, fa, minn, u, i);
    DfnRevIndex(t, sd);
    sdom1 := sdom[u := dfnrev[sd]];
    SealedSemiSet(t, i, sdom, u, dfnrev[sd], sdom1);
    AncParent(t, u);
    ghost var fa0 := fa1;
    fa1 := fa1[u := up[u]];
    SealedLink(t, i, fa0, minn1, u, fa1);
    SealedMeaningStep(t, i, fa0, minn1, sdom, idom, u, dfnrev[sd], sdom1, fa1);
    var s := sdom1[u];
    aux1 := aux[s := (if s in aux then aux[s] else []) + [u]];
    SealedBucketAdd(t, i, sdom, idom, aux, u, s, sdom1, aux1);
    ghost var aux0 := aux1;
    idom1 := idom;
    if up[u] in aux1 {
      fa1, minn1, idom1 := Flush(t, dfn, up, sdom1, fa1, minn1, idom1, aux1, u, i);
      aux1 := aux1 - {up[u]};
    }
    SealedPop(t, i, sdom1, idom1, aux0, u, aux1);
  }

  /** Lines 27-69: semidominators and provisional immediate dominators. */
  method Semidominators(ghost t: Numbering, dfn: map<int, nat>, dfnrev: seq<int>, up: map<int, int>,
                        revgraph: map<int, seq<int>>)
    returns (sdom: map<int, int>, idom: map<int, int>)
    requires Searched(t, dfn, dfnrev, up) && Reverses(t.g, revgraph)
    ensures Proper(t, idom) && SemiFinal(t, sdom) && Cases(t, sdom, idom)
  {
    var fa, minn;
    fa, sdom, idom, minn := Init(t, dfnrev);
    var aux: map<int, seq<int>> := map[];
    StartZero(t);
    var i := |dfnrev| - 1;
    while i > 0
      invariant 0 <= i < |dfnrev|
      invariant SForest(t, i + 1, fa, minn) && SSemi(t, i + 1, sdom) && SBuckets(t, i + 1, i + 1, sdom, idom, aux)
      invariant SLabels(t, i + 1, fa, minn, sdom) && SLeast(t, i + 1, sdom) && SIdoms(t, i + 1, sdom, idom)
    {
      fa, minn, sdom, idom, aux := Step(t, dfn, dfnrev, up, revgraph, fa, minn, sdom, idom, aux, i);
      i := i - 1;
    }
    SealedDone(t, sdom, idom, aux);
    SealedMeaningDone(t, sdom, idom);
  }

  /** Lines 70-74: in increasing order, a provisional `idom` other than the semidominator is replaced by its own `idom`. */
  method FixIdom(ghost t: Numbering, dfn: map<int, nat>, dfnrev: seq<int>, sdom: map<int, int>, idom0: map<int, int>)
    returns (idom: map<int, int>)
    requires Done(t) && t.dfn == dfn && t.dfnrev == dfnrev
    requires Proper(t, idom0) && Computed(t, sdom, idom0) && forall y :: y in dfn ==> y in sdom
    ensures forall x :: x in idom <==> x in dfn
    ensures forall x :: x in dfn ==> idom[x] == Settled(t, idom0, sdom, x)
    ensures Proper(t, idom) && idom[t.start] == t.start
    ensures forall x :: x in dfn && x != t.start ==> IsIdom(t.g, t.start, idom[x], x)
  {
    StartZero(t);
    DfnRev(t, t.start);
    DfnrevDistinct(t);
    idom := idom0[dfnrev[0] := dfnrev[0]];
    var i := 1;
    while i < |dfnrev|
      invariant 1 <= i <= |dfnrev|
      invariant forall x :: x in idom <==> x in dfn
      invariant forall j :: 0 <= j < i ==> idom[dfnrev[j]] == Settled(t, idom0, sdom, dfnrev[j])
      invariant forall j :: i <= j < |dfnrev| ==> idom[dfnrev[j]] == idom0[dfnrev[j]]
    {
      var u := dfnrev[i];
      DfnRevIndex(t, i);
      ghost var settled := Settled(t, idom0, sdom, u);
      if idom[u] != sdom[u] {
        AncLess(t, idom[u], u);
        DfnRev(t, idom[u]);
        assert settled == Settled(t, idom0, sdom, idom[u]);
        idom := idom[u := idom[idom[u]]];
      }
      assert idom[u] == settled;
      i := i + 1;
    }
    forall x | x in dfn ensures idom[x] == Settled(t, idom0, sdom, x) {
      DfnRev(t, x);
    }
    forall x | x in dfn ensures x != t.start ==> Anc(t, idom[x], x) && idom[x] != x {
      SettledProper(t, idom0, sdom, x);
    }
    assert ComputedKey(0);
    forall x | x in dfn && x != t.start ensures IsIdom(t.g, t.start, idom[x], x) {
      SettledIdom(t, sdom, idom0, x);
    }
  }

  /** Lines 75-79. `idom`'s keys are in the order `init` inserted them, the order of `dfnrev`. */
  method BuildIdomRev(dfnrev: seq<int>, idom: map<int, int>) returns (idomrev: map<int, seq<int>>)
    requires forall x :: x in dfnrev ==> x in idom
    ensures ChildLists(dfnrev, idom, idomrev)
  {
    idomrev := map[];
    var i := 0;
    while i < |dfnrev|
      invariant 0 <= i <= |dfnrev|
      invariant forall p :: (if p in idomrev then idomrev[p] else []) == Kids(dfnrev[..i], idom, p)
      invariant forall p :: p in idomrev ==> |idomrev[p]| > 0
    {
      var node := dfnrev[i];
      assert dfnrev[..i + 1][..i] == dfnrev[..i];
      if idom[node] !in idomrev {
        idomrev := idomrev[idom[node] := []];
      }
      idomrev := idomrev[idom[node] := idomrev[idom[node]] + [node]];
      i := i + 1;
    }
    assert dfnrev[..i] == dfnrev;
    SealChildLists(dfnrev, idom, idomrev);
  }

  /**
   * `build_tree(tree, u, root)`, lines 81-88: the subtree of `u`, its
   * children taken from `idomrev[u]` except `root`.
   */
  method BuildTree(ghost t: Numbering, idom: map<int, int>, idomrev: map<int, seq<int>>, u: int, root: int)
    returns (tr: Tree)
    requires Done(t) && Proper(t, idom) && idom[t.start] == t.start && ChildLists(t.dfnrev, idom, idomrev)
    requires u in t.dfn && (u == t.start ==> root == t.start) && (u != t.start ==> root == idom[u])
    ensures tr.node == u && Parented(tr, t.start, idom)
    ensures forall x :: Count(tr, x) == if x in t.dfn && Under(t, idom, x, u) then 1 else 0
    decreases |t.dfnrev| - t.dfn[u]
  {
    DfnRev(t, u);
    var vs := if u in idomrev then idomrev[u] else [];
    ChildList(t.dfnrev, idom, idomrev, u);
    var kids: seq<Tree> := [];
    var j := 0;
    while j < |vs|
      invariant 0 <= j <= |vs|
      invariant Children(kids, u, t.start, idom)
      invariant Counted(t, idom, kids, u, vs[..j])
    {
      var v := vs[j];
      ChildStep(t, idom, u, root, vs, j);
      if v != root {
        var sub := BuildTree(t, idom, idomrev, v, u);
        CountedAdd(t, idom, kids, sub, u, vs[..j], v);
        ChildrenAppend(kids, sub, u, t.start, idom);
        kids := kids + [sub];
      } else {
        CountedSkip(t, idom, kids, u, vs[..j], root);
      }
      j := j + 1;
    }
    assert vs[..j] == vs;
    CountedAll(t, idom, kids, u, vs);
    tr := Tree(u, kids);
  }
}
