/**
 * Graphs as src/analyze/dom_tree.py receives them, `{node: [child, ...]}`,
 * with paths, reachability and dominance, and the facts about a depth-first
 * numbering that the Lengauer-Tarjan algorithm relies on.
 *
 * Throughout the project, predicates named `...Key` (`Unseal` here,
 * `ForestKey`, `SemiKey`, `BucketKey`, `RevKey`, `ListKey`, `IndexKey`,
 * `LineKey` elsewhere) hold for every argument and mean nothing in the
 * model. They only guard large invariants so that the solver unfolds them
 * where a proof asks for it.
 */
module DomGraph {

  /** `{node: [successor, ...]}`; a node that only occurs as a target has no key. */
  type Graph = map<int, seq<int>>

  /** `graph[u]` when `u in graph`, else no successors. */
  function Succ(g: Graph, u: int): seq<int> {
    if u in g then g[u] else []
  }

  predicate Edge(g: Graph, u: int, v: int) {
    v in Succ(g, u)
  }

  /** Every node of the graph: the keys and every edge target. */
  function Nodes(g: Graph): (r: set<int>)
    ensures forall u, v :: u in g && v in g[u] ==> v in r
  {
    g.Keys + set u, v | u in g && v in g[u] :: v
  }

  /** A non-empty walk along edges. */
  ghost predicate IsPath(g: Graph, p: seq<int>) {
    |p| >= 1 && forall i :: 0 <= i < |p| - 1 ==> Edge(g, p[i], p[i + 1])
  }

  ghost predicate PathFromTo(g: Graph, p: seq<int>, s: int, v: int) {
    IsPath(g, p) && p[0] == s && p[|p| - 1] == v
  }

  ghost predicate Reachable(g: Graph, s: int, v: int) {
    exists p :: PathFromTo(g, p, s, v)
  }

  /** `d` dominates `v`: every path from the entry `s` to `v` passes through `d`. */
  ghost predicate Dominates(g: Graph, s: int, d: int, v: int) {
    forall p :: PathFromTo(g, p, s, v) ==> d in p
  }

  /** `dfn` numbers its keys 0 .. |dfn| - 1 with `dfnrev` its inverse, the entry first. */
  ghost predicate Numbered(g: Graph, start: int, dfn: map<int, nat>, dfnrev: seq<int>) {
    && |dfnrev| == |dfn|
    && (forall i :: 0 <= i < |dfnrev| ==> dfnrev[i] in dfn && dfn[dfnrev[i]] == i)
    && (forall x :: x in dfn ==> dfn[x] < |dfnrev| && dfnrev[dfn[x]] == x)
    && (|dfn| > 0 ==> start in dfn && dfn[start] == 0)
    && (forall x :: x in dfn ==> x in Nodes(g) + {start})
  }

  /** Every numbered node but the entry hangs by an edge from an earlier-numbered parent. */
  ghost predicate TreeEdges(g: Graph, start: int, dfn: map<int, nat>, up: map<int, int>) {
    && start in up && up[start] == start
    && (forall x :: x in dfn && x != start ==> x in up)
    && (forall x {:trigger up[x]} :: x in dfn && x != start ==>
          up[x] in dfn && dfn[up[x]] < dfn[x] && Edge(g, up[x], x))
  }

  /** The recursion stack: numbered nodes in increasing order, the entry at the bottom. */
  ghost predicate Stack(start: int, dfn: map<int, nat>, active: seq<int>) {
    && (active != [] ==> active[0] == start)
    && (forall i :: 0 <= i < |active| ==> active[i] in dfn)
    && (forall i, j :: 0 <= i < j < |active| ==> dfn[active[i]] < dfn[active[j]])
  }

  /** Finished nodes are the numbered nodes off the stack; `[dfn[x], fin[x])` is non-empty. */
  ghost predicate Finished(dfn: map<int, nat>, fin: map<int, nat>, active: seq<int>) {
    && (forall x :: x in fin <==> x in dfn && x !in active)
    && (forall x :: x in fin ==> dfn[x] < fin[x] <= |dfn|)
  }

  /** A node numbered inside a finished subtree has its parent inside it too. */
  ghost predicate SubtreeFin(start: int, dfn: map<int, nat>, up: map<int, int>, fin: map<int, nat>)
    requires forall y :: y in dfn && y != start ==> y in up && up[y] in dfn
  {
    forall x, y {:trigger fin[x], dfn[up[y]]} ::
      x in fin && x in dfn && y in dfn && y != start && dfn[x] < dfn[y] < fin[x] ==> dfn[x] <= dfn[up[y]]
  }

  /** A node numbered after a stack node has its parent at or after it. */
  ghost predicate SubtreeAct(start: int, dfn: map<int, nat>, up: map<int, int>, active: seq<int>)
    requires forall y :: y in dfn && y != start ==> y in up && up[y] in dfn
    requires forall a :: a in active ==> a in dfn
  {
    forall a, y {:trigger a in active, dfn[up[y]]} ::
      a in active && y in dfn && y != start && dfn[a] < dfn[y] ==> dfn[a] <= dfn[up[y]]
  }

  /** A finished node's tree children were numbered before it finished. */
  ghost predicate ParentOpen(start: int, dfn: map<int, nat>, up: map<int, int>, fin: map<int, nat>)
    requires forall y :: y in dfn && y != start ==> y in up
  {
    forall x {:trigger fin[up[x]]} :: x in dfn && x != start && up[x] in fin ==> dfn[x] < fin[up[x]]
  }

  /** A finished node's successors were numbered before it finished. */
  ghost predicate SuccClosed(g: Graph, dfn: map<int, nat>, fin: map<int, nat>) {
    forall x, y {:trigger y in Succ(g, x)} :: x in fin && y in Succ(g, x) ==> y in dfn && dfn[y] < fin[x]
  }

  /** Finished subtrees nest or are disjoint. */
  ghost predicate NestFin(dfn: map<int, nat>, fin: map<int, nat>)
    requires forall x :: x in fin ==> x in dfn
  {
    forall a, b {:trigger fin[a], fin[b]} :: a in fin && b in fin && dfn[a] < dfn[b] < fin[a] ==> fin[b] <= fin[a]
  }

  /** A finished subtree lies before a stack node or after it. */
  ghost predicate NestAct(dfn: map<int, nat>, fin: map<int, nat>, active: seq<int>)
    requires forall x :: x in fin ==> x in dfn
    requires forall a :: a in active ==> a in dfn
  {
    forall a, t {:trigger fin[a], t in active} :: a in fin && t in active ==> fin[a] <= dfn[t] || dfn[t] < dfn[a]
  }

  /**
   * The state of a depth-first numbering in progress: `dfn` numbers nodes in
   * preorder from 0, `dfnrev` is its inverse, `up` is the tree parent and
   * `fin` the number of nodes numbered when a node's visit returned (its
   * subtree is the interval `[dfn[x], fin[x])`). `active` is the recursion
   * stack.
   */
  ghost predicate DfsInv(g: Graph, start: int, dfn: map<int, nat>, dfnrev: seq<int>,
                         up: map<int, int>, fin: map<int, nat>, active: seq<int>)
  {
    && Numbered(g, start, dfn, dfnrev)
    && TreeEdges(g, start, dfn, up)
    && Stack(start, dfn, active)
    && Finished(dfn, fin, active)
    && SubtreeFin(start, dfn, up, fin)
    && SubtreeAct(start, dfn, up, active)
    && ParentOpen(start, dfn, up, fin)
    && SuccClosed(g, dfn, fin)
    && NestFin(dfn, fin)
    && NestAct(dfn, fin, active)
  }

  /**
   * A marker that holds everywhere. A quantifier guarded by it is
   * instantiated only where a proof mentions `Unseal`, which keeps large
   * invariants out of the solver's way in the methods that only pass them on.
   */
  predicate Unseal(k: nat) {
    k >= 0
  }

  /** `DfsInv`, sealed: methods carry it; `OpenDfs` and `SealDfs` convert. */
  ghost predicate DfsState(g: Graph, start: int, dfn: map<int, nat>, dfnrev: seq<int>,
                           up: map<int, int>, fin: map<int, nat>, active: seq<int>)
  {
    forall k {:trigger Unseal(k)} :: Unseal(k) ==> DfsInv(g, start, dfn, dfnrev, up, fin, active)
  }

  lemma OpenDfs(g: Graph, start: int, dfn: map<int, nat>, dfnrev: seq<int>,
                up: map<int, int>, fin: map<int, nat>, active: seq<int>)
    requires DfsState(g, start, dfn, dfnrev, up, fin, active)
    ensures DfsInv(g, start, dfn, dfnrev, up, fin, active)
  {
    assert Unseal(0);
  }

  lemma SealDfs(g: Graph, start: int, dfn: map<int, nat>, dfnrev: seq<int>,
                up: map<int, int>, fin: map<int, nat>, active: seq<int>)
    requires DfsInv(g, start, dfn, dfnrev, up, fin, active)
    ensures DfsState(g, start, dfn, dfnrev, up, fin, active)
  {
  }

  /** Before `dfs(start)`: nothing numbered, `up[start] = start`. */
  lemma DfsStart(g: Graph, start: int)
    ensures DfsState(g, start, map[], [], map[start := start], map[], [])
  {
    assert DfsInv(g, start, map[], [], map[start := start], map[], []);
  }

  /** A finished depth-first numbering from `start`. */
  ghost predicate DfsTree(g: Graph, start: int, dfn: map<int, nat>, dfnrev: seq<int>,
                          up: map<int, int>, fin: map<int, nat>)
  {
    DfsInv(g, start, dfn, dfnrev, up, fin, []) && start in dfn
  }

  /** Numbering a fresh node `u` below the top of the stack keeps the invariant. */
  lemma DfsNumberStep(g: Graph, start: int, dfn: map<int, nat>, dfnrev: seq<int>,
                      up: map<int, int>, fin: map<int, nat>, active: seq<int>, u: int)
    requires DfsInv(g, start, dfn, dfnrev, up, fin, active)
    requires u !in dfn && u in Nodes(g) + {start}
    requires active == [] <==> dfn == map[]
    requires active == [] ==> u == start
    requires active != [] ==> u in up && up[u] == active[|active| - 1] && Edge(g, up[u], u)
    ensures DfsInv(g, start, dfn[u := |dfn|], dfnrev + [u], up, fin, active + [u])
  {
    var dfn', act' := dfn[u := |dfn|], active + [u];
    NumberNumbered(g, start, dfn, dfnrev, u);
    NumberStack(start, dfn, active, u);
    NumberFinished(start, dfn, fin, active, u);
    NumberTreeEdges(g, start, dfn, up, active, u);
    NumberSubtreeFin(start, dfn, up, fin, u);
    NumberSubtreeAct(start, dfn, up, active, u);
    NumberNest(g, dfn, fin, active, u);
    NumberParentOpen(start, dfn, up, fin, active, u);
  }

  lemma NumberParentOpen(start: int, dfn: map<int, nat>, up: map<int, int>, fin: map<int, nat>,
                         active: seq<int>, u: int)
    requires forall y :: y in dfn && y != start ==> y in up
    requires Finished(dfn, fin, active) && ParentOpen(start, dfn, up, fin)
    requires u !in dfn
    requires active != [] ==> u in up && up[u] == active[|active| - 1]
    requires active == [] ==> u == start
    ensures forall y :: y in dfn[u := |dfn|] && y != start ==> y in up
    ensures ParentOpen(start, dfn[u := |dfn|], up, fin)
  {
    if active != [] {
      assert active[|active| - 1] in active;
    }
  }

  lemma NumberFinished(start: int, dfn: map<int, nat>, fin: map<int, nat>, active: seq<int>, u: int)
    requires Finished(dfn, fin, active) && u !in dfn
    requires forall x :: x in active ==> x in dfn
    ensures Finished(dfn[u := |dfn|], fin, active + [u])
  {
    assert forall x :: x in active + [u] <==> x in active || x == u;
  }

  lemma NumberTreeEdges(g: Graph, start: int, dfn: map<int, nat>, up: map<int, int>, active: seq<int>, u: int)
    requires TreeEdges(g, start, dfn, up) && u !in dfn
    requires forall x :: x in active ==> x in dfn
    requires forall x :: x in dfn ==> dfn[x] < |dfn|
    requires active == [] ==> u == start
    requires active != [] ==> u in up && up[u] == active[|active| - 1] && Edge(g, up[u], u)
    ensures TreeEdges(g, start, dfn[u := |dfn|], up)
  {
    if active != [] {
      assert active[|active| - 1] in active;
    }
  }

  lemma NumberNest(g: Graph, dfn: map<int, nat>, fin: map<int, nat>, active: seq<int>, u: int)
    requires u !in dfn
    requires forall x :: x in fin ==> x in dfn && fin[x] <= |dfn|
    requires forall x :: x in active ==> x in dfn
    requires SuccClosed(g, dfn, fin) && NestFin(dfn, fin) && NestAct(dfn, fin, active)
    ensures forall x :: x in active + [u] ==> x in dfn[u := |dfn|]
    ensures SuccClosed(g, dfn[u := |dfn|], fin)
    ensures NestFin(dfn[u := |dfn|], fin)
    ensures NestAct(dfn[u := |dfn|], fin, active + [u])
  {
    assert forall x :: x in active + [u] <==> x in active || x == u;
  }

  lemma NumberNumbered(g: Graph, start: int, dfn: map<int, nat>, dfnrev: seq<int>, u: int)
    requires Numbered(g, start, dfn, dfnrev)
    requires u !in dfn && u in Nodes(g) + {start}
    requires dfn == map[] ==> u == start
    ensures Numbered(g, start, dfn[u := |dfn|], dfnrev + [u])
  {
    var dfn', dfnrev' := dfn[u := |dfn|], dfnrev + [u];
    assert |dfn'| == |dfn| + 1;
    forall i | 0 <= i < |dfnrev'| ensures dfnrev'[i] in dfn' && dfn'[dfnrev'[i]] == i {
      if i < |dfnrev| { assert dfnrev'[i] == dfnrev[i] != u; }
    }
    if dfn == map[] {
      assert |dfn| == 0;
    } else {
      assert |dfn| > 0;
    }
  }

  lemma NumberStack(start: int, dfn: map<int, nat>, active: seq<int>, u: int)
    requires Stack(start, dfn, active)
    requires u !in dfn && (active == [] ==> u == start)
    requires forall x :: x in dfn ==> dfn[x] < |dfn|
    ensures Stack(start, dfn[u := |dfn|], active + [u])
  {
    var dfn', act' := dfn[u := |dfn|], active + [u];
    forall i, j | 0 <= i < j < |act'| ensures dfn'[act'[i]] < dfn'[act'[j]] {
      assert act'[i] == active[i] && active[i] in dfn;
      if j < |active| { assert act'[j] == active[j]; }
    }
    forall i | 0 <= i < |act'| ensures act'[i] in dfn' {
      if i < |active| { assert act'[i] == active[i]; }
    }
  }

  lemma NumberSubtreeFin(start: int, dfn: map<int, nat>, up: map<int, int>, fin: map<int, nat>, u: int)
    requires forall y :: y in dfn && y != start ==> y in up && up[y] in dfn
    requires u in up && (u != start ==> up[u] in dfn)
    requires forall x :: x in fin ==> x in dfn && fin[x] <= |dfn|
    requires SubtreeFin(start, dfn, up, fin)
    requires u !in dfn
    ensures SubtreeFin(start, dfn[u := |dfn|], up, fin)
  {
  }

  lemma NumberSubtreeAct(start: int, dfn: map<int, nat>, up: map<int, int>, active: seq<int>, u: int)
    requires forall y :: y in dfn && y != start ==> y in up && up[y] in dfn
    requires Stack(start, dfn, active) && SubtreeAct(start, dfn, up, active)
    requires u !in dfn && (active == [] ==> u == start)
    requires active != [] ==> u in up && up[u] == active[|active| - 1]
    requires forall x :: x in dfn ==> dfn[x] < |dfn|
    ensures forall y :: y in dfn[u := |dfn|] && y != start ==> y in up && up[y] in dfn[u := |dfn|]
    ensures forall a :: a in active + [u] ==> a in dfn[u := |dfn|]
    ensures SubtreeAct(start, dfn[u := |dfn|], up, active + [u])
  {
    var dfn', act' := dfn[u := |dfn|], active + [u];
    assert forall x :: x in act' <==> x in active || x == u;
    forall a, y | a in act' && y in dfn' && y != start && dfn'[a] < dfn'[y]
      ensures dfn'[a] <= dfn'[up[y]]
    {
      if y == u {
        var k :| 0 <= k < |act'| && act'[k] == a;
        assert act'[k] == active[k];
        if k != |active| - 1 {
          assert dfn[active[k]] < dfn[active[|active| - 1]];
        }
      } else {
        assert a in active;
      }
    }
  }

  /** Finishing the top `u` of the stack, once all its successors are numbered. */
  lemma DfsFinishStep(g: Graph, start: int, dfn: map<int, nat>, dfnrev: seq<int>,
                      up: map<int, int>, fin: map<int, nat>, active: seq<int>, u: int)
    requires DfsInv(g, start, dfn, dfnrev, up, fin, active + [u])
    requires forall y :: y in Succ(g, u) ==> y in dfn
    ensures DfsInv(g, start, dfn, dfnrev, up, fin[u := |dfn|], active)
  {
    var act := active + [u];
    StackPop(start, dfn, active, u);
    var fin' := fin[u := |dfn|];
    FinishFinished(dfn, fin, active, u);
    FinishSubtreeFin(start, dfn, up, fin, active, u);
    FinishSuccClosed(g, dfn, fin, u);
    FinishNestFin(dfn, fin, active, u);
    FinishNestAct(dfn, fin, active, u);
    FinishParentOpen(start, dfn, up, fin, u);
  }

  lemma FinishParentOpen(start: int, dfn: map<int, nat>, up: map<int, int>, fin: map<int, nat>, u: int)
    requires forall y :: y in dfn && y != start ==> y in up
    requires forall y :: y in dfn ==> dfn[y] < |dfn|
    requires ParentOpen(start, dfn, up, fin)
    ensures ParentOpen(start, dfn, up, fin[u := |dfn|])
  {
  }

  lemma StackPop(start: int, dfn: map<int, nat>, active: seq<int>, u: int)
    requires Stack(start, dfn, active + [u])
    ensures Stack(start, dfn, active) && u in dfn
    ensures forall x :: x in active ==> x in dfn && dfn[x] < dfn[u]
    ensures forall x :: x in active + [u] <==> x in active || x == u
  {
    var act := active + [u];
    assert act[|active|] == u;
    forall x | x in active ensures x in dfn && dfn[x] < dfn[u] {
      var i :| 0 <= i < |active| && active[i] == x;
      assert act[i] == x;
    }
    forall i, j | 0 <= i < j < |active| ensures dfn[active[i]] < dfn[active[j]] {
      assert act[i] == active[i] && act[j] == active[j];
    }
    if active != [] { assert act[0] == active[0]; }
  }

  lemma FinishFinished(dfn: map<int, nat>, fin: map<int, nat>, active: seq<int>, u: int)
    requires Finished(dfn, fin, active + [u])
    requires u in dfn && forall x :: x in active ==> x in dfn && dfn[x] < dfn[u]
    requires forall x :: x in active + [u] <==> x in active || x == u
    requires forall y :: y in dfn ==> dfn[y] < |dfn|
    ensures Finished(dfn, fin[u := |dfn|], active)
  {
    assert u !in active;
  }

  lemma FinishSubtreeFin(start: int, dfn: map<int, nat>, up: map<int, int>, fin: map<int, nat>,
                         active: seq<int>, u: int)
    requires forall y :: y in dfn && y != start ==> y in up && up[y] in dfn
    requires forall a :: a in active + [u] ==> a in dfn
    requires SubtreeFin(start, dfn, up, fin) && SubtreeAct(start, dfn, up, active + [u])
    ensures SubtreeFin(start, dfn, up, fin[u := |dfn|])
  {
    assert u in active + [u];
  }

  lemma FinishSuccClosed(g: Graph, dfn: map<int, nat>, fin: map<int, nat>, u: int)
    requires SuccClosed(g, dfn, fin)
    requires forall y :: y in Succ(g, u) ==> y in dfn
    requires forall y :: y in dfn ==> dfn[y] < |dfn|
    ensures SuccClosed(g, dfn, fin[u := |dfn|])
  {
  }

  lemma FinishNestFin(dfn: map<int, nat>, fin: map<int, nat>, active: seq<int>, u: int)
    requires Finished(dfn, fin, active + [u])
    requires u in dfn && forall a :: a in active ==> a in dfn
    requires forall x :: x in active + [u] <==> x in active || x == u
    requires NestFin(dfn, fin) && NestAct(dfn, fin, active + [u])
    ensures forall x :: x in fin[u := |dfn|] ==> x in dfn
    ensures NestFin(dfn, fin[u := |dfn|])
  {
    var fin' := fin[u := |dfn|];
    forall a, b | a in fin' && b in fin' && dfn[a] < dfn[b] < fin'[a]
      ensures fin'[b] <= fin'[a]
    {
      assert u in active + [u];
    }
  }

  lemma FinishNestAct(dfn: map<int, nat>, fin: map<int, nat>, active: seq<int>, u: int)
    requires u in dfn && forall x :: x in active ==> x in dfn && dfn[x] < dfn[u]
    requires forall x :: x in fin ==> x in dfn
    requires forall x :: x in active + [u] <==> x in active || x == u
    requires NestAct(dfn, fin, active + [u])
    ensures NestAct(dfn, fin[u := |dfn|], active)
  {
  }

  /** Setting the parent of a node that is not numbered yet changes nothing numbered. */
  lemma DfsParentStep(g: Graph, start: int, dfn: map<int, nat>, dfnrev: seq<int>,
                      up: map<int, int>, fin: map<int, nat>, active: seq<int>, v: int, u: int)
    requires DfsInv(g, start, dfn, dfnrev, up, fin, active)
    requires v !in dfn && dfn != map[]
    ensures DfsInv(g, start, dfn, dfnrev, up[v := u], fin, active)
  {
    var up' := up[v := u];
    assert TreeEdges(g, start, dfn, up');
    assert SubtreeFin(start, dfn, up', fin);
    assert SubtreeAct(start, dfn, up', active);
    assert ParentOpen(start, dfn, up', fin);
  }

  /*
   * The sealed steps take the updated maps as arguments, so that a method
   * can apply them after its own assignments to the same terms.
   */

  lemma SealedNumberStep(g: Graph, start: int, dfn: map<int, nat>, dfnrev: seq<int>,
                         up: map<int, int>, fin: map<int, nat>, active: seq<int>, u: int,
                         dfn1: map<int, nat>, dfnrev1: seq<int>)
    requires DfsState(g, start, dfn, dfnrev, up, fin, active)
    requires u !in dfn && u in Nodes(g) + {start}
    requires active == [] <==> dfn == map[]
    requires active == [] ==> u == start
    requires active != [] ==> u in up && up[u] == active[|active| - 1] && Edge(g, up[u], u)
    requires dfn1 == dfn[u := |dfn|] && dfnrev1 == dfnrev + [u]
    ensures DfsState(g, start, dfn1, dfnrev1, up, fin, active + [u])
  {
    OpenDfs(g, start, dfn, dfnrev, up, fin, active);
    DfsNumberStep(g, start, dfn, dfnrev, up, fin, active, u);
    SealDfs(g, start, dfn1, dfnrev1, up, fin, active + [u]);
  }

  lemma SealedFinishStep(g: Graph, start: int, dfn: map<int, nat>, dfnrev: seq<int>,
                         up: map<int, int>, fin: map<int, nat>, active: seq<int>, u: int,
                         fin1: map<int, nat>)
    requires DfsState(g, start, dfn, dfnrev, up, fin, active + [u])
    requires forall y :: y in Succ(g, u) ==> y in dfn
    requires fin1 == fin[u := |dfn|]
    ensures DfsState(g, start, dfn, dfnrev, up, fin1, active)
  {
    OpenDfs(g, start, dfn, dfnrev, up, fin, active + [u]);
    DfsFinishStep(g, start, dfn, dfnrev, up, fin, active, u);
    SealDfs(g, start, dfn, dfnrev, up, fin1, active);
  }

  lemma SealedParentStep(g: Graph, start: int, dfn: map<int, nat>, dfnrev: seq<int>,
                         up: map<int, int>, fin: map<int, nat>, active: seq<int>, v: int, u: int,
                         up1: map<int, int>)
    requires DfsState(g, start, dfn, dfnrev, up, fin, active)
    requires v !in dfn && dfn != map[]
    requires up1 == up[v := u]
    ensures DfsState(g, start, dfn, dfnrev, up1, fin, active)
  {
    OpenDfs(g, start, dfn, dfnrev, up, fin, active);
    DfsParentStep(g, start, dfn, dfnrev, up, fin, active, v, u);
    SealDfs(g, start, dfn, dfnrev, up1, fin, active);
  }

  /** A proper subset is smaller. */
  lemma ProperSubsetCard<T>(a: set<T>, b: set<T>)
    requires a < b
    ensures |a| < |b|
  {
    var c := b - a;
    assert b == a + c && a !! c;
    EmptyIfNoElements(c);
    var x :| x in c;
    assert {x} <= c;
  }

  /** Adding a node of `all` to `done` leaves fewer to do. */
  lemma FewerLeft<T>(all: set<T>, done: set<T>, u: T)
    requires u in all && u !in done
    ensures |all - (done + {u})| < |all - done|
  {
    var todo := all - done;
    assert u in todo && todo - {u} == all - (done + {u});
    ProperSubsetCard(todo - {u}, todo);
  }

  /** A subset is no larger. */
  lemma SubsetCard<T>(a: set<T>, b: set<T>)
    requires a <= b
    ensures |a| <= |b|
  {
    if a != b {
      ProperSubsetCard(a, b);
    }
  }

  lemma EmptyIfNoElements<T>(s: set<T>)
    ensures (forall y :: y !in s) ==> s == {}
  {
    if forall y :: y !in s {
      assert s == {};
    }
  }
}
