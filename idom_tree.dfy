/**
 * The last passes of `build_dom_tree` in src/analyze/dom_tree.py: the
 * fix-up of the provisional immediate dominators, the children lists
 * `idomrev`, and the nested tree `build_tree` returns.
 */
module IdomTree {
  import opened DomGraph
  import opened DfsFacts

  /** Every numbered node but the entry maps to a proper DFS ancestor. */
  ghost predicate Proper(t: Numbering, idom: map<int, int>) {
    && (forall x :: x in idom <==> x in t.dfn)
    && (forall x :: x in t.dfn && x != t.start ==> Anc(t, idom[x], x) && idom[x] != x)
  }

  /**
   * What the fix-up pass leaves in `idom[x]`: the first node on the chain of
   * provisional `idom`s from `x` whose provisional `idom` equals its
   * semidominator, taken one step further.
   */
  ghost function Settled(t: Numbering, idom0: map<int, int>, sdom: map<int, int>, x: int): int
    requires Done(t) && Proper(t, idom0) && x in t.dfn
    requires forall y :: y in t.dfn ==> y in sdom
    decreases t.dfn[x]
  {
    if x == t.start then t.start
    else if idom0[x] == sdom[x] then idom0[x]
    else AncLess(t, idom0[x], x); Settled(t, idom0, sdom, idom0[x])
  }

  /** The settled `idom` of every node but the entry is a proper ancestor. */
  lemma {:induction false} SettledProper(t: Numbering, idom0: map<int, int>, sdom: map<int, int>, x: int)
    requires Done(t) && Proper(t, idom0) && x in t.dfn
    requires forall y :: y in t.dfn ==> y in sdom
    ensures x == t.start ==> Settled(t, idom0, sdom, x) == t.start
    ensures x != t.start ==> Anc(t, Settled(t, idom0, sdom, x), x) && Settled(t, idom0, sdom, x) != x
    decreases t.dfn[x]
  {
    if x != t.start && idom0[x] != sdom[x] {
      var d := idom0[x];
      AncLess(t, d, x);
      SettledProper(t, idom0, sdom, d);
      if d == t.start {
        AncStart(t, x);
      } else {
        AncTrans(t, Settled(t, idom0, sdom, d), d, x);
        AncLess(t, Settled(t, idom0, sdom, d), d);
      }
    }
  }

  /** `u` lies on the chain of `idom`s from `x` (`x` included). */
  ghost predicate Under(t: Numbering, idom: map<int, int>, x: int, u: int)
    decreases if x in t.dfn then t.dfn[x] else 0
  {
    x == u ||
    (x != t.start && x in t.dfn && x in idom && idom[x] in t.dfn && t.dfn[idom[x]] < t.dfn[x]
     && Under(t, idom, idom[x], u))
  }

  /** The node on the chain from `x` whose `idom` is `u`. */
  ghost function Via(t: Numbering, idom: map<int, int>, x: int, u: int): int
    decreases if x in t.dfn then t.dfn[x] else 0
  {
    if x != t.start && x in t.dfn && x in idom && idom[x] in t.dfn && t.dfn[idom[x]] < t.dfn[x] then
      if idom[x] == u then x else Via(t, idom, idom[x], u)
    else x
  }

  /** Every numbered node lies below the entry. */
  lemma {:induction false} UnderStart(t: Numbering, idom: map<int, int>, x: int)
    requires Done(t) && Proper(t, idom) && x in t.dfn
    ensures Under(t, idom, x, t.start)
    decreases t.dfn[x]
  {
    if x != t.start {
      AncLess(t, idom[x], x);
      UnderStart(t, idom, idom[x]);
    }
  }

  /** A node lies no higher than anything on its chain. */
  lemma {:induction false} UnderLess(t: Numbering, idom: map<int, int>, x: int, u: int)
    requires Done(t) && x in t.dfn && u in t.dfn && Under(t, idom, x, u)
    ensures t.dfn[u] <= t.dfn[x]
    decreases t.dfn[x]
  {
    if x != u {
      UnderLess(t, idom, idom[x], u);
    }
  }

  /** Below `u`, the chain from `x` passes through a child of `u`. */
  lemma {:induction false} ViaChild(t: Numbering, idom: map<int, int>, x: int, u: int)
    requires Done(t) && x in t.dfn && Under(t, idom, x, u) && x != u
    ensures Via(t, idom, x, u) in t.dfn && Via(t, idom, x, u) != t.start
    ensures Via(t, idom, x, u) in idom && idom[Via(t, idom, x, u)] == u
    ensures Under(t, idom, x, Via(t, idom, x, u))
    decreases t.dfn[x]
  {
    if idom[x] != u {
      ViaChild(t, idom, idom[x], u);
    }
  }

  /** `x` lies below a child `v` of `u` exactly when its chain reaches `u` through `v`. */
  lemma {:induction false} UnderChild(t: Numbering, idom: map<int, int>, x: int, u: int, v: int)
    requires Done(t) && Proper(t, idom) && x in t.dfn && v in t.dfn && v != t.start && idom[v] == u
    ensures Under(t, idom, x, v) <==> x != u && Under(t, idom, x, u) && Via(t, idom, x, u) == v
    decreases t.dfn[x]
  {
    AncLess(t, u, v);
    if Under(t, idom, x, v) {
      UnderLess(t, idom, x, v);
      if x != v {
        AncLess(t, idom[x], x);
        UnderChild(t, idom, idom[x], u, v);
        UnderLess(t, idom, idom[x], v);
      }
    }
    if x != u && Under(t, idom, x, u) && Via(t, idom, x, u) == v {
      ViaChild(t, idom, x, u);
    }
  }

  predicate Distinct(s: seq<int>) {
    forall i, j :: 0 <= i < j < |s| ==> s[i] != s[j]
  }

  /** `dfnrev` lists every numbered node once. */
  lemma DfnrevUnique(t: Numbering)
    requires Done(t)
    ensures Distinct(t.dfnrev)
  {
    forall i, j | 0 <= i < j < |t.dfnrev| ensures t.dfnrev[i] != t.dfnrev[j] {
      DfnRevIndex(t, i);
      DfnRevIndex(t, j);
    }
  }

  /** What `dfnrev` lists is numbered. */
  lemma InDfnrev(t: Numbering, x: int)
    requires Done(t) && x in t.dfnrev
    ensures x in t.dfn
  {
    var i :| 0 <= i < |t.dfnrev| && t.dfnrev[i] == x;
    DfnRevIndex(t, i);
  }

  /** `dfnrev` lists exactly the numbered nodes, each once. */
  lemma DfnrevDistinct(t: Numbering)
    requires Done(t)
    ensures Distinct(t.dfnrev)
    ensures forall x :: x in t.dfnrev <==> x in t.dfn
  {
    DfnrevUnique(t);
    forall x | x in t.dfn ensures x in t.dfnrev {
      DfnRev(t, x);
    }
    forall x | x in t.dfnrev ensures x in t.dfn {
      InDfnrev(t, x);
    }
  }

  /** `idomrev[p]`: the nodes of `s` whose `idom` is `p`, in the order of `s`. */
  function Kids(s: seq<int>, idom: map<int, int>, p: int): (r: seq<int>)
    ensures forall x :: x in r <==> x in s && x in idom && idom[x] == p
    ensures Distinct(s) ==> Distinct(r)
    ensures |r| <= |s|
  {
    if s == [] then []
    else
      var last := s[|s| - 1];
      var r := Kids(s[..|s| - 1], idom, p);
      assert forall x :: x in s[..|s| - 1] ==> x in s;
      assert forall x :: x in s ==> x in s[..|s| - 1] || x == last;
      if last in idom && idom[last] == p then
        assert Distinct(s) ==> last !in s[..|s| - 1];
        r + [last]
      else r
  }

  /** `idomrev[p]` and absent keys alike: the children of `p`, listed in the order of `order`. */
  ghost predicate ChildInv(order: seq<int>, idom: map<int, int>, idomrev: map<int, seq<int>>) {
    && (forall p :: (if p in idomrev then idomrev[p] else []) == Kids(order, idom, p))
    && (forall p :: p in idomrev ==> |idomrev[p]| > 0)
  }

  /**
   * A trigger guard that holds for every `n` and means nothing in the model:
   * the invariant it guards is opened only where a proof asserts `ListKey(0)`
   * (see `DomGraph.Unseal`).
   */
  predicate ListKey(n: nat) {
    n >= 0
  }

  /** `ChildInv`, sealed: `ChildList` opens it for one node. */
  ghost predicate ChildLists(order: seq<int>, idom: map<int, int>, idomrev: map<int, seq<int>>) {
    forall n {:trigger ListKey(n)} :: ListKey(n) ==> ChildInv(order, idom, idomrev)
  }

  lemma SealChildLists(order: seq<int>, idom: map<int, int>, idomrev: map<int, seq<int>>)
    requires ChildInv(order, idom, idomrev)
    ensures ChildLists(order, idom, idomrev)
  {
  }

  /** The list `build_tree` walks for `p`: its children in the order of `order`. */
  lemma ChildList(order: seq<int>, idom: map<int, int>, idomrev: map<int, seq<int>>, p: int)
    requires ChildLists(order, idom, idomrev)
    ensures (if p in idomrev then idomrev[p] else []) == Kids(order, idom, p)
  {
    assert ListKey(0);
  }

  /** The tree `build_tree` fills in: a node and its children in `idomrev` order. */
  datatype Tree = Tree(node: int, kids: seq<Tree>)

  /** How often `x` occurs in a tree. */
  function Count(tr: Tree, x: int): nat
    decreases tr
  {
    (if tr.node == x then 1 else 0) + CountKids(tr.kids, x)
  }

  function CountKids(ks: seq<Tree>, x: int): nat
    decreases ks
  {
    if ks == [] then 0 else Count(ks[0], x) + CountKids(ks[1..], x)
  }

  lemma {:induction false} CountKidsAppend(ks: seq<Tree>, k: Tree, x: int)
    ensures CountKids(ks + [k], x) == CountKids(ks, x) + Count(k, x)
    decreases |ks|
  {
    if ks != [] {
      assert (ks + [k])[1..] == ks[1..] + [k];
      CountKidsAppend(ks[1..], k, x);
    } else {
      assert ([k])[1..] == [];
    }
  }

  /** Every child's `idom` is its parent, and no child is the entry. */
  ghost predicate Parented(tr: Tree, start: int, idom: map<int, int>)
    decreases tr
  {
    Children(tr.kids, tr.node, start, idom)
  }

  /** The trees of `ks` are children of `p`: each root's `idom` is `p` and none is the entry. */
  ghost predicate Children(ks: seq<Tree>, p: int, start: int, idom: map<int, int>)
    decreases ks
  {
    forall i :: 0 <= i < |ks| ==>
      && ks[i].node != start
      && ks[i].node in idom && idom[ks[i].node] == p
      && Parented(ks[i], start, idom)
  }

  /** Appending a child keeps the list one of children. */
  lemma ChildrenAppend(ks: seq<Tree>, k: Tree, p: int, start: int, idom: map<int, int>)
    requires Children(ks, p, start, idom)
    requires k.node != start && k.node in idom && idom[k.node] == p && Parented(k, start, idom)
    ensures Children(ks + [k], p, start, idom)
  {
    assert forall i :: 0 <= i < |ks| ==> (ks + [k])[i] == ks[i];
  }

  /** A prefix of a list without repeats does not contain the next element. */
  lemma DistinctPrefix(s: seq<int>, j: int)
    requires Distinct(s) && 0 <= j < |s|
    ensures s[j] !in s[..j]
  {
    assert forall l :: 0 <= l < j ==> s[..j][l] == s[l];
  }

  /**
   * The trees of `kids` hold, once each, exactly the nodes below `u` whose
   * chain reaches `u` through a child listed in `part`.
   */
  ghost predicate Counted(t: Numbering, idom: map<int, int>, kids: seq<Tree>, u: int, part: seq<int>) {
    forall x :: CountKids(kids, x) ==
      if x in t.dfn && x != u && Under(t, idom, x, u) && Via(t, idom, x, u) in part then 1 else 0
  }

  /** Appending the subtree of a child `v` of `u` counts the nodes reached through `v`. */
  lemma CountedAdd(t: Numbering, idom: map<int, int>, kids: seq<Tree>, sub: Tree, u: int, part: seq<int>, v: int)
    requires Done(t) && Proper(t, idom) && Counted(t, idom, kids, u, part)
    requires v in t.dfn && v != t.start && idom[v] == u && v !in part
    requires forall x :: Count(sub, x) == if x in t.dfn && Under(t, idom, x, v) then 1 else 0
    ensures Counted(t, idom, kids + [sub], u, part + [v])
  {
    forall x ensures CountKids(kids + [sub], x) ==
                     if x in t.dfn && x != u && Under(t, idom, x, u) && Via(t, idom, x, u) in part + [v] then 1 else 0
    {
      CountKidsAppend(kids, sub, x);
      if x in t.dfn {
        UnderChild(t, idom, x, u, v);
      }
    }
  }

  /** No node's chain reaches `u` through `u`'s own `idom`, the `root` `build_tree` skips. */
  lemma CountedSkip(t: Numbering, idom: map<int, int>, kids: seq<Tree>, u: int, part: seq<int>, root: int)
    requires Done(t) && Proper(t, idom) && Counted(t, idom, kids, u, part) && u in t.dfn
    requires (u == t.start ==> root == t.start) && (u != t.start ==> root == idom[u])
    ensures Counted(t, idom, kids, u, part + [root])
  {
    forall x | x in t.dfn && x != u && Under(t, idom, x, u) ensures Via(t, idom, x, u) != root {
      ViaChild(t, idom, x, u);
      if u != t.start {
        AncLess(t, idom[u], u);
      }
    }
  }

  /** The `j`-th child `build_tree` meets in `u`'s list, and what the recursive call on it needs. */
  lemma ChildStep(t: Numbering, idom: map<int, int>, u: int, root: int, vs: seq<int>, j: int)
    requires Done(t) && Proper(t, idom) && idom[t.start] == t.start && u in t.dfn
    requires (u == t.start ==> root == t.start) && (u != t.start ==> root == idom[u])
    requires vs == Kids(t.dfnrev, idom, u) && 0 <= j < |vs|
    ensures vs[j] in t.dfn && vs[j] in idom && idom[vs[j]] == u && vs[j] !in vs[..j]
    ensures vs[..j + 1] == vs[..j] + [vs[j]]
    ensures vs[j] != root ==> vs[j] != t.start && t.dfn[u] < t.dfn[vs[j]] && t.dfn[vs[j]] < |t.dfnrev|
  {
    DfnrevUnique(t);
    DistinctPrefix(vs, j);
    var v := vs[j];
    assert v in vs;
    InDfnrev(t, v);
    assert vs[..j + 1] == vs[..j] + [v];
    DfnRev(t, v);
    if v != root && v != t.start {
      AncLess(t, u, v);
    }
  }

  /** Below `u`, every node's chain reaches `u` through a child of `u`. */
  lemma CountedAll(t: Numbering, idom: map<int, int>, kids: seq<Tree>, u: int, vs: seq<int>)
    requires Done(t) && Proper(t, idom) && Counted(t, idom, kids, u, vs) && u in t.dfn
    requires vs == Kids(t.dfnrev, idom, u)
    ensures forall x :: Count(Tree(u, kids), x) == if x in t.dfn && Under(t, idom, x, u) then 1 else 0
  {
    forall x ensures Count(Tree(u, kids), x) == if x in t.dfn && Under(t, idom, x, u) then 1 else 0 {
      assert Count(Tree(u, kids), x) == (if u == x then 1 else 0) + CountKids(kids, x);
      if x in t.dfn && x != u && Under(t, idom, x, u) {
        ViaChild(t, idom, x, u);
        DfnRev(t, Via(t, idom, x, u));
        assert Via(t, idom, x, u) in vs;
      }
    }
  }
}
