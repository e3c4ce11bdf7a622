/**
 * What a completed depth-first numbering gives the Lengauer-Tarjan
 * algorithm of src/analyze/dom_tree.py: the ancestor relation of the DFS
 * tree (read off the intervals `[dfn[a], fin[a])`), tree paths, the
 * "path stays above its lowest-numbered node" lemma, semidominator paths,
 * and reachability.
 */
module DfsFacts {
  import opened DomGraph

  /** The state `dfs(start)` leaves behind, with the ghost finishing numbers. */
  datatype Numbering = Numbering(g: Graph, start: int, dfn: map<int, nat>, dfnrev: seq<int>,
                                 up: map<int, int>, fin: map<int, nat>)

  /** A completed search: the invariant with an empty stack, the entry numbered. Sealed. */
  ghost predicate Done(t: Numbering) {
    DfsState(t.g, t.start, t.dfn, t.dfnrev, t.up, t.fin, []) && t.start in t.dfn
  }

  /** `a` is `x` or a proper ancestor of `x` in the DFS tree. */
  ghost predicate Anc(t: Numbering, a: int, x: int) {
    a in t.dfn && x in t.dfn && a in t.fin && t.dfn[a] <= t.dfn[x] < t.fin[a]
  }

  /**
   * `x` reaches `u` by a path whose inner nodes are all numbered after `u`:
   * `x` is a candidate semidominator of `u`.
   */
  ghost predicate SdomPath(t: Numbering, x: int, u: int) {
    u in t.dfn &&
    exists p :: PathFromTo(t.g, p, x, u) && forall j :: 0 < j < |p| - 1 ==> p[j] in t.dfn && t.dfn[p[j]] > t.dfn[u]
  }

  lemma Open(t: Numbering)
    requires Done(t)
    ensures DfsInv(t.g, t.start, t.dfn, t.dfnrev, t.up, t.fin, [])
    ensures t.start in t.dfn && t.dfn[t.start] == 0
    ensures forall x :: x in t.fin <==> x in t.dfn
    ensures forall x, y :: x in t.dfn && y in t.dfn && t.dfn[x] == t.dfn[y] ==> x == y
  {
    OpenDfs(t.g, t.start, t.dfn, t.dfnrev, t.up, t.fin, []);
    forall x, y | x in t.dfn && y in t.dfn && t.dfn[x] == t.dfn[y] ensures x == y {
      assert t.dfnrev[t.dfn[x]] == x && t.dfnrev[t.dfn[y]] == y;
    }
  }

  /** The numbers are distinct. */
  lemma DfnInjective(t: Numbering, x: int, y: int)
    requires Done(t) && x in t.dfn && y in t.dfn && x != y
    ensures t.dfn[x] != t.dfn[y]
  {
    Open(t);
  }

  lemma StartZero(t: Numbering)
    requires Done(t)
    ensures t.start in t.dfn && t.dfn[t.start] == 0 && |t.dfnrev| >= 1
  {
    Open(t);
  }

  /** The entry is numbered 0, so every other node is numbered from 1. */
  lemma StartFirst(t: Numbering, x: int)
    requires Done(t) && x in t.dfn && x != t.start
    ensures t.dfn[t.start] == 0 && t.dfn[x] >= 1
  {
    Open(t);
  }

  /** `dfnrev` inverts `dfn`. */
  lemma DfnRev(t: Numbering, x: int)
    requires Done(t) && x in t.dfn
    ensures t.dfn[x] < |t.dfnrev| && t.dfnrev[t.dfn[x]] == x
  {
    Open(t);
  }

  lemma DfnRevIndex(t: Numbering, i: int)
    requires Done(t) && 0 <= i < |t.dfnrev|
    ensures t.dfnrev[i] in t.dfn && t.dfn[t.dfnrev[i]] == i
  {
    Open(t);
  }

  /** A proper ancestor is numbered earlier. */
  lemma AncLess(t: Numbering, a: int, x: int)
    requires Done(t) && Anc(t, a, x) && a != x
    ensures t.dfn[a] < t.dfn[x]
  {
    DfnInjective(t, a, x);
  }

  lemma AncRefl(t: Numbering, x: int)
    requires Done(t) && x in t.dfn
    ensures Anc(t, x, x)
  {
    Open(t);
  }

  /** Every numbered node but the entry hangs below its tree parent by a graph edge. */
  lemma AncParent(t: Numbering, x: int)
    requires Done(t) && x in t.dfn && x != t.start
    ensures x in t.up && Anc(t, t.up[x], x) && t.dfn[t.up[x]] < t.dfn[x] && Edge(t.g, t.up[x], x)
  {
    Open(t);
    assert t.up[x] in t.fin;
  }

  lemma AncAntisym(t: Numbering, a: int, x: int)
    requires Done(t) && Anc(t, a, x) && Anc(t, x, a)
    ensures a == x
  {
    Open(t);
  }

  lemma AncTrans(t: Numbering, a: int, b: int, x: int)
    requires Done(t) && Anc(t, a, b) && Anc(t, b, x)
    ensures Anc(t, a, x)
  {
    Open(t);
    if a != b {
      assert t.fin[b] <= t.fin[a];
    }
  }

  /** The ancestors of a node form a chain. */
  lemma AncLinear(t: Numbering, a: int, b: int, x: int)
    requires Done(t) && Anc(t, a, x) && Anc(t, b, x)
    ensures Anc(t, a, b) || Anc(t, b, a)
  {
  }

  /** A proper ancestor of `x` is an ancestor of `x`'s parent. */
  lemma AncUp(t: Numbering, a: int, x: int)
    requires Done(t) && Anc(t, a, x) && a != x
    ensures x != t.start && x in t.up && Anc(t, a, t.up[x])
  {
    Open(t);
    AncParent(t, x);
    assert t.dfn[a] < t.dfn[x];
    assert t.dfn[a] <= t.dfn[t.up[x]];
  }

  /** The entry is everybody's ancestor. */
  lemma {:induction false} AncStart(t: Numbering, x: int)
    requires Done(t) && x in t.dfn
    ensures Anc(t, t.start, x)
    decreases t.dfn[x]
  {
    Open(t);
    if x == t.start {
      AncRefl(t, x);
    } else {
      AncParent(t, x);
      AncStart(t, t.up[x]);
      AncTrans(t, t.start, t.up[x], x);
    }
  }

  /** Below a proper ancestor `a` of `x` hangs a child of `a` that is an ancestor of `x`. */
  lemma {:induction false} ChildOnPath(t: Numbering, a: int, x: int) returns (c: int)
    requires Done(t) && Anc(t, a, x) && a != x
    ensures c in t.dfn && c != t.start && c in t.up && t.up[c] == a && Anc(t, c, x)
    decreases t.dfn[x]
  {
    AncUp(t, a, x);
    AncParent(t, x);
    if t.up[x] == a {
      c := x;
      AncRefl(t, x);
    } else {
      c := ChildOnPath(t, a, t.up[x]);
      AncTrans(t, c, t.up[x], x);
    }
  }

  /** Of two children of the same node, the earlier one's subtree ends before the later one starts. */
  lemma SiblingsApart(t: Numbering, c: int, u: int)
    requires Done(t) && c in t.dfn && u in t.dfn && c != t.start && u != t.start
    requires c in t.up && u in t.up && t.up[c] == t.up[u] && t.dfn[c] < t.dfn[u]
    ensures c in t.fin && t.fin[c] <= t.dfn[u]
  {
    Open(t);
    AncParent(t, c);
    if t.dfn[u] < t.fin[c] {
      AncUp(t, c, u);
    }
  }

  lemma PathAppend(g: Graph, p: seq<int>, y: int)
    requires IsPath(g, p) && Edge(g, p[|p| - 1], y)
    ensures IsPath(g, p + [y])
  {
    var q := p + [y];
    forall i | 0 <= i < |q| - 1 ensures Edge(g, q[i], q[i + 1]) {
      if i < |p| - 1 {
        assert q[i] == p[i] && q[i + 1] == p[i + 1];
      }
    }
  }

  lemma PathConcat(g: Graph, p: seq<int>, q: seq<int>)
    requires IsPath(g, p) && IsPath(g, q) && p[|p| - 1] == q[0]
    ensures IsPath(g, p + q[1..])
  {
    var r := p + q[1..];
    forall i | 0 <= i < |r| - 1 ensures Edge(g, r[i], r[i + 1]) {
      if i < |p| - 1 {
        assert r[i] == p[i] && r[i + 1] == p[i + 1];
      } else {
        assert r[i] == q[i - |p| + 1] && r[i + 1] == q[i - |p| + 2];
      }
    }
  }

  /** The DFS tree path from an ancestor `r` down to `v`: every node on it lies between them. */
  lemma {:induction false} TreePath(t: Numbering, r: int, v: int) returns (p: seq<int>)
    requires Done(t) && Anc(t, r, v)
    ensures PathFromTo(t.g, p, r, v)
    ensures forall j :: 0 <= j < |p| ==> Anc(t, r, p[j]) && Anc(t, p[j], v)
    ensures forall j :: 0 < j < |p| ==> p[j] in t.dfn && t.dfn[p[j]] > t.dfn[r]
    decreases t.dfn[v]
  {
    if r == v {
      p := [v];
      AncRefl(t, v);
    } else {
      AncUp(t, r, v);
      AncParent(t, v);
      var q := TreePath(t, r, t.up[v]);
      p := q + [v];
      PathAppend(t.g, q, v);
      forall j | 0 <= j < |q| ensures Anc(t, p[j], v) {
        AncTrans(t, q[j], t.up[v], v);
      }
      AncRefl(t, v);
      DfnInjective(t, r, v);
    }
  }

  /**
   * A path whose nodes are numbered no lower than its first node stays in
   * that node's subtree (it can only leave through an edge to a node with
   * a smaller number).
   */
  lemma {:induction false} PathStaysBelow(t: Numbering, p: seq<int>, i: nat)
    requires Done(t) && IsPath(t.g, p) && p[0] in t.dfn && i < |p|
    requires forall j :: 0 <= j < |p| && p[j] in t.dfn ==> t.dfn[p[0]] <= t.dfn[p[j]]
    ensures Anc(t, p[0], p[i])
    decreases i
  {
    Open(t);
    if i == 0 {
      AncRefl(t, p[0]);
    } else {
      PathStaysBelow(t, p, i - 1);
      assert Edge(t.g, p[i - 1], p[i]);
      assert p[i] in t.dfn && t.dfn[p[i]] < t.fin[p[i - 1]];
      if p[i - 1] != p[0] {
        DfnInjective(t, p[0], p[i - 1]);
        assert t.fin[p[i - 1]] <= t.fin[p[0]];
      }
    }
  }

  /** A semidominator candidate numbered before `u` is an ancestor of `u`. */
  lemma SdomAnc(t: Numbering, x: int, u: int)
    requires Done(t) && SdomPath(t, x, u) && x in t.dfn && t.dfn[x] < t.dfn[u]
    ensures Anc(t, x, u)
  {
    var p :| PathFromTo(t.g, p, x, u) && forall j :: 0 < j < |p| - 1 ==> p[j] in t.dfn && t.dfn[p[j]] > t.dfn[u];
    PathStaysBelow(t, p, |p| - 1);
  }

  /** A node is its own (trivial) semidominator candidate. */
  lemma SdomPathSelf(t: Numbering, u: int)
    requires u in t.dfn
    ensures SdomPath(t, u, u)
  {
    assert PathFromTo(t.g, [u], u, u);
  }

  /** A direct predecessor is a semidominator candidate. */
  lemma SdomPathEdge(t: Numbering, v: int, u: int)
    requires u in t.dfn && Edge(t.g, v, u)
    ensures SdomPath(t, v, u)
  {
    assert PathFromTo(t.g, [v, u], v, u);
  }

  /**
   * Candidates through a tree path: if `x` is `m` itself, or a candidate
   * for `m` with `m` numbered after `u`, and the tree path from `m` down to
   * a predecessor `v` of `u` has every node below `m` numbered after `u`,
   * then `x` is a candidate for `u`.
   */
  lemma SdomPathVia(t: Numbering, x: int, m: int, v: int, u: int)
    requires Done(t) && u in t.dfn && Anc(t, m, v) && Edge(t.g, v, u)
    requires x == m || (SdomPath(t, x, m) && t.dfn[m] > t.dfn[u])
    requires forall z :: Anc(t, m, z) && Anc(t, z, v) && z != m ==> t.dfn[z] > t.dfn[u]
    ensures SdomPath(t, x, u)
  {
    var q := TreePath(t, m, v);
    var q' := q + [u];
    PathAppend(t.g, q, u);
    forall j | 0 < j < |q'| - 1 ensures q'[j] in t.dfn && t.dfn[q'[j]] > t.dfn[u] {
      assert q'[j] == q[j];
    }
    if x == m {
      assert PathFromTo(t.g, q', x, u);
    } else {
      var s :| PathFromTo(t.g, s, x, m) && forall j :: 0 < j < |s| - 1 ==> s[j] in t.dfn && t.dfn[s[j]] > t.dfn[m];
      var p := s + q'[1..];
      PathConcat(t.g, s, q');
      assert PathFromTo(t.g, p, x, u);
      forall j | 0 < j < |p| - 1 ensures p[j] in t.dfn && t.dfn[p[j]] > t.dfn[u] {
        if j < |s| - 1 {
          assert p[j] == s[j];
        } else if j == |s| - 1 {
          assert p[j] == m;
        } else {
          assert p[j] == q'[j - |s| + 1];
        }
      }
    }
  }

  /** Numbered nodes are reachable from the entry, along the tree. */
  lemma NumberedReachable(t: Numbering, x: int)
    requires Done(t) && x in t.dfn
    ensures Reachable(t.g, t.start, x)
  {
    AncStart(t, x);
    var p := TreePath(t, t.start, x);
  }

  /** Every node of a path from the entry is numbered. */
  lemma {:induction false} PathNumbered(t: Numbering, p: seq<int>, i: nat)
    requires Done(t) && IsPath(t.g, p) && p[0] == t.start && i < |p|
    ensures p[i] in t.dfn
    decreases i
  {
    Open(t);
    if i > 0 {
      PathNumbered(t, p, i - 1);
      assert Edge(t.g, p[i - 1], p[i]);
    }
  }

  /** The search numbers exactly the nodes reachable from the entry. */
  lemma NumberedIffReachable(t: Numbering, v: int)
    requires Done(t)
    ensures v in t.dfn <==> Reachable(t.g, t.start, v)
  {
    if v in t.dfn {
      NumberedReachable(t, v);
    }
    if Reachable(t.g, t.start, v) {
      var p :| PathFromTo(t.g, p, t.start, v);
      PathNumbered(t, p, |p| - 1);
    }
  }
}
