/**
 * The path facts behind the Lengauer-Tarjan algorithm of
 * src/analyze/dom_tree.py: a walk whose inner nodes are not ancestors of
 * its end is a semidominator path (the "path lemma"), how a semidominator
 * candidate of `u` splits at the last edge into `u`, and how a walk from
 * the entry that avoids a node `d` escapes below `d`.
 */
module SdomPaths {
  import opened DomGraph
  import opened DfsFacts

  /** `z` lies on the tree path strictly below `s` down to `x`. */
  ghost predicate InRange(t: Numbering, s: int, z: int, x: int) {
    Anc(t, s, z) && Anc(t, z, x) && z != s
  }

  /** A stretch of a walk is a walk. */
  lemma SubPath(g: Graph, p: seq<int>, i: nat, j: nat)
    requires IsPath(g, p) && i < j <= |p|
    ensures IsPath(g, p[i..j])
  {
    var q := p[i..j];
    forall l | 0 <= l < |q| - 1 ensures Edge(g, q[l], q[l + 1]) {
      assert q[l] == p[i + l] && q[l + 1] == p[i + l + 1];
    }
  }

  /** Every node of a walk from the entry is numbered. */
  lemma AllNumbered(t: Numbering, p: seq<int>)
    requires Done(t) && IsPath(t.g, p) && p[0] == t.start
    ensures forall i :: 0 <= i < |p| ==> p[i] in t.dfn
  {
    forall i | 0 <= i < |p| ensures p[i] in t.dfn {
      PathNumbered(t, p, i);
    }
  }

  /** The position of least number among `p[lo..hi]`, both ends included. */
  lemma {:induction false} MinOn(t: Numbering, p: seq<int>, lo: nat, hi: nat) returns (m: nat)
    requires lo <= hi < |p| && forall i :: lo <= i <= hi ==> p[i] in t.dfn
    ensures lo <= m <= hi && forall i :: lo <= i <= hi ==> t.dfn[p[m]] <= t.dfn[p[i]]
    decreases hi - lo
  {
    if lo == hi {
      m := lo;
    } else {
      m := MinOn(t, p, lo + 1, hi);
      if t.dfn[p[lo]] < t.dfn[p[m]] {
        m := lo;
      }
    }
  }

  /** A stretch `p[m..b]` numbered no lower than its first node stays in that node's subtree. */
  lemma StaysAnc(t: Numbering, p: seq<int>, m: nat, b: nat)
    requires Done(t) && IsPath(t.g, p) && m <= b < |p|
    requires p[m] in t.dfn && forall i :: m <= i <= b ==> p[i] in t.dfn && t.dfn[p[m]] <= t.dfn[p[i]]
    ensures Anc(t, p[m], p[b])
  {
    var q := p[m..b + 1];
    SubPath(t.g, p, m, b + 1);
    assert forall j :: 0 <= j < |q| ==> q[j] == p[m + j];
    PathStaysBelow(t, q, |q| - 1);
  }

  /**
   * The path lemma: a stretch `p[a..b]` whose inner nodes are numbered and
   * none an ancestor of its end makes `p[a]` a semidominator candidate of
   * `p[b]`.
   */
  lemma SdomFromPath(t: Numbering, p: seq<int>, a: nat, b: nat)
    requires Done(t) && IsPath(t.g, p) && a < b < |p|
    requires forall i :: a < i <= b ==> p[i] in t.dfn
    requires forall i :: a < i < b ==> !Anc(t, p[i], p[b])
    ensures SdomPath(t, p[a], p[b])
  {
    var m := MinOn(t, p, a + 1, b);
    if m < b {
      StaysAnc(t, p, m, b);
    }
    AncRefl(t, p[b]);
    forall i | a < i < b ensures t.dfn[p[i]] > t.dfn[p[b]] {
      DfnInjective(t, p[i], p[b]);
    }
    var q := p[a..b + 1];
    SubPath(t.g, p, a, b + 1);
    assert forall j :: 0 <= j < |q| ==> q[j] == p[a + j];
    assert PathFromTo(t.g, q, p[a], p[b]);
  }

  /** The first position from `lo` on whose node is an ancestor of `v`; `p[hi]` is one. */
  lemma {:induction false} FirstAnc(t: Numbering, p: seq<int>, lo: nat, hi: nat, v: int) returns (j: nat)
    requires lo <= hi < |p| && Anc(t, p[hi], v)
    ensures lo <= j <= hi && Anc(t, p[j], v)
    ensures forall i :: lo <= i < j ==> !Anc(t, p[i], v)
    decreases hi - lo
  {
    if Anc(t, p[lo], v) {
      j := lo;
    } else {
      j := FirstAnc(t, p, lo + 1, hi, v);
    }
  }

  /**
   * A semidominator candidate `w` of `u` numbered before `u` either has an
   * edge into `u`, or reaches `u` by a last edge `v -> u` from a node `v`
   * numbered after `u` that has an ancestor `z`, numbered after `u`, of
   * which `w` is a candidate (Theorem 4 of Lengauer and Tarjan).
   */
  lemma CandidateSplit(t: Numbering, w: int, u: int) returns (v: int, z: int)
    requires Done(t) && u in t.dfn && w in t.dfn && t.dfn[w] < t.dfn[u] && SdomPath(t, w, u)
    ensures Edge(t.g, v, u) && v in t.dfn
    ensures v == w || (t.dfn[v] > t.dfn[u] && Anc(t, z, v) && t.dfn[z] > t.dfn[u] && SdomPath(t, w, z))
  {
    var p :| PathFromTo(t.g, p, w, u) && forall j :: 0 < j < |p| - 1 ==> p[j] in t.dfn && t.dfn[p[j]] > t.dfn[u];
    assert |p| >= 2;
    v := p[|p| - 2];
    assert Edge(t.g, p[|p| - 2], p[|p| - 1]);
    z := v;
    if |p| > 2 {
      AncRefl(t, v);
      var j := FirstAnc(t, p, 1, |p| - 2, v);
      z := p[j];
      forall i | 0 < i < j ensures !Anc(t, p[i], p[j]) {
        if Anc(t, p[i], p[j]) {
          AncTrans(t, p[i], p[j], v);
        }
      }
      SdomFromPath(t, p, 0, j);
    }
  }

  /** The last position up to `n` whose node is numbered before `d`; `p[0]` is one. */
  lemma {:induction false} LastBelow(t: Numbering, p: seq<int>, d: int, n: nat) returns (a: nat)
    requires d in t.dfn && n < |p| && forall i :: 0 <= i <= n ==> p[i] in t.dfn
    requires t.dfn[p[0]] < t.dfn[d]
    ensures a <= n && t.dfn[p[a]] < t.dfn[d]
    ensures forall i :: a < i <= n ==> t.dfn[p[i]] >= t.dfn[d]
    decreases n
  {
    if t.dfn[p[n]] < t.dfn[d] {
      a := n;
    } else {
      a := LastBelow(t, p, d, n - 1);
    }
  }

  /** The first position from `lo` on whose node lies in `(d, w]`; `p[hi]` does. */
  lemma {:induction false} FirstIn(t: Numbering, p: seq<int>, lo: nat, hi: nat, d: int, w: int) returns (b: nat)
    requires lo <= hi < |p| && InRange(t, d, p[hi], w)
    ensures lo <= b <= hi && InRange(t, d, p[b], w)
    ensures forall i :: lo <= i < b ==> !InRange(t, d, p[i], w)
    decreases hi - lo
  {
    if InRange(t, d, p[lo], w) {
      b := lo;
    } else {
      b := FirstIn(t, p, lo + 1, hi, d, w);
    }
  }

  /** A node other than `d`, numbered from `d` on, that is an ancestor of a node of `(d, w]` lies in `(d, w]`. */
  lemma AboveInRange(t: Numbering, d: int, z: int, y: int, w: int)
    requires Done(t) && InRange(t, d, y, w) && z in t.dfn && t.dfn[z] >= t.dfn[d] && z != d
    ensures Anc(t, z, y) ==> InRange(t, d, z, w)
  {
    if Anc(t, z, y) {
      AncLinear(t, d, z, y);
      if Anc(t, z, d) {
        AncLess(t, z, d);
      }
      AncTrans(t, z, y, w);
    }
  }

  /**
   * A walk from the entry to `w` that avoids a proper ancestor `d` of `w`
   * enters `(d, w]` at some node `p[b]` coming from a node `p[a]` numbered
   * before `d`, and `p[a]` is a semidominator candidate of `p[b]`.
   */
  lemma Escape(t: Numbering, p: seq<int>, d: int, w: int) returns (a: nat, b: nat)
    requires Done(t) && PathFromTo(t.g, p, t.start, w) && Anc(t, d, w) && d != w && d != t.start && d !in p
    ensures a < b < |p| && p[a] in t.dfn && t.dfn[p[a]] < t.dfn[d]
    ensures InRange(t, d, p[b], w) && SdomPath(t, p[a], p[b])
  {
    AllNumbered(t, p);
    StartFirst(t, d);
    a := LastBelow(t, p, d, |p| - 1);
    AncRefl(t, w);
    AncLess(t, d, w);
    b := FirstIn(t, p, a + 1, |p| - 1, d, w);
    forall i | a < i < b ensures !Anc(t, p[i], p[b]) {
      AboveInRange(t, d, p[i], p[b], w);
    }
    SdomFromPath(t, p, a, b);
  }

  /** The walk from the entry down to `y`, then down the tree to `m`, still avoids a proper ancestor `d` of `y`. */
  lemma ExtendDown(t: Numbering, p: seq<int>, y: int, m: int, d: int) returns (q: seq<int>)
    requires Done(t) && PathFromTo(t.g, p, t.start, y) && d !in p && Anc(t, y, m) && Anc(t, d, y) && d != y
    ensures PathFromTo(t.g, q, t.start, m) && d !in q
  {
    var r := TreePath(t, y, m);
    q := p + r[1..];
    PathConcat(t.g, p, r);
    forall j | 0 <= j < |r| ensures r[j] != d {
      if r[j] == d {
        AncAntisym(t, d, y);
      }
    }
    forall j | 0 <= j < |q| ensures q[j] != d {
      if j >= |p| {
        assert q[j] == r[j - |p| + 1];
      }
    }
  }

  /**
   * The tree path from the entry to `s`, then a semidominator path from `s`
   * to `w`, avoids every node of `(s, w)`.
   */
  lemma Detour(t: Numbering, s: int, w: int, d: int) returns (q: seq<int>)
    requires Done(t) && s in t.dfn && SdomPath(t, s, w) && InRange(t, s, d, w) && d != w
    ensures PathFromTo(t.g, q, t.start, w) && d !in q
  {
    AncStart(t, s);
    var r := TreePath(t, t.start, s);
    var e :| PathFromTo(t.g, e, s, w) && forall j :: 0 < j < |e| - 1 ==> e[j] in t.dfn && t.dfn[e[j]] > t.dfn[w];
    q := r + e[1..];
    PathConcat(t.g, r, e);
    forall j | 0 <= j < |r| ensures r[j] != d {
      if r[j] == d {
        AncAntisym(t, d, s);
      }
    }
    forall j | 0 <= j < |q| ensures q[j] != d {
      if j >= |r| {
        assert q[j] == e[j - |r| + 1];
      }
    }
  }

  /** A dominator is a DFS ancestor: the tree path from the entry meets only ancestors. */
  lemma DomAnc(t: Numbering, d: int, x: int)
    requires Done(t) && x in t.dfn && Dominates(t.g, t.start, d, x)
    ensures Anc(t, d, x)
  {
    AncStart(t, x);
    var q := TreePath(t, t.start, x);
    assert d in q;
  }

  /** A dominator of `w` is an ancestor of every semidominator candidate of `w` that is an ancestor of `w`. */
  lemma AboveSdom(t: Numbering, s: int, w: int, d: int)
    requires Done(t) && w in t.dfn && SdomPath(t, s, w) && Anc(t, s, w)
    requires Dominates(t.g, t.start, d, w) && d != w
    ensures Anc(t, d, s)
  {
    DomAnc(t, d, w);
    AncLinear(t, d, s, w);
    if !Anc(t, d, s) {
      var q := Detour(t, s, w, d);
    }
  }

  /** A dominator of `w` dominates every node between it and `w` on the tree path. */
  lemma DomDown(t: Numbering, d: int, m: int, w: int)
    requires Done(t) && Dominates(t.g, t.start, d, w) && Anc(t, d, m) && d != m && Anc(t, m, w)
    ensures Dominates(t.g, t.start, d, m)
  {
    forall p | PathFromTo(t.g, p, t.start, m) ensures d in p {
      if d !in p {
        var q := ExtendDown(t, p, m, w, d);
      }
    }
  }
}
