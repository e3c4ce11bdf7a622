/**
 * Why `build_dom_tree` of src/analyze/dom_tree.py yields immediate
 * dominators (Theorems 2 and 3 and Corollary 1 of Lengauer and Tarjan):
 * given true semidominators and the provisional `idom` the bucket pass
 * leaves (lines 62-68), the value the fix-up pass settles on (lines 70-74)
 * dominates its node, and every other dominator of the node dominates it.
 */
module Dominance {
  import opened DomGraph
  import opened DfsFacts
  import opened SdomPaths
  import opened IdomTree

  /** `d` is the immediate dominator of `x`: a dominator other than `x` that every other one dominates. */
  ghost predicate IsIdom(g: Graph, s: int, d: int, x: int) {
    d != x && Dominates(g, s, d, x) &&
    forall d' :: Dominates(g, s, d', x) && d' != x ==> Dominates(g, s, d', d)
  }

  /**
   * `sdom[x]` is the semidominator of `x`: the candidate of least number.
   * It is a proper ancestor of `x`.
   */
  ghost predicate IsSdom(t: Numbering, sdom: map<int, int>, x: int) {
    && x in sdom && sdom[x] in t.dfn && SdomPath(t, sdom[x], x) && Anc(t, sdom[x], x) && sdom[x] != x
    && forall w :: w in t.dfn && SdomPath(t, w, x) ==> t.dfn[sdom[x]] <= t.dfn[w]
  }

  /** Every numbered node has an entry in `sdom`, and every one but the entry its semidominator. */
  ghost predicate SemiFinal(t: Numbering, sdom: map<int, int>) {
    && (forall x :: x in t.dfn ==> x in sdom)
    && (forall x :: x in t.dfn && x != t.start ==> IsSdom(t, sdom, x))
  }

  /** No node of `(sdom[x], x]` has a semidominator numbered before that of `m`. */
  ghost predicate LeastOn(t: Numbering, sdom: map<int, int>, m: int, x: int) {
    x in sdom && m in sdom && sdom[m] in t.dfn &&
    forall z :: InRange(t, sdom[x], z, x) ==> z in sdom && sdom[z] in t.dfn && t.dfn[sdom[m]] <= t.dfn[sdom[z]]
  }

  /**
   * The provisional `idom0[x]` the bucket pass leaves: `sdom[x]` when no
   * node of `(sdom[x], x]` has an earlier semidominator, otherwise a node of
   * `(sdom[x], x]` whose semidominator is the earliest there and earlier
   * than `sdom[x]`.
   */
  ghost predicate IdomCase(t: Numbering, sdom: map<int, int>, idom0: map<int, int>, x: int) {
    x in sdom && x in idom0 && sdom[x] in t.dfn &&
    if idom0[x] == sdom[x] then LeastOn(t, sdom, x, x)
    else
      && InRange(t, sdom[x], idom0[x], x) && LeastOn(t, sdom, idom0[x], x)
      && t.dfn[sdom[idom0[x]]] < t.dfn[sdom[x]]
  }

  ghost predicate Cases(t: Numbering, sdom: map<int, int>, idom0: map<int, int>) {
    forall x :: x in t.dfn && x != t.start ==> IdomCase(t, sdom, idom0, x)
  }

  /** Trigger guard for `Computed`; it holds for every `n` and means nothing in the model. */
  predicate ComputedKey(n: nat) {
    n >= 0
  }

  /** `SemiFinal` and `Cases` sealed, for the fix-up loop, which needs neither until it is over. */
  ghost predicate Computed(t: Numbering, sdom: map<int, int>, idom0: map<int, int>) {
    forall n {:trigger ComputedKey(n)} :: ComputedKey(n) ==> SemiFinal(t, sdom) && Cases(t, sdom, idom0)
  }

  lemma SealComputed(t: Numbering, sdom: map<int, int>, idom0: map<int, int>)
    requires SemiFinal(t, sdom) && Cases(t, sdom, idom0)
    ensures Computed(t, sdom, idom0) && forall y :: y in t.dfn ==> y in sdom
  {
  }

  /** A node of `(s, w]` is not the entry. */
  lemma RangeNotStart(t: Numbering, s: int, z: int, w: int)
    requires Done(t) && InRange(t, s, z, w)
    ensures z != t.start && t.dfn[s] < t.dfn[z]
  {
    AncLess(t, s, z);
    StartZero(t);
  }

  /** Theorem 2: when nothing in `(sdom[w], w]` has an earlier semidominator, `sdom[w]` dominates `w`. */
  lemma SdomDominates(t: Numbering, sdom: map<int, int>, w: int)
    requires Done(t) && SemiFinal(t, sdom) && w in t.dfn && w != t.start && LeastOn(t, sdom, w, w)
    ensures IsSdom(t, sdom, w) && Dominates(t.g, t.start, sdom[w], w)
  {
    assert IsSdom(t, sdom, w);
    var s := sdom[w];
    forall p | PathFromTo(t.g, p, t.start, w) ensures s in p {
      if s != t.start && s !in p {
        var a, b := Escape(t, p, s, w);
        RangeNotStart(t, s, p[b], w);
      }
    }
  }

  /** A semidominator numbered before `s`, of a node below `s`, is an ancestor of `s`. */
  lemma SdomAbove(t: Numbering, sdom: map<int, int>, m: int, s: int)
    requires Done(t) && IsSdom(t, sdom, m) && Anc(t, s, m) && t.dfn[sdom[m]] < t.dfn[s]
    ensures Anc(t, sdom[m], s)
  {
    AncLinear(t, sdom[m], s, m);
  }

  /** A node of `(d, w]` outside `(s, w]`, for `s` in `(d, w]`, is an ancestor of `s`. */
  lemma OutsideAbove(t: Numbering, s: int, y: int, w: int)
    requires Done(t) && Anc(t, s, w) && Anc(t, y, w) && !InRange(t, s, y, w)
    ensures Anc(t, y, s)
  {
    AncLinear(t, s, y, w);
    if y == s {
      AncRefl(t, s);
    }
  }

  /**
   * Theorem 3: when `m` in `(sdom[w], w]` has the earliest semidominator
   * there, earlier than `sdom[w]`, a dominator `d` of `m` that is an
   * ancestor of `sdom[m]` dominates `w`.
   */
  lemma LabelDominates(t: Numbering, sdom: map<int, int>, w: int, m: int, d: int)
    requires Done(t) && SemiFinal(t, sdom) && w in t.dfn && w != t.start && IsSdom(t, sdom, w)
    requires InRange(t, sdom[w], m, w) && LeastOn(t, sdom, m, w) && IsSdom(t, sdom, m)
    requires Dominates(t.g, t.start, d, m) && Anc(t, d, sdom[m])
    ensures Dominates(t.g, t.start, d, w)
  {
    AncTrans(t, d, sdom[m], m);
    AncTrans(t, d, m, w);
    forall p | PathFromTo(t.g, p, t.start, w) ensures d in p {
      if d != t.start && d !in p {
        var a, b := Escape(t, p, d, w);
        EntersAbove(t, sdom, w, m, d, p[a], p[b]);
        AncTrans(t, p[b], sdom[w], m);
        var q := Prefix(t, p, b, d);
        q := ExtendDown(t, q, p[b], m, d);
      }
    }
  }

  /**
   * A walk that enters `(d, w]` at `y` from a candidate `x` numbered before
   * `d` enters it above `sdom[w]`: a node of `(sdom[w], w]` has no
   * semidominator earlier than that of `m`.
   */
  lemma EntersAbove(t: Numbering, sdom: map<int, int>, w: int, m: int, d: int, x: int, y: int)
    requires Done(t) && SemiFinal(t, sdom) && w in t.dfn && IsSdom(t, sdom, w) && IsSdom(t, sdom, m)
    requires LeastOn(t, sdom, m, w) && Anc(t, d, sdom[m])
    requires x in t.dfn && t.dfn[x] < t.dfn[d] && SdomPath(t, x, y) && Anc(t, y, w)
    ensures Anc(t, y, sdom[w])
  {
    if InRange(t, sdom[w], y, w) {
      RangeNotStart(t, sdom[w], y, w);
    }
    OutsideAbove(t, sdom[w], y, w);
  }

  /** The stretch of a walk from the entry up to position `b`, which avoids whatever the walk avoids. */
  lemma Prefix(t: Numbering, p: seq<int>, b: nat, d: int) returns (q: seq<int>)
    requires IsPath(t.g, p) && p[0] == t.start && b < |p| && d !in p
    ensures PathFromTo(t.g, q, t.start, p[b]) && d !in q
  {
    q := p[..b + 1];
    SubPath(t.g, p, 0, b + 1);
    assert forall j :: 0 <= j < b + 1 ==> q[j] == p[j];
  }

  /**
   * Corollary 1 with the fix-up pass: the settled `idom` of `w` dominates
   * `w`, is an ancestor of `sdom[w]`, and is below every other dominator of
   * `w`.
   */
  lemma {:induction false} SettledDominates(t: Numbering, sdom: map<int, int>, idom0: map<int, int>, w: int)
    requires Done(t) && Proper(t, idom0) && SemiFinal(t, sdom) && Cases(t, sdom, idom0)
    requires w in t.dfn && w != t.start
    ensures Dominates(t.g, t.start, Settled(t, idom0, sdom, w), w)
    ensures Anc(t, Settled(t, idom0, sdom, w), sdom[w])
    ensures forall d :: Dominates(t.g, t.start, d, w) && d != w ==> Anc(t, d, Settled(t, idom0, sdom, w))
    decreases t.dfn[w]
  {
    assert IdomCase(t, sdom, idom0, w) && IsSdom(t, sdom, w);
    var s := sdom[w];
    if idom0[w] == s {
      SdomDominates(t, sdom, w);
      AncRefl(t, s);
      forall d | Dominates(t.g, t.start, d, w) && d != w ensures Anc(t, d, s) {
        AboveSdom(t, s, w, d);
      }
    } else {
      var m := idom0[w];
      RangeNotStart(t, s, m, w);
      AncLess(t, m, w);
      assert IsSdom(t, sdom, m);
      SettledDominates(t, sdom, idom0, m);
      var d := Settled(t, idom0, sdom, m);
      assert Settled(t, idom0, sdom, w) == d;
      LabelDominates(t, sdom, w, m, d);
      SdomAbove(t, sdom, m, s);
      AncTrans(t, d, sdom[m], s);
      forall d' | Dominates(t.g, t.start, d', w) && d' != w ensures Anc(t, d', d) {
        AboveSdom(t, s, w, d');
        AncTrans(t, d', s, m);
        DomDown(t, d', m, w);
      }
    }
  }

  /** The settled `idom` of every numbered node but the entry is its immediate dominator. */
  lemma SettledIdom(t: Numbering, sdom: map<int, int>, idom0: map<int, int>, w: int)
    requires Done(t) && Proper(t, idom0) && SemiFinal(t, sdom) && Cases(t, sdom, idom0)
    requires w in t.dfn && w != t.start
    ensures IsIdom(t.g, t.start, Settled(t, idom0, sdom, w), w)
  {
    SettledDominates(t, sdom, idom0, w);
    SettledProper(t, idom0, sdom, w);
    var d := Settled(t, idom0, sdom, w);
    forall d' | Dominates(t.g, t.start, d', w) && d' != w ensures Dominates(t.g, t.start, d', d) {
      if d' != d {
        DomDown(t, d', d, w);
      }
    }
  }

  /** Dominance is transitive: a walk to `x` meets `m`, and its stretch up to `m` meets `d`. */
  lemma DomTrans(g: Graph, s: int, d: int, m: int, x: int)
    requires Dominates(g, s, d, m) && Dominates(g, s, m, x)
    ensures Dominates(g, s, d, x)
  {
    forall p | PathFromTo(g, p, s, x) ensures d in p {
      var i :| 0 <= i < |p| && p[i] == m;
      SubPath(g, p, 0, i + 1);
      assert PathFromTo(g, p[..i + 1], s, m);
      var j :| 0 <= j < i + 1 && p[..i + 1][j] == d;
      assert p[j] == d;
    }
  }

  /** The entry is dominated by itself alone: the one-node walk `[s]` reaches it. */
  lemma DomEntry(g: Graph, s: int, d: int)
    ensures Dominates(g, s, d, s) <==> d == s
  {
    assert PathFromTo(g, [s], s, s);
  }

  /** The dominators of `x` are `x` itself and the dominators of its immediate dominator. */
  lemma DomOfIdom(g: Graph, s: int, i: int, x: int, d: int)
    requires IsIdom(g, s, i, x)
    ensures Dominates(g, s, d, x) <==> d == x || Dominates(g, s, d, i)
  {
    if d == x {
      forall p | PathFromTo(g, p, s, x) ensures x in p {
        assert p[|p| - 1] == x;
      }
    } else if Dominates(g, s, d, i) {
      DomTrans(g, s, d, i, x);
    }
  }
}
