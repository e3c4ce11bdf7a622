/**
 * The state of the semidominator pass of src/analyze/dom_tree.py (lines
 * 46-69) between steps. Nodes are processed in decreasing DFS number; with
 * `k` the smallest number processed so far, a node `x` is processed when
 * `dfn[x] >= k`.
 *
 *   - `Forest`: the union-find links `fa` and the labels `minn` of `find`.
 *   - `Semi`: the semidominators `sdom` computed so far.
 *   - `Buckets`: the buckets `aux_graph` and the provisional `idom`.
 */
module Semidom {
  import opened DomGraph
  import opened DfsFacts
  import opened SdomPaths
  import opened Dominance

  /** Every node strictly below `f` down to `x` is processed. */
  ghost predicate Between(t: Numbering, k: nat, f: int, x: int) {
    forall z :: Anc(t, f, z) && Anc(t, z, x) && z != f ==> t.dfn[z] >= k
  }

  /** `x` links to a proper ancestor `f`, and its label `m` lies between them. */
  ghost predicate Linked(t: Numbering, k: nat, x: int, f: int, m: int) {
    Anc(t, f, x) && f != x && Anc(t, m, x) && Anc(t, f, m) && Between(t, k, f, x)
  }

  ghost predicate Forest(t: Numbering, k: nat, fa: map<int, int>, minn: map<int, int>) {
    && (forall x :: x in fa <==> x in t.dfn)
    && (forall x :: x in minn <==> x in t.dfn)
    && (forall x :: x in t.dfn && t.dfn[x] < k ==> fa[x] == x && minn[x] == x)
    && (forall x :: x in t.dfn && t.dfn[x] >= k ==> Linked(t, k, x, fa[x], minn[x]))
  }

  /** Processed nodes have a semidominator candidate that is a proper ancestor; others map to themselves. */
  ghost predicate Semi(t: Numbering, k: nat, sdom: map<int, int>) {
    && (forall x :: x in sdom <==> x in t.dfn)
    && (forall x :: x in t.dfn && t.dfn[x] < k ==> sdom[x] == x)
    && (forall x :: x in t.dfn && t.dfn[x] >= k ==> SdomPath(t, sdom[x], x) && Anc(t, sdom[x], x) && sdom[x] != x)
  }

  /** No child of `w` numbered `kc` or later is an ancestor of `v`. */
  ghost predicate NoDoneChild(t: Numbering, kc: nat, w: int, v: int) {
    forall z :: z in t.dfn && z != t.start && z in t.up && t.up[z] == w && t.dfn[z] >= kc ==> !Anc(t, z, v)
  }

  /**
   * Every processed node waits in the bucket of its semidominator or has a
   * provisional `idom` that is a proper ancestor; a node waits in `w`'s
   * bucket only until the child of `w` above it is processed. Between the
   * two halves of a step `kc` (children) is one more than `kv` (entries).
   */
  ghost predicate Buckets(t: Numbering, kc: nat, kv: nat, sdom: map<int, int>, idom: map<int, int>,
                          aux: map<int, seq<int>>) {
    && (forall x :: x in idom <==> x in t.dfn)
    && (forall x :: x in t.dfn && t.dfn[x] >= kv ==>
          (x in sdom && sdom[x] in aux && x in aux[sdom[x]]) || (Anc(t, idom[x], x) && idom[x] != x))
    && (forall w, v :: w in aux && v in aux[w] ==>
          v in t.dfn && t.dfn[v] >= kv && v in sdom && sdom[v] == w && NoDoneChild(t, kc, w, v))
  }

  /**
   * The three invariants, sealed like `DomGraph.DfsState`, each with a key
   * of its own: methods pass them on, the lemmas below open them. The keys
   * hold for every `n` and mean nothing in the model.
   */
  predicate ForestKey(n: nat) {
    n >= 0
  }

  predicate SemiKey(n: nat) {
    n >= 0
  }

  predicate BucketKey(n: nat) {
    n >= 0
  }

  ghost predicate SForest(t: Numbering, k: nat, fa: map<int, int>, minn: map<int, int>) {
    forall n {:trigger ForestKey(n)} :: ForestKey(n) ==> Forest(t, k, fa, minn)
  }

  ghost predicate SSemi(t: Numbering, k: nat, sdom: map<int, int>) {
    forall n {:trigger SemiKey(n)} :: SemiKey(n) ==> Semi(t, k, sdom)
  }

  ghost predicate SBuckets(t: Numbering, kc: nat, kv: nat, sdom: map<int, int>, idom: map<int, int>,
                           aux: map<int, seq<int>>) {
    forall n {:trigger BucketKey(n)} :: BucketKey(n) ==> Buckets(t, kc, kv, sdom, idom, aux)
  }

  /** What `find` reads at `x`: an unprocessed node is its own root and label. */
  lemma FindCase(t: Numbering, k: nat, fa: map<int, int>, minn: map<int, int>, x: int)
    requires Done(t) && SForest(t, k, fa, minn) && x in t.dfn
    ensures x in fa && x in minn && minn[x] in t.dfn
    ensures fa[x] == x ==> t.dfn[x] < k && minn[x] == x
    ensures fa[x] != x ==> t.dfn[x] >= k && Linked(t, k, x, fa[x], minn[x]) && t.dfn[fa[x]] < t.dfn[x]
  {
    assert ForestKey(0);
    if t.dfn[x] >= k {
      assert Linked(t, k, x, fa[x], minn[x]);
      AncLess(t, fa[x], x);
    }
  }

  /** Semidominators are numbered nodes. */
  lemma SemiDomain(t: Numbering, k: nat, sdom: map<int, int>)
    requires SSemi(t, k, sdom)
    ensures forall z {:trigger sdom[z]} :: z in t.dfn ==> z in sdom && sdom[z] in t.dfn
  {
    assert SemiKey(0);
  }

  /** The semidominator of one numbered node is numbered. */
  lemma SemiAt(t: Numbering, k: nat, sdom: map<int, int>, z: int)
    requires SSemi(t, k, sdom) && z in t.dfn
    ensures z in sdom && sdom[z] in t.dfn
  {
    assert SemiKey(0);
  }

  /** An unprocessed node is alone in its tree, labelled by itself, its own semidominator. */
  lemma Unprocessed(t: Numbering, k: nat, fa: map<int, int>, minn: map<int, int>, sdom: map<int, int>, x: int)
    requires SForest(t, k, fa, minn) && SSemi(t, k, sdom) && x in t.dfn && t.dfn[x] < k
    ensures x in fa && fa[x] == x && x in minn && minn[x] == x && x in sdom && sdom[x] == x
  {
    assert ForestKey(0) && SemiKey(0);
  }

  /** A bucket entry is processed and waits on its semidominator. */
  lemma BucketEntry(t: Numbering, kc: nat, kv: nat, sdom: map<int, int>, idom: map<int, int>,
                    aux: map<int, seq<int>>, w: int, v: int)
    requires SBuckets(t, kc, kv, sdom, idom, aux) && w in aux && v in aux[w]
    ensures v in t.dfn && t.dfn[v] >= kv && v in sdom && sdom[v] == w && v in idom
  {
    assert BucketKey(0);
  }

  /** A node's only descendant-or-self strictly below its parent is itself. */
  lemma BetweenParent(t: Numbering, k: nat, u: int)
    requires Done(t) && u in t.dfn && u != t.start && t.dfn[u] >= k
    ensures u in t.up && Between(t, k, t.up[u], u)
  {
    AncParent(t, u);
    forall z | Anc(t, t.up[u], z) && Anc(t, z, u) && z != t.up[u] ensures t.dfn[z] >= k {
      if z != u {
        AncUp(t, z, u);
        AncAntisym(t, z, t.up[u]);
      }
    }
  }

  lemma BetweenSelf(t: Numbering, k: nat, x: int)
    requires Done(t) && x in t.dfn
    ensures Between(t, k, x, x)
  {
    forall z | Anc(t, x, z) && Anc(t, z, x) ensures z == x {
      AncAntisym(t, x, z);
    }
  }

  /** Before the first step nothing is processed: every link, label and semidominator is the node itself. */
  lemma InitState(t: Numbering, fa: map<int, int>, minn: map<int, int>, sdom: map<int, int>,
                  idom: map<int, int>)
    requires Done(t)
    requires forall x :: x in fa <==> x in t.dfn
    requires forall x :: x in minn <==> x in t.dfn
    requires forall x :: x in sdom <==> x in t.dfn
    requires forall x :: x in idom <==> x in t.dfn
    requires forall x :: x in t.dfn ==> fa[x] == x && minn[x] == x && sdom[x] == x
    ensures Forest(t, |t.dfnrev|, fa, minn) && Semi(t, |t.dfnrev|, sdom)
    ensures Buckets(t, |t.dfnrev|, |t.dfnrev|, sdom, idom, map[])
  {
    forall x | x in t.dfn ensures t.dfn[x] < |t.dfnrev| {
      DfnRev(t, x);
    }
  }

  /** Linking the node numbered `k - 1` to its parent: it becomes processed. */
  lemma ForestLink(t: Numbering, k: nat, fa: map<int, int>, minn: map<int, int>, u: int, fa1: map<int, int>)
    requires Done(t) && Forest(t, k + 1, fa, minn)
    requires u in t.dfn && t.dfn[u] == k && u != t.start
    requires u in t.up && fa1 == fa[u := t.up[u]]
    ensures Forest(t, k, fa1, minn)
  {
    BetweenParent(t, k, u);
    AncRefl(t, u);
    AncParent(t, u);
    forall x | x in t.dfn && t.dfn[x] < k ensures fa1[x] == x && minn[x] == x {
      assert x != u;
    }
    forall x | x in t.dfn && t.dfn[x] >= k ensures Linked(t, k, x, fa1[x], minn[x]) {
      if x != u {
        DfnInjective(t, x, u);
      }
    }
  }

  /** Path compression at `x`: its link moves up to the root `r` and its label to the better one. */
  lemma ForestCompress(t: Numbering, k: nat, fa: map<int, int>, minn: map<int, int>, x: int, r: int, m: int,
                       fa1: map<int, int>, minn1: map<int, int>)
    requires Done(t) && Forest(t, k, fa, minn)
    requires x in t.dfn && t.dfn[x] >= k
    requires Anc(t, r, fa[x]) && t.dfn[r] < k && Between(t, k, r, fa[x])
    requires m == minn[x] || (Anc(t, m, fa[x]) && Anc(t, r, m))
    requires fa1 == fa[x := r] && minn1 == minn[x := m]
    ensures Forest(t, k, fa1, minn1)
    ensures Linked(t, k, x, r, m)
  {
    var y := fa[x];
    assert Linked(t, k, x, y, minn[x]);
    AncTrans(t, r, y, x);
    if m == minn[x] {
      AncTrans(t, r, y, m);
    } else {
      AncTrans(t, m, y, x);
    }
    forall z | Anc(t, r, z) && Anc(t, z, x) && z != r ensures t.dfn[z] >= k {
      if z == y {
        AncRefl(t, y);
      } else {
        AncLinear(t, z, y, x);
      }
    }
    assert Linked(t, k, x, r, m);
    forall x' | x' in t.dfn && t.dfn[x'] >= k ensures Linked(t, k, x', fa1[x'], minn1[x']) {
      if x' != x {
        assert fa1[x'] == fa[x'] && minn1[x'] == minn[x'];
      }
    }
  }

  /**
   * The candidate `find` yields for a processed predecessor `v` of `u`,
   * `sdom[minn[v]]`, is a semidominator candidate for `u`: the tree path
   * from the label `m` down to `v` runs through processed nodes only.
   */
  lemma LabelCandidate(t: Numbering, k: nat, sdom: map<int, int>, u: int, v: int, r: int, m: int)
    requires Done(t) && Semi(t, k, sdom) && u in t.dfn && t.dfn[u] < k && Edge(t.g, v, u)
    requires v in t.dfn && t.dfn[v] >= k && Anc(t, r, v) && t.dfn[r] < k && Between(t, k, r, v)
    requires Anc(t, m, v) && Anc(t, r, m)
    ensures SdomPath(t, sdom[m], u)
  {
    if m == r {
      SdomPathVia(t, r, r, v, u);
    } else {
      forall z | Anc(t, m, z) && Anc(t, z, v) && z != m ensures t.dfn[z] > t.dfn[u] {
        AncTrans(t, r, m, z);
        if z == r {
          AncAntisym(t, m, r);
        }
      }
      SdomPathVia(t, sdom[m], m, v, u);
    }
  }

  /** A semidominator becomes final when its node is processed. */
  lemma SemiSet(t: Numbering, k: nat, sdom: map<int, int>, u: int, s: int, sdom1: map<int, int>)
    requires Done(t) && Semi(t, k + 1, sdom)
    requires u in t.dfn && t.dfn[u] == k && s in t.dfn && t.dfn[s] < k && SdomPath(t, s, u)
    requires sdom1 == sdom[u := s]
    ensures Semi(t, k, sdom1)
  {
    SdomAnc(t, s, u);
    forall x | x in t.dfn && t.dfn[x] >= k
      ensures SdomPath(t, sdom1[x], x) && Anc(t, sdom1[x], x) && sdom1[x] != x
    {
      if x != u {
        DfnInjective(t, x, u);
      }
    }
  }

  /** Appending `u` to the bucket of its semidominator `s`. */
  lemma BucketAdd(t: Numbering, k: nat, sdom: map<int, int>, idom: map<int, int>, aux: map<int, seq<int>>,
                  u: int, s: int, sdom1: map<int, int>, aux1: map<int, seq<int>>)
    requires Done(t) && Buckets(t, k + 1, k + 1, sdom, idom, aux)
    requires u in t.dfn && t.dfn[u] == k && sdom1 == sdom[u := s]
    requires aux1 == aux[s := (if s in aux then aux[s] else []) + [u]]
    ensures Buckets(t, k + 1, k, sdom1, idom, aux1)
  {
    forall w, v | w in aux1 && v in aux1[w]
      ensures v in t.dfn && t.dfn[v] >= k && v in sdom1 && sdom1[v] == w && NoDoneChild(t, k + 1, w, v)
    {
      if v == u {
        assert w == s;
        forall z | z in t.dfn && z != t.start && z in t.up && t.up[z] == w && t.dfn[z] >= k + 1
          ensures !Anc(t, z, v)
        {
        }
      } else {
        assert w in aux && v in aux[w];
      }
    }
    forall x | x in t.dfn && t.dfn[x] >= k
      ensures (x in sdom1 && sdom1[x] in aux1 && x in aux1[sdom1[x]]) || (Anc(t, idom[x], x) && idom[x] != x)
    {
      if x == u {
        assert u in aux1[s];
      } else {
        DfnInjective(t, x, u);
      }
    }
  }

  /** An entry of the bucket of `u`'s parent lies in `u`'s subtree. */
  lemma BucketInSubtree(t: Numbering, k: nat, sdom: map<int, int>, idom: map<int, int>, aux: map<int, seq<int>>,
                        u: int, v: int)
    requires Done(t) && Semi(t, k, sdom) && Buckets(t, k + 1, k, sdom, idom, aux)
    requires u in t.dfn && t.dfn[u] == k && u != t.start && u in t.up
    requires t.up[u] in aux && v in aux[t.up[u]]
    ensures Anc(t, u, v)
  {
    var w := t.up[u];
    assert NoDoneChild(t, k + 1, w, v);
    var c := ChildOnPath(t, w, v);
    assert t.dfn[c] <= k;
    if c != u {
      DfnInjective(t, c, u);
      SiblingsApart(t, c, u);
    }
  }

  /** `find` from inside `u`'s subtree, with `u` linked to its parent, stops at that parent. */
  lemma RootIsParent(t: Numbering, k: nat, u: int, v: int, r: int)
    requires Done(t) && u in t.dfn && t.dfn[u] == k && u != t.start && u in t.up
    requires Anc(t, u, v) && Anc(t, r, v) && t.dfn[r] < k && Between(t, k, r, v)
    ensures r == t.up[u]
  {
    var w := t.up[u];
    AncParent(t, u);
    AncTrans(t, w, u, v);
    AncLinear(t, r, u, v);
    if Anc(t, r, u) {
      AncUp(t, r, u);
    }
  }

  /** Setting the provisional `idom` of a bucket entry keeps the buckets' invariant. */
  lemma BucketsIdom(t: Numbering, kc: nat, kv: nat, sdom: map<int, int>, idom: map<int, int>,
                    aux: map<int, seq<int>>, w: int, v: int, d: int)
    requires Buckets(t, kc, kv, sdom, idom, aux) && w in aux && v in aux[w]
    ensures Buckets(t, kc, kv, sdom, idom[v := d], aux)
  {
  }

  /** Removing the flushed bucket of `u`'s parent finishes the step for `u`. */
  lemma BucketPop(t: Numbering, k: nat, sdom: map<int, int>, idom: map<int, int>, aux: map<int, seq<int>>,
                  u: int, aux1: map<int, seq<int>>)
    requires Done(t) && Buckets(t, k + 1, k, sdom, idom, aux)
    requires u in t.dfn && t.dfn[u] == k && u != t.start && u in t.up
    requires t.up[u] in aux ==> forall v :: v in aux[t.up[u]] ==> v in idom && Anc(t, idom[v], v) && idom[v] != v
    requires aux1 == if t.up[u] in aux then aux - {t.up[u]} else aux
    ensures Buckets(t, k, k, sdom, idom, aux1)
  {
    var w := t.up[u];
    forall w', v | w' in aux1 && v in aux1[w'] ensures NoDoneChild(t, k, w', v) {
      assert w' != w && w' in aux && v in aux[w'];
      assert NoDoneChild(t, k + 1, w', v);
      forall z | z in t.dfn && z != t.start && z in t.up && t.up[z] == w' && t.dfn[z] >= k
        ensures !Anc(t, z, v)
      {
        if t.dfn[z] == k {
          DfnInjective(t, z, u);
        }
      }
    }
  }

  /** After the last step every bucket is empty, so every node but the entry has its provisional `idom`. */
  lemma BucketsDone(t: Numbering, sdom: map<int, int>, idom: map<int, int>, aux: map<int, seq<int>>, x: int)
    requires Done(t) && Semi(t, 1, sdom) && Buckets(t, 1, 1, sdom, idom, aux)
    requires x in t.dfn && x != t.start
    ensures Anc(t, idom[x], x) && idom[x] != x
  {
    StartFirst(t, x);
    if sdom[x] in aux && x in aux[sdom[x]] {
      ChildDone(t, sdom[x], x);
    }
  }

  /** Once every node is processed, the child of `w` above `x` is too: no bucket entry can still wait. */
  lemma ChildDone(t: Numbering, w: int, x: int)
    requires Done(t) && Anc(t, w, x) && w != x
    ensures !NoDoneChild(t, 1, w, x)
  {
    var c := ChildOnPath(t, w, x);
    StartFirst(t, c);
  }

  /*
   * The lemmas above with sealed invariants, for the methods of
   * `DomTree.DomTreeBuilder`, called after the assignments they justify.
   */

  lemma SealedInit(t: Numbering, fa: map<int, int>, minn: map<int, int>, sdom: map<int, int>,
                   idom: map<int, int>)
    requires Done(t)
    requires forall x :: x in fa <==> x in t.dfn
    requires forall x :: x in minn <==> x in t.dfn
    requires forall x :: x in sdom <==> x in t.dfn
    requires forall x :: x in idom <==> x in t.dfn
    requires forall x :: x in t.dfn ==> fa[x] == x && minn[x] == x && sdom[x] == x
    ensures SForest(t, |t.dfnrev|, fa, minn) && SSemi(t, |t.dfnrev|, sdom)
    ensures SBuckets(t, |t.dfnrev|, |t.dfnrev|, sdom, idom, map[])
  {
    InitState(t, fa, minn, sdom, idom);
  }

  lemma SealedLink(t: Numbering, k: nat, fa: map<int, int>, minn: map<int, int>, u: int, fa1: map<int, int>)
    requires Done(t) && SForest(t, k + 1, fa, minn)
    requires u in t.dfn && t.dfn[u] == k && u != t.start
    requires u in t.up && fa1 == fa[u := t.up[u]]
    ensures SForest(t, k, fa1, minn)
  {
    assert ForestKey(0);
    ForestLink(t, k, fa, minn, u, fa1);
  }

  lemma SealedCompress(t: Numbering, k: nat, fa: map<int, int>, minn: map<int, int>, x: int, r: int, m: int,
                       fa1: map<int, int>, minn1: map<int, int>)
    requires Done(t) && SForest(t, k, fa, minn)
    requires x in t.dfn && t.dfn[x] >= k && x in fa && x in minn
    requires Anc(t, r, fa[x]) && t.dfn[r] < k && Between(t, k, r, fa[x])
    requires m == minn[x] || (Anc(t, m, fa[x]) && Anc(t, r, m))
    requires fa1 == fa[x := r] && minn1 == minn[x := m]
    ensures SForest(t, k, fa1, minn1)
    ensures Linked(t, k, x, r, m)
  {
    assert ForestKey(0);
    ForestCompress(t, k, fa, minn, x, r, m, fa1, minn1);
  }

  lemma SealedLabel(t: Numbering, k: nat, sdom: map<int, int>, u: int, v: int, r: int, m: int)
    requires Done(t) && SSemi(t, k, sdom) && u in t.dfn && t.dfn[u] < k && Edge(t.g, v, u)
    requires v in t.dfn && t.dfn[v] >= k && Anc(t, r, v) && t.dfn[r] < k && Between(t, k, r, v)
    requires Anc(t, m, v) && Anc(t, r, m)
    ensures m in sdom && SdomPath(t, sdom[m], u)
  {
    assert SemiKey(0);
    LabelCandidate(t, k, sdom, u, v, r, m);
  }

  /** A predecessor numbered after `u`: the semidominator of its label is a candidate for `u`. */
  lemma SealedCandidate(t: Numbering, k: nat, fa: map<int, int>, minn: map<int, int>, sdom: map<int, int>,
                        u: int, v: int, r: int)
    requires Done(t) && SForest(t, k, fa, minn) && SSemi(t, k, sdom)
    requires u in t.dfn && t.dfn[u] + 1 == k && Edge(t.g, v, u)
    requires v in t.dfn && t.dfn[v] >= t.dfn[u]
    requires Anc(t, r, v) && t.dfn[r] < k && Between(t, k, r, v)
    requires v in minn && Anc(t, minn[v], v) && Anc(t, r, minn[v])
    ensures minn[v] in sdom && sdom[minn[v]] in t.dfn
    ensures t.dfn[sdom[minn[v]]] < |t.dfnrev| && SdomPath(t, t.dfnrev[t.dfn[sdom[minn[v]]]], u)
  {
    SemiAt(t, k, sdom, minn[v]);
    DfnRev(t, sdom[minn[v]]);
    if v == u {
      Unprocessed(t, k, fa, minn, sdom, u);
      SdomPathSelf(t, u);
    } else {
      DfnInjective(t, v, u);
      SealedLabel(t, k, sdom, u, v, r, minn[v]);
    }
  }

  lemma SealedSemiSet(t: Numbering, k: nat, sdom: map<int, int>, u: int, s: int, sdom1: map<int, int>)
    requires Done(t) && SSemi(t, k + 1, sdom)
    requires u in t.dfn && t.dfn[u] == k && s in t.dfn && t.dfn[s] < k && SdomPath(t, s, u)
    requires sdom1 == sdom[u := s]
    ensures SSemi(t, k, sdom1)
  {
    assert SemiKey(0);
    SemiSet(t, k, sdom, u, s, sdom1);
  }

  lemma SealedBucketAdd(t: Numbering, k: nat, sdom: map<int, int>, idom: map<int, int>, aux: map<int, seq<int>>,
                        u: int, s: int, sdom1: map<int, int>, aux1: map<int, seq<int>>)
    requires Done(t) && SBuckets(t, k + 1, k + 1, sdom, idom, aux)
    requires u in t.dfn && t.dfn[u] == k && sdom1 == sdom[u := s]
    requires aux1 == aux[s := (if s in aux then aux[s] else []) + [u]]
    ensures SBuckets(t, k + 1, k, sdom1, idom, aux1)
  {
    assert BucketKey(0);
    BucketAdd(t, k, sdom, idom, aux, u, s, sdom1, aux1);
  }

  lemma SealedInSubtree(t: Numbering, k: nat, sdom: map<int, int>, idom: map<int, int>, aux: map<int, seq<int>>,
                        u: int, v: int)
    requires Done(t) && SSemi(t, k, sdom) && SBuckets(t, k + 1, k, sdom, idom, aux)
    requires u in t.dfn && t.dfn[u] == k && u != t.start && u in t.up
    requires t.up[u] in aux && v in aux[t.up[u]]
    ensures Anc(t, u, v)
  {
    assert SemiKey(0) && BucketKey(0);
    BucketInSubtree(t, k, sdom, idom, aux, u, v);
  }

  lemma SealedIdom(t: Numbering, kc: nat, kv: nat, sdom: map<int, int>, idom: map<int, int>,
                   aux: map<int, seq<int>>, w: int, v: int, d: int, idom1: map<int, int>)
    requires SBuckets(t, kc, kv, sdom, idom, aux) && w in aux && v in aux[w]
    requires idom1 == idom[v := d]
    ensures SBuckets(t, kc, kv, sdom, idom1, aux)
  {
    assert BucketKey(0);
    BucketsIdom(t, kc, kv, sdom, idom, aux, w, v, d);
  }

  lemma SealedPop(t: Numbering, k: nat, sdom: map<int, int>, idom: map<int, int>, aux: map<int, seq<int>>,
                  u: int, aux1: map<int, seq<int>>)
    requires Done(t) && SBuckets(t, k + 1, k, sdom, idom, aux)
    requires u in t.dfn && t.dfn[u] == k && u != t.start && u in t.up
    requires t.up[u] in aux ==> forall v :: v in aux[t.up[u]] ==> v in idom && Anc(t, idom[v], v) && idom[v] != v
    requires aux1 == if t.up[u] in aux then aux - {t.up[u]} else aux
    ensures SBuckets(t, k, k, sdom, idom, aux1)
  {
    assert BucketKey(0);
    BucketPop(t, k, sdom, idom, aux, u, aux1);
  }

  lemma SealedDone(t: Numbering, sdom: map<int, int>, idom: map<int, int>, aux: map<int, seq<int>>)
    requires Done(t) && SSemi(t, 1, sdom) && SBuckets(t, 1, 1, sdom, idom, aux)
    ensures forall x :: x in idom <==> x in t.dfn
    ensures forall x :: x in t.dfn && x != t.start ==> Anc(t, idom[x], x) && idom[x] != x
  {
    assert SemiKey(0) && BucketKey(0);
    forall x | x in t.dfn && x != t.start ensures Anc(t, idom[x], x) && idom[x] != x {
      BucketsDone(t, sdom, idom, aux, x);
    }
  }

  /*
   * What the labels, the semidominators and the provisional `idom`s mean
   * beyond the shapes above: the label of a linked node carries the least
   * semidominator on its compressed path, a processed node's semidominator
   * is the least-numbered candidate, and a provisional `idom` that has been
   * set is one of the two cases of `Dominance.IdomCase`.
   */

  /** The label `m` of `x`, linked to `f`: no node of `(f, x]` has a semidominator numbered before that of `m`. */
  ghost predicate LabelMin(t: Numbering, sdom: map<int, int>, f: int, m: int, x: int) {
    m in sdom && sdom[m] in t.dfn &&
    forall z :: InRange(t, f, z, x) ==> z in sdom && sdom[z] in t.dfn && t.dfn[sdom[m]] <= t.dfn[sdom[z]]
  }

  ghost predicate Labels(t: Numbering, k: nat, fa: map<int, int>, minn: map<int, int>, sdom: map<int, int>) {
    forall x :: x in t.dfn && t.dfn[x] >= k && x in fa && x in minn ==> LabelMin(t, sdom, fa[x], minn[x], x)
  }

  /** The semidominator of every processed node is its candidate of least number. */
  ghost predicate SemiLeast(t: Numbering, k: nat, sdom: map<int, int>) {
    forall x :: x in t.dfn && t.dfn[x] >= k ==>
      x in sdom && sdom[x] in t.dfn && forall w :: w in t.dfn && SdomPath(t, w, x) ==> t.dfn[sdom[x]] <= t.dfn[w]
  }

  /**
   * Unprocessed nodes are their own `idom`; a processed node whose `idom`
   * has been set is in one of the two cases, and its range is processed.
   */
  ghost predicate Idoms(t: Numbering, kv: nat, sdom: map<int, int>, idom: map<int, int>) {
    && (forall x :: x in t.dfn && t.dfn[x] < kv ==> x in idom && idom[x] == x)
    && (forall x :: x in t.dfn && t.dfn[x] >= kv && x in idom && idom[x] != x ==>
          IdomCase(t, sdom, idom, x) && forall z :: InRange(t, sdom[x], z, x) ==> t.dfn[z] >= kv)
  }

  /** Trigger guards like the three above; they hold for every `n` and mean nothing in the model. */
  predicate LabelKey(n: nat) {
    n >= 0
  }

  predicate LeastKey(n: nat) {
    n >= 0
  }

  predicate IdomKey(n: nat) {
    n >= 0
  }

  ghost predicate SLabels(t: Numbering, k: nat, fa: map<int, int>, minn: map<int, int>, sdom: map<int, int>) {
    forall n {:trigger LabelKey(n)} :: LabelKey(n) ==> Labels(t, k, fa, minn, sdom)
  }

  ghost predicate SLeast(t: Numbering, k: nat, sdom: map<int, int>) {
    forall n {:trigger LeastKey(n)} :: LeastKey(n) ==> SemiLeast(t, k, sdom)
  }

  ghost predicate SIdoms(t: Numbering, kv: nat, sdom: map<int, int>, idom: map<int, int>) {
    forall n {:trigger IdomKey(n)} :: IdomKey(n) ==> Idoms(t, kv, sdom, idom)
  }

  /** Before the first step nothing is processed. */
  lemma MeaningInit(t: Numbering, fa: map<int, int>, minn: map<int, int>, sdom: map<int, int>, idom: map<int, int>)
    requires Done(t)
    requires forall x :: x in idom <==> x in t.dfn
    requires forall x :: x in t.dfn ==> idom[x] == x
    ensures SLabels(t, |t.dfnrev|, fa, minn, sdom) && SLeast(t, |t.dfnrev|, sdom) && SIdoms(t, |t.dfnrev|, sdom, idom)
  {
    assert LabelKey(0) && LeastKey(0) && IdomKey(0);
    forall x | x in t.dfn ensures t.dfn[x] < |t.dfnrev| {
      DfnRev(t, x);
    }
  }

  /** The label of an unprocessed root: nothing lies strictly below a node and above it. */
  lemma LabelRoot(t: Numbering, sdom: map<int, int>, x: int)
    requires Done(t) && x in sdom && sdom[x] in t.dfn
    ensures LabelMin(t, sdom, x, x, x)
  {
    forall z | InRange(t, x, z, x) ensures false {
      AncAntisym(t, x, z);
    }
  }

  /** The range below a root `r` of `x` and above `x`, split at `y` between them. */
  lemma LabelJoin(t: Numbering, sdom: map<int, int>, r: int, y: int, x: int, mx: int, my: int, m: int)
    requires Done(t) && LabelMin(t, sdom, y, mx, x) && LabelMin(t, sdom, r, my, y) && Anc(t, r, y) && Anc(t, y, x)
    requires m in sdom && sdom[m] in t.dfn
    requires t.dfn[sdom[m]] <= t.dfn[sdom[mx]] && t.dfn[sdom[m]] <= t.dfn[sdom[my]]
    ensures LabelMin(t, sdom, r, m, x)
  {
    forall z | InRange(t, r, z, x) ensures z in sdom && sdom[z] in t.dfn && t.dfn[sdom[m]] <= t.dfn[sdom[z]] {
      AncLinear(t, z, y, x);
      if z == y {
        AncRefl(t, y);
        assert InRange(t, r, z, y);
      } else if Anc(t, z, y) {
        assert InRange(t, r, z, y);
      } else {
        assert InRange(t, y, z, x);
      }
    }
  }

  /** Path compression at `x`, whose link was `y`: the new label covers the whole path up to the root. */
  lemma SealedLabelsCompress(t: Numbering, k: nat, fa: map<int, int>, minn: map<int, int>, sdom: map<int, int>,
                             x: int, y: int, r: int, m: int, fa1: map<int, int>, minn1: map<int, int>)
    requires Done(t) && SLabels(t, k, fa, minn, sdom)
    requires x in t.dfn && t.dfn[x] >= k && x in fa && x in minn && fa[x] == y && y in minn
    requires Anc(t, r, y) && Anc(t, y, x) && LabelMin(t, sdom, r, minn[y], y)
    requires m in sdom && sdom[m] in t.dfn && minn[x] in sdom && sdom[minn[x]] in t.dfn
    requires t.dfn[sdom[m]] <= t.dfn[sdom[minn[x]]] && t.dfn[sdom[m]] <= t.dfn[sdom[minn[y]]]
    requires fa1 == fa[x := r] && minn1 == minn[x := m]
    ensures SLabels(t, k, fa1, minn1, sdom) && LabelMin(t, sdom, r, m, x)
  {
    assert LabelKey(0);
    LabelJoin(t, sdom, r, y, x, minn[x], minn[y], m);
  }

  /** Setting the semidominator of the node numbered `k` keeps the labels: it can only lower a root's label. */
  lemma LabelsSemiSet(t: Numbering, k: nat, fa: map<int, int>, minn: map<int, int>, sdom: map<int, int>,
                      u: int, s: int, sdom1: map<int, int>)
    requires Done(t) && Forest(t, k + 1, fa, minn) && Labels(t, k + 1, fa, minn, sdom) && Semi(t, k + 1, sdom)
    requires u in t.dfn && t.dfn[u] == k && s in t.dfn && t.dfn[s] < k && sdom1 == sdom[u := s]
    ensures Labels(t, k + 1, fa, minn, sdom1)
  {
    forall x | x in t.dfn && t.dfn[x] >= k + 1 && x in fa && x in minn ensures LabelMin(t, sdom1, fa[x], minn[x], x) {
      assert Linked(t, k + 1, x, fa[x], minn[x]);
      assert LabelMin(t, sdom, fa[x], minn[x], x);
    }
  }

  /** Linking the node numbered `k` to its parent: its label is itself, the only node of its range. */
  lemma LabelsLink(t: Numbering, k: nat, fa: map<int, int>, minn: map<int, int>, sdom: map<int, int>,
                   u: int, fa1: map<int, int>)
    requires Done(t) && Forest(t, k + 1, fa, minn) && Labels(t, k + 1, fa, minn, sdom)
    requires u in t.dfn && t.dfn[u] == k && u != t.start && u in t.up && fa1 == fa[u := t.up[u]]
    requires u in sdom && sdom[u] in t.dfn
    ensures Labels(t, k, fa1, minn, sdom)
  {
    AncParent(t, u);
    forall z | InRange(t, t.up[u], z, u) ensures z == u {
      if z != u {
        AncUp(t, z, u);
        AncAntisym(t, z, t.up[u]);
      }
    }
    forall x | x in t.dfn && t.dfn[x] >= k && x in fa1 && x in minn ensures LabelMin(t, sdom, fa1[x], minn[x], x) {
      if x != u {
        DfnInjective(t, x, u);
      }
    }
  }

  /** The step for the node numbered `k`: its semidominator is set, then it is linked to its parent. */
  lemma SealedMeaningStep(t: Numbering, k: nat, fa: map<int, int>, minn: map<int, int>, sdom: map<int, int>,
                          idom: map<int, int>, u: int, s: int, sdom1: map<int, int>, fa1: map<int, int>)
    requires Done(t) && SForest(t, k + 1, fa, minn) && SSemi(t, k + 1, sdom)
    requires SLabels(t, k + 1, fa, minn, sdom) && SLeast(t, k + 1, sdom) && SIdoms(t, k + 1, sdom, idom)
    requires u in t.dfn && t.dfn[u] == k && u != t.start && u in t.up && s in t.dfn && t.dfn[s] < k
    requires forall w :: w in t.dfn && SdomPath(t, w, u) ==> t.dfn[s] <= t.dfn[w]
    requires sdom1 == sdom[u := s] && fa1 == fa[u := t.up[u]]
    ensures SLabels(t, k, fa1, minn, sdom1) && SLeast(t, k, sdom1) && SIdoms(t, k, sdom1, idom)
  {
    assert ForestKey(0) && SemiKey(0) && LabelKey(0) && LeastKey(0) && IdomKey(0);
    LabelsSemiSet(t, k, fa, minn, sdom, u, s, sdom1);
    LabelsLink(t, k, fa, minn, sdom1, u, fa1);
    LeastSet(t, k, sdom, u, s, sdom1);
    IdomsSet(t, k, sdom, idom, u, s, sdom1);
  }

  lemma LeastSet(t: Numbering, k: nat, sdom: map<int, int>, u: int, s: int, sdom1: map<int, int>)
    requires Done(t) && SemiLeast(t, k + 1, sdom)
    requires u in t.dfn && t.dfn[u] == k && s in t.dfn
    requires forall w :: w in t.dfn && SdomPath(t, w, u) ==> t.dfn[s] <= t.dfn[w]
    requires sdom1 == sdom[u := s]
    ensures SemiLeast(t, k, sdom1)
  {
    forall x | x in t.dfn && t.dfn[x] >= k && x != u ensures t.dfn[x] >= k + 1 {
      DfnInjective(t, x, u);
    }
  }

  /** Setting a semidominator outside `x` and its range keeps `x`'s case. */
  lemma IdomCaseFrame(t: Numbering, sdom: map<int, int>, idom: map<int, int>, x: int, u: int, s: int,
                      sdom1: map<int, int>)
    requires IdomCase(t, sdom, idom, x) && x != u && sdom1 == sdom[u := s]
    requires forall z :: InRange(t, sdom[x], z, x) ==> z != u
    ensures IdomCase(t, sdom1, idom, x)
  {
  }

  lemma IdomsSet(t: Numbering, k: nat, sdom: map<int, int>, idom: map<int, int>, u: int, s: int, sdom1: map<int, int>)
    requires Done(t) && Idoms(t, k + 1, sdom, idom)
    requires u in t.dfn && t.dfn[u] == k && sdom1 == sdom[u := s]
    ensures Idoms(t, k, sdom1, idom)
  {
    forall x | x in t.dfn && t.dfn[x] >= k && x in idom && idom[x] != x
      ensures IdomCase(t, sdom1, idom, x) && forall z :: InRange(t, sdom1[x], z, x) ==> t.dfn[z] >= k
    {
      if x != u {
        DfnInjective(t, x, u);
        IdomCaseFrame(t, sdom, idom, x, u, s, sdom1);
      }
    }
  }

  /**
   * What the bucket pass sets for an entry `v` of the bucket of `w`, its
   * semidominator, once `find(v)` has stopped at `w` with label `m`: `w`
   * when `m`'s semidominator is `w`, `m` otherwise.
   */
  lemma FlushCase(t: Numbering, k: nat, sdom: map<int, int>, idom: map<int, int>, w: int, v: int, m: int)
    requires Done(t) && Semi(t, k, sdom) && w in t.dfn && t.dfn[w] < k && v in sdom && sdom[v] == w
    requires Anc(t, w, v) && w != v && Between(t, k, w, v) && Anc(t, w, m) && Anc(t, m, v)
    requires LabelMin(t, sdom, w, m, v)
    requires v in idom && idom[v] == if sdom[m] == w then w else m
    ensures IdomCase(t, sdom, idom, v) && idom[v] != v
    ensures forall z :: InRange(t, sdom[v], z, v) ==> t.dfn[z] >= k
  {
    AncRefl(t, v);
    assert InRange(t, w, v, v);
    if sdom[m] != w {
      DfnInjective(t, sdom[m], w);
    }
  }

  /** Setting the provisional `idom` of one bucket entry. */
  lemma SealedIdomsFlush(t: Numbering, k: nat, sdom: map<int, int>, idom: map<int, int>, w: int, v: int, m: int,
                         idom1: map<int, int>)
    requires Done(t) && SSemi(t, k, sdom) && SIdoms(t, k, sdom, idom)
    requires w in t.dfn && t.dfn[w] < k && v in t.dfn && t.dfn[v] >= k && v in sdom && sdom[v] == w
    requires Between(t, k, w, v) && Anc(t, w, m) && Anc(t, m, v)
    requires LabelMin(t, sdom, w, m, v)
    requires idom1 == idom[v := if sdom[m] == w then w else m]
    ensures SIdoms(t, k, sdom, idom1)
  {
    assert SemiKey(0) && IdomKey(0);
    FlushCase(t, k, sdom, idom1, w, v, m);
    IdomsSetOne(t, k, sdom, idom, v, idom1);
  }

  /** Setting one processed entry's `idom` to a value in its case keeps every other entry's case. */
  lemma IdomsSetOne(t: Numbering, k: nat, sdom: map<int, int>, idom: map<int, int>, v: int, idom1: map<int, int>)
    requires Idoms(t, k, sdom, idom) && v in t.dfn && t.dfn[v] >= k && v in idom1 && idom1 == idom[v := idom1[v]]
    requires IdomCase(t, sdom, idom1, v) && idom1[v] != v
    requires forall z :: InRange(t, sdom[v], z, v) ==> t.dfn[z] >= k
    ensures Idoms(t, k, sdom, idom1)
  {
    forall x | x in t.dfn && t.dfn[x] >= k && x in idom1 && idom1[x] != x && x != v
      ensures IdomCase(t, sdom, idom1, x)
    {
      assert IdomCase(t, sdom, idom, x);
    }
  }

  /** After the last step: the semidominators and the provisional `idom`s in full. */
  lemma SealedMeaningDone(t: Numbering, sdom: map<int, int>, idom: map<int, int>)
    requires Done(t) && SSemi(t, 1, sdom) && SLeast(t, 1, sdom) && SIdoms(t, 1, sdom, idom)
    requires forall x :: x in t.dfn && x != t.start ==> x in idom && idom[x] != x
    ensures SemiFinal(t, sdom) && Cases(t, sdom, idom)
  {
    assert SemiKey(0) && LeastKey(0) && IdomKey(0);
    forall x | x in t.dfn && x != t.start ensures IsSdom(t, sdom, x) && IdomCase(t, sdom, idom, x) {
      StartFirst(t, x);
    }
  }

  /**
   * The candidate number `sd` of `u` is no later than any candidate the
   * predecessor `v` contributes: `v` itself when numbered before `u`, the
   * semidominator of any ancestor of `v` numbered after `u` otherwise.
   */
  ghost predicate CoveredBy(t: Numbering, sdom: map<int, int>, sd: int, u: int, v: int) {
    && v in t.dfn && u in t.dfn
    && (t.dfn[v] < t.dfn[u] ==> sd <= t.dfn[v])
    && (forall z :: Anc(t, z, v) && t.dfn[z] > t.dfn[u] ==> z in sdom && sdom[z] in t.dfn && sd <= t.dfn[sdom[z]])
  }

  /** A predecessor numbered before `u` is covered once `sd` is at most its number. */
  lemma CoveredBelow(t: Numbering, sdom: map<int, int>, sd: int, u: int, v: int)
    requires Done(t) && u in t.dfn && v in t.dfn && t.dfn[v] < t.dfn[u] && sd <= t.dfn[v]
    ensures CoveredBy(t, sdom, sd, u, v)
  {
    forall z | Anc(t, z, v) && z != v ensures t.dfn[z] < t.dfn[v] {
      AncLess(t, z, v);
    }
  }

  /**
   * A predecessor numbered after `u`, whose `find` stopped at a root `r`
   * not after `u` with label `m`, is covered once `sd` is at most the
   * number of `m`'s semidominator.
   */
  lemma CoveredAbove(t: Numbering, sdom: map<int, int>, sd: int, u: int, v: int, r: int, m: int)
    requires Done(t) && u in t.dfn && v in t.dfn && t.dfn[v] >= t.dfn[u]
    requires Anc(t, r, v) && t.dfn[r] <= t.dfn[u] && LabelMin(t, sdom, r, m, v) && sd <= t.dfn[sdom[m]]
    ensures CoveredBy(t, sdom, sd, u, v)
  {
    forall z | Anc(t, z, v) && t.dfn[z] > t.dfn[u] ensures InRange(t, r, z, v) {
      AncLinear(t, r, z, v);
      if !Anc(t, r, z) {
        AncLess(t, z, r);
      }
    }
  }

  /** Lowering `sd` keeps a predecessor covered. */
  lemma CoveredLower(t: Numbering, sdom: map<int, int>, sd: int, sd1: int, u: int, v: int)
    requires CoveredBy(t, sdom, sd, u, v) && sd1 <= sd
    ensures CoveredBy(t, sdom, sd1, u, v)
  {
  }

  /**
   * The semidominator of `u`, numbered `k`, is the candidate of least
   * number once every predecessor is covered: a candidate path enters `u`
   * from a predecessor numbered before `u` or from below a processed
   * ancestor of a later predecessor.
   */
  lemma LeastCandidate(t: Numbering, k: nat, sdom: map<int, int>, preds: seq<int>, u: int, sd: int)
    requires Done(t) && SLeast(t, k + 1, sdom) && u in t.dfn && t.dfn[u] == k && sd < k
    requires forall v :: Edge(t.g, v, u) && v in t.dfn ==> v in preds
    requires forall v :: v in preds && v in t.dfn ==> CoveredBy(t, sdom, sd, u, v)
    ensures forall w :: w in t.dfn && SdomPath(t, w, u) ==> sd <= t.dfn[w]
  {
    assert LeastKey(0);
    forall w | w in t.dfn && SdomPath(t, w, u) && t.dfn[w] < k ensures sd <= t.dfn[w] {
      var v, z := CandidateSplit(t, w, u);
      assert CoveredBy(t, sdom, sd, u, v);
      if v != w {
        assert SdomPath(t, w, z) && t.dfn[z] >= k + 1;
      }
    }
  }
}
