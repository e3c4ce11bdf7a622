/**
 * `dom_path`, filled by the nested `dfs_dom_tree` of `__build_dom_tree`
 * (src/analyze/cfg.py and src/cfg.py): for every node of the dominator
 * tree, the nodes from the entry down to it.
 */
module DomPaths {
  import opened IdomTree

  /** The nodes from the root of `tr` down to `x`, when `x` is in `tr`. */
  ghost function Chain(tr: Tree, x: int): seq<int>
    decreases tr
  {
    if tr.node == x then [x] else [tr.node] + ChainKids(tr.kids, x)
  }

  /** The chain to `x` in the first tree of `ks` holding it. */
  ghost function ChainKids(ks: seq<Tree>, x: int): seq<int>
    decreases ks
  {
    if ks == [] then []
    else if Count(ks[0], x) > 0 then Chain(ks[0], x)
    else ChainKids(ks[1..], x)
  }

  /** A tree in the list holds no more copies of `x` than the whole list. */
  lemma {:induction false} CountKidsAt(ks: seq<Tree>, i: nat, x: int)
    requires i < |ks|
    ensures Count(ks[i], x) <= CountKids(ks, x)
    decreases i
  {
    if i > 0 {
      CountKidsAt(ks[1..], i - 1, x);
    }
  }

  /** `x` is in the list exactly when some tree of it holds `x`. */
  lemma {:induction false} CountKidsSome(ks: seq<Tree>, x: int)
    requires CountKids(ks, x) > 0
    ensures exists i :: 0 <= i < |ks| && Count(ks[i], x) > 0
    decreases |ks|
  {
    if Count(ks[0], x) == 0 {
      CountKidsSome(ks[1..], x);
      var i :| 0 <= i < |ks[1..]| && Count(ks[1..][i], x) > 0;
      assert ks[i + 1] == ks[1..][i];
    }
  }

  /** Appending a tree: the chain stays the list's when the list held `x`, else it is the new tree's. */
  lemma {:induction false} ChainKidsAppend(ks: seq<Tree>, k: Tree, x: int)
    ensures ChainKids(ks + [k], x) ==
      if CountKids(ks, x) > 0 then ChainKids(ks, x) else if Count(k, x) > 0 then Chain(k, x) else []
    decreases |ks|
  {
    if ks == [] {
      assert ([k])[1..] == [];
    } else {
      assert (ks + [k])[0] == ks[0];
      assert (ks + [k])[1..] == ks[1..] + [k];
      ChainKidsAppend(ks[1..], k, x);
    }
  }

  /** The chain to a node held once by the list is its chain in the tree that holds it. */
  lemma {:induction false} ChainKidsAt(ks: seq<Tree>, i: nat, x: int)
    requires i < |ks| && Count(ks[i], x) > 0 && CountKids(ks, x) <= 1
    ensures ChainKids(ks, x) == Chain(ks[i], x)
    decreases i
  {
    if i > 0 {
      CountKidsAt(ks[1..], i - 1, x);
      assert ks[1..][i - 1] == ks[i];
      ChainKidsAt(ks[1..], i - 1, x);
    }
  }

  /** Every node of a tree holding each node once is held once by one subtree. */
  lemma KidsUnique(tr: Tree, k: nat)
    requires forall y :: Count(tr, y) <= 1
    requires k < |tr.kids|
    ensures forall y :: Count(tr.kids[k], y) <= 1
    ensures Count(tr.kids[k], tr.node) == 0
  {
    forall y ensures Count(tr.kids[k], y) <= 1 {
      CountKidsAt(tr.kids, k, y);
      assert Count(tr, y) == (if tr.node == y then 1 else 0) + CountKids(tr.kids, y);
    }
    CountKidsAt(tr.kids, k, tr.node);
    assert Count(tr, tr.node) == 1 + CountKids(tr.kids, tr.node);
  }

  /**
   * After the first `k` children of `tr`: `tr`'s node has `path`, every node
   * of those children has `path` and its chain below `tr`'s node, and every
   * other entry of `paths` is kept.
   */
  ghost predicate Filled(tr: Tree, k: nat, path: seq<int>, paths: map<int, seq<int>>, cur: map<int, seq<int>>)
    requires k <= |tr.kids|
  {
    var done := tr.kids[..k];
    && (forall x :: x in cur <==> x in paths || x == tr.node || CountKids(done, x) > 0)
    && tr.node in cur && cur[tr.node] == path && CountKids(done, tr.node) == 0
    && (forall x :: CountKids(done, x) > 0 ==> cur[x] == path + ChainKids(done, x))
    && (forall x :: x in paths && x != tr.node && CountKids(done, x) == 0 ==> cur[x] == paths[x])
  }

  /** Filling the `k`-th child's subtree extends `Filled` to `k + 1` children. */
  lemma FilledStep(tr: Tree, k: nat, path: seq<int>, paths: map<int, seq<int>>, cur: map<int, seq<int>>, next: map<int, seq<int>>)
    requires forall x :: Count(tr, x) <= 1
    requires k < |tr.kids| && Filled(tr, k, path, paths, cur)
    requires forall x :: x in next <==> x in cur || Count(tr.kids[k], x) > 0
    requires forall x :: Count(tr.kids[k], x) > 0 ==> next[x] == path + Chain(tr.kids[k], x)
    requires forall x :: x in cur && Count(tr.kids[k], x) == 0 ==> next[x] == cur[x]
    ensures Filled(tr, k + 1, path, paths, next)
  {
    var done, child, done' := tr.kids[..k], tr.kids[k], tr.kids[..k + 1];
    assert done' == done + [child];
    KidsUnique(tr, k);
    forall x ensures CountKids(done', x) == CountKids(done, x) + Count(child, x) {
      CountKidsAppend(done, child, x);
    }
    forall x ensures ChainKids(done', x) ==
      if CountKids(done, x) > 0 then ChainKids(done, x) else if Count(child, x) > 0 then Chain(child, x) else []
    {
      ChainKidsAppend(done, child, x);
    }
    forall x ensures CountKids(done', x) <= 1 {
      CountPrefix(tr, k + 1, x);
    }
  }

  /**
   * Lines 175-178: `dom_path[u] = path`, then the same for each child `v`
   * with `path + [v]`. Every node of `tr` gets the path down to `u`
   * followed by its chain below `u`; other entries are kept.
   */
  method DfsDomTree(tr: Tree, path: seq<int>, paths: map<int, seq<int>>) returns (paths': map<int, seq<int>>)
    requires forall x :: Count(tr, x) <= 1
    requires |path| > 0 && path[|path| - 1] == tr.node
    ensures forall x :: x in paths' <==> x in paths || Count(tr, x) > 0
    ensures forall x :: Count(tr, x) > 0 ==> paths'[x] == path[..|path| - 1] + Chain(tr, x)
    ensures forall x :: x in paths && Count(tr, x) == 0 ==> paths'[x] == paths[x]
    decreases tr
  {
    paths' := paths[tr.node := path];
    assert tr.kids[..0] == [];
    var k := 0;
    while k < |tr.kids|
      invariant k <= |tr.kids| && Filled(tr, k, path, paths, paths')
    {
      var child := tr.kids[k];
      KidsUnique(tr, k);
      var next := DfsDomTree(child, path + [child.node], paths');
      assert (path + [child.node])[..|path|] == path;
      FilledStep(tr, k, path, paths, paths', next);
      paths' := next;
      k := k + 1;
    }
    FilledAll(tr, path, paths, paths');
  }

  /** All children filled: every node of `tr` has its path. */
  lemma FilledAll(tr: Tree, path: seq<int>, paths: map<int, seq<int>>, cur: map<int, seq<int>>)
    requires |path| > 0 && path[|path| - 1] == tr.node
    requires Filled(tr, |tr.kids|, path, paths, cur)
    ensures forall x :: x in cur <==> x in paths || Count(tr, x) > 0
    ensures forall x :: Count(tr, x) > 0 ==> cur[x] == path[..|path| - 1] + Chain(tr, x)
    ensures forall x :: x in paths && Count(tr, x) == 0 ==> cur[x] == paths[x]
  {
    assert tr.kids[..|tr.kids|] == tr.kids;
    assert path == path[..|path| - 1] + [tr.node];
    forall x | Count(tr, x) > 0 ensures cur[x] == path[..|path| - 1] + Chain(tr, x) {
      if x != tr.node {
        assert Chain(tr, x) == [tr.node] + ChainKids(tr.kids, x);
      }
    }
  }

  /** A prefix of the children holds each node at most as often as the tree. */
  lemma CountPrefix(tr: Tree, k: nat, x: int)
    requires k <= |tr.kids|
    ensures CountKids(tr.kids[..k], x) <= Count(tr, x)
  {
    CountKidsSplit(tr.kids, k, x);
  }

  /** Splitting the list splits the count. */
  lemma {:induction false} CountKidsSplit(ks: seq<Tree>, k: nat, x: int)
    requires k <= |ks|
    ensures CountKids(ks, x) == CountKids(ks[..k], x) + CountKids(ks[k..], x)
    decreases |ks| - k
  {
    if k < |ks| {
      CountKidsSplit(ks, k + 1, x);
      CountKidsAppend(ks[..k], ks[k], x);
      assert ks[..k + 1] == ks[..k] + [ks[k]];
      assert ks[k..][1..] == ks[k + 1..];
    } else {
      assert ks[..k] == ks;
      assert ks[k..] == [];
    }
  }

  /** The chain to a node of the tree runs from the root to that node. */
  lemma {:induction false} ChainEnds(tr: Tree, x: int)
    requires Count(tr, x) > 0
    ensures |Chain(tr, x)| > 0 && Chain(tr, x)[0] == tr.node && Chain(tr, x)[|Chain(tr, x)| - 1] == x
    decreases tr
  {
    if tr.node != x {
      ChainKidsPick(tr.kids, x);
      var k := tr.kids[FirstHolder(tr.kids, x)];
      ChainEnds(k, x);
    }
  }

  /** The index of the first tree of `ks` holding `x`. */
  ghost function FirstHolder(ks: seq<Tree>, x: int): (i: nat)
    requires CountKids(ks, x) > 0
    ensures i < |ks| && Count(ks[i], x) > 0
    decreases |ks|
  {
    if Count(ks[0], x) > 0 then 0 else FirstHolder(ks[1..], x) + 1
  }

  /** The chain in a list is the chain in the first tree holding `x`. */
  lemma {:induction false} ChainKidsPick(ks: seq<Tree>, x: int)
    requires CountKids(ks, x) > 0
    ensures ChainKids(ks, x) == Chain(ks[FirstHolder(ks, x)], x)
    decreases |ks|
  {
    if Count(ks[0], x) == 0 {
      ChainKidsPick(ks[1..], x);
    }
  }

  /**
   * In a tree whose every child's `idom` is its parent, the chain to a node
   * below the root is the chain to its `idom` followed by the node: the
   * `dom_path` of `x` extends the `dom_path` of its immediate dominator.
   */
  lemma {:induction false} ChainIdom(tr: Tree, start: int, idom: map<int, int>, x: int)
    requires forall y :: Count(tr, y) <= 1
    requires Parented(tr, start, idom)
    requires Count(tr, x) > 0 && x != tr.node
    ensures x in idom && Count(tr, idom[x]) > 0
    ensures Chain(tr, x) == Chain(tr, idom[x]) + [x]
    decreases tr
  {
    var kids := tr.kids;
    assert Count(tr, x) == CountKids(kids, x);
    CountKidsSome(kids, x);
    var i :| 0 <= i < |kids| && Count(kids[i], x) > 0;
    var k := kids[i];
    ChainKidsAt(kids, i, x);
    KidsUnique(tr, i);
    assert k.node in idom && idom[k.node] == tr.node && Parented(k, start, idom);
    if x == k.node {
      assert Count(tr, tr.node) > 0;
    } else {
      ChainIdom(k, start, idom, x);
      var d := idom[x];
      CountKidsAt(kids, i, d);
      assert Count(tr, d) == (if tr.node == d then 1 else 0) + CountKids(kids, d);
      ChainKidsAt(kids, i, d);
    }
  }
}
