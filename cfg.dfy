/**
 * `cfg_builder` of src/analyze/cfg.py: the control-flow graph of one
 * function over basic blocks, labelled with source positions, its strongly
 * connected components, its dominator tree and the dominator path of every
 * block.
 */
module Cfg {
  import opened Wrappers
  import opened BbUtils
  import opened DomGraph
  import opened DfsFacts
  import opened Tarjan
  import opened IdomTree
  import opened DomTree
  import opened DomPaths
  import opened CfgGraph
  import opened Dominance

  /** A node with no incoming edge: a candidate entry of the function. */
  ghost predicate IsEntry(t: Graph, x: int) {
    x in Nodes(t) && forall u :: !Edge(t, u, x)
  }

  /** The graph with the edge labels dropped, as `trimmed_graph` holds it. */
  ghost function Plain(g: LGraph): Graph {
    map u | u in g.edges :: Firsts(g.edges[u])
  }

  /** What `Trim` returns is `Plain`. */
  lemma PlainOf(t: Graph, g: LGraph)
    requires t.Keys == g.edges.Keys
    requires forall u :: u in t ==> t[u] == Firsts(g.edges[u])
    ensures t == Plain(g)
  {
    assert forall u :: u in t <==> u in Plain(g);
    assert forall u :: u in t ==> t[u] == Plain(g)[u];
  }

  /** A zero in-degree entry is exactly a node with no incoming edge. */
  lemma EntryIff(t: Graph, order: seq<int>, deg: map<int, nat>)
    requires forall u :: u in order <==> u in t
    requires forall x :: x in deg <==> x in Touched(t, order)
    requires forall x :: x in deg ==> deg[x] == InCount(t, order, x)
    ensures forall x :: (x in deg && deg[x] == 0) <==> IsEntry(t, x)
  {
    forall x ensures (x in deg && deg[x] == 0) <==> IsEntry(t, x) {
      TouchedNodes(t, order, x);
      InDegreeZero(t, order, x);
    }
  }

  /** There is exactly one entry. */
  ghost predicate OneEntry(t: Graph) {
    exists x :: IsEntry(t, x) && forall y :: IsEntry(t, y) ==> y == x
  }

  /** There are two entries. */
  ghost predicate TwoEntries(t: Graph) {
    exists x, y :: IsEntry(t, x) && IsEntry(t, y) && x != y
  }

  /**
   * The outcome of the entry search of `__build_dom_tree`: success with one
   * entry, "No entry node" with none, "Multiple entry nodes" with more.
   */
  ghost predicate EntryOutcome<T>(t: Graph, res: Result<T, CfgError>) {
    && (res.Ok? <==> OneEntry(t))
    && (res == Err(NoEntry) <==> forall x :: !IsEntry(t, x))
    && (res == Err(MultipleEntries) <==> TwoEntries(t))
  }

  /**
   * The shape of what `__build_dom_tree` leaves: the tree holds each node
   * reachable from the entry once and every child's `idom` is its parent;
   * `dom_path` has exactly the reachable nodes, each path runs from the
   * entry to the node down the tree and extends the path of the node's
   * `idom`.
   */
  ghost predicate PathShape(t: Graph, entry: int, tree: Tree, idom: map<int, int>, paths: map<int, seq<int>>) {
    && tree.node == entry
    && (forall x :: Count(tree, x) == if Reachable(t, entry, x) then 1 else 0)
    && Parented(tree, entry, idom)
    && (forall x :: x in paths <==> Reachable(t, entry, x))
    && (forall x :: x in paths ==>
          paths[x] == Chain(tree, x) && |paths[x]| > 0 && paths[x][0] == entry && paths[x][|paths[x]| - 1] == x)
    && (forall x :: x in paths && x != entry ==>
          x in idom && idom[x] in paths && paths[x] == paths[idom[x]] + [x])
  }

  /**
   * What `__build_dom_tree` leaves, with its meaning: the shape above, every
   * reachable node's `idom` is its immediate dominator, and the path of a
   * reachable node lists exactly the nodes that dominate it.
   */
  ghost predicate DomFacts(t: Graph, entry: int, tree: Tree, idom: map<int, int>, paths: map<int, seq<int>>) {
    && PathShape(t, entry, tree, idom, paths)
    && (forall x :: Reachable(t, entry, x) && x != entry ==> x in idom && IsIdom(t, entry, idom[x], x))
    && (forall x, d :: x in paths ==> (d in paths[x] <==> Dominates(t, entry, d, x)))
  }

  /** The paths `dfs_dom_tree` fills from the root have the shape of `PathShape`. */
  lemma PathFacts(t: Graph, entry: int, tree: Tree, idom: map<int, int>, paths: map<int, seq<int>>)
    requires tree.node == entry
    requires forall x :: Count(tree, x) == if Reachable(t, entry, x) then 1 else 0
    requires Parented(tree, entry, idom)
    requires forall x :: x in paths <==> Count(tree, x) > 0
    requires forall x :: x in paths ==> paths[x] == Chain(tree, x)
    ensures PathShape(t, entry, tree, idom, paths)
  {
    forall x | x in paths
      ensures |paths[x]| > 0 && paths[x][0] == entry && paths[x][|paths[x]| - 1] == x
    {
      ChainEnds(tree, x);
    }
    forall x | x in paths && x != entry
      ensures x in idom && idom[x] in paths && paths[x] == paths[idom[x]] + [x]
    {
      ChainIdom(tree, entry, idom, x);
    }
  }

  /**
   * The path of a reachable node lists exactly its dominators: the entry's
   * path is the entry alone, and every other path extends that of the
   * node's immediate dominator by the node.
   */
  lemma {:induction false} PathDominators(num: Numbering, t: Graph, entry: int, tree: Tree, idom: map<int, int>,
                                          paths: map<int, seq<int>>, x: int)
    requires Done(num) && num.g == t && num.start == entry && Proper(num, idom)
    requires PathShape(t, entry, tree, idom, paths)
    requires forall y :: Reachable(t, entry, y) && y != entry ==> y in idom && IsIdom(t, entry, idom[y], y)
    requires x in paths
    ensures forall d :: d in paths[x] <==> Dominates(t, entry, d, x)
    decreases if x in num.dfn then num.dfn[x] else 0
  {
    NumberedIffReachable(num, x);
    if x == entry {
      assert paths[x] == [entry];
      forall d ensures d in paths[x] <==> Dominates(t, entry, d, x) {
        DomEntry(t, entry, d);
      }
    } else {
      var i := idom[x];
      AncLess(num, i, x);
      NumberedIffReachable(num, i);
      PathDominators(num, t, entry, tree, idom, paths, i);
      forall d ensures d in paths[x] <==> Dominates(t, entry, d, x) {
        DomOfIdom(t, entry, i, x, d);
      }
    }
  }

  /**
   * Lines 150-166: the in-degree of every node of the graph without labels,
   * then the single node whose in-degree is zero, or the error.
   */
  method EntryOf(t: Graph, order: seq<int>) returns (res: Result<int, CfgError>)
    requires forall u :: u in order <==> u in t
    ensures EntryOutcome(t, res)
    ensures res.Ok? ==> IsEntry(t, res.value)
  {
    var deg, keys := NodeInDegree(t, order);
    EntryIff(t, order, deg);
    res := FindEntry(keys, deg);
  }

  /**
   * Lines 173-179: the dominator tree from the entry, then `dom_path` by a
   * walk of that tree starting with the path `[entry]`.
   */
  method DomOf(t: Graph, e: int) returns (tree: Tree, paths: map<int, seq<int>>, ghost num: Numbering, ghost idom: map<int, int>)
    ensures Done(num) && num.g == t && num.start == e && Proper(num, idom)
    ensures DomFacts(t, e, tree, idom, paths)
  {
    tree, num, idom := BuildDomTree(t, e);
    paths := DfsDomTree(tree, [e], map[]);
    assert forall x :: Count(tree, x) > 0 ==> paths[x] == [e][..0] + Chain(tree, x);
    PathFacts(t, e, tree, idom, paths);
    forall x | x in paths ensures forall d :: d in paths[x] <==> Dominates(t, e, d, x) {
      PathDominators(num, t, e, tree, idom, paths, x);
    }
  }

  /**
   * What the analysis of a lifted graph yields: `t` is the graph without
   * labels, `f` the components of Tarjan's runs from every graph key, `e`
   * the single entry, and the dominator tree and paths from `e`.
   */
  ghost predicate Analysed(g: LGraph, t: Graph, f: Found, e: int, num: Numbering, idom: map<int, int>, tree: Tree, paths: map<int, seq<int>>) {
    && t == Plain(g)
    && Tallied(t, g.order, f)
    && IsEntry(t, e)
    && Done(num) && num.g == t && num.start == e && Proper(num, idom)
    && DomFacts(t, e, tree, idom, paths)
  }

  /**
   * Lines 62-75 and 148-179 on a lifted graph: Tarjan's runs from every
   * graph key (the keys of the tuple-keyed in-degree with in-degree zero),
   * then `__build_dom_tree`: the entry (or the error), the dominator tree
   * and the paths.
   */
  method Analyse(g: LGraph) returns (res: Result<Found, CfgError>, ghost t: Graph, tree: Tree, paths: map<int, seq<int>>,
                                     e: int, ghost num: Numbering, ghost idom: map<int, int>)
    requires Shaped(g)
    ensures t == Plain(g)
    ensures EntryOutcome(t, res)
    ensures res.Ok? ==> Analysed(g, t, res.value, e, num, idom, tree, paths)
  {
    var seeds := TarjanSeeds(g);
    var trimmed := Trim(g);
    PlainOf(trimmed, g);
    t := trimmed;
    var f := Sccs(trimmed, seeds);
    var found := EntryOf(trimmed, g.order);
    if found.Err? {
      return Err(found.error), t, Tree(0, []), map[], 0, Numbering(t, 0, map[], [], map[], map[]), map[];
    }
    e := found.value;
    tree, paths, num, idom := DomOf(trimmed, e);
    res := Ok(f);
  }

  class CfgBuilder {
    var symbolName: string
    /** The lifted graph: block start to its `(target, label)` edges, keys in insertion order. */
    var graph: LGraph
    var dwarfIndex: DwarfIndex
    var bbSymbol: Blocks
    var scc: map<int, seq<int>>
    var sccBelongs: map<int, int>
    var domTree: Tree
    var domPath: map<int, seq<int>>
    /** The graph without labels, the entry and the dominator facts behind the tree. */
    ghost var trimmed: Graph
    ghost var entry: int
    ghost var num: Numbering
    ghost var idom: map<int, int>

    /** Everything `__init__` establishes on success, for these inputs. */
    ghost predicate Built(bs: BasicBlockSize, bb: map<string, Blocks>, trans: seq<(int, seq<int>)>, symbol: string, index: DwarfIndex)
      reads this, bs
      requires bs.Valid() && IndexOk(index)
    {
      && symbolName == symbol && dwarfIndex == index
      && symbol in bb && bbSymbol == bb[symbol]
      && LiftAll(bs, bbSymbol, index, trans) == Ok(graph)
      && Analysed(graph, trimmed, Found(scc, sccBelongs), entry, num, idom, domTree, domPath)
    }

    /** The fields of a builder whose analysis succeeded. */
    constructor (symbol: string, index: DwarfIndex, blocks: Blocks, g: LGraph, f: Found, tree: Tree, paths: map<int, seq<int>>,
                     ghost t: Graph, e: int, ghost n: Numbering, ghost id: map<int, int>)
      requires Analysed(g, t, f, e, n, id, tree, paths)
      ensures symbolName == symbol && dwarfIndex == index && bbSymbol == blocks && graph == g
      ensures Analysed(graph, trimmed, Found(scc, sccBelongs), entry, num, idom, domTree, domPath)
    {
      symbolName, dwarfIndex, bbSymbol, graph := symbol, index, blocks, g;
      scc, sccBelongs, domTree, domPath := f.scc, f.belongs, tree, paths;
      trimmed, entry, num, idom := t, e, n, id;
    }

    /**
     * Lines 28-75 (`__init__`): the DWARF index (an error without DWARF
     * data), the blocks of `symbol` (an error for an unknown symbol), the
     * lifted graph (the first failing transfer's error), then the analysis;
     * a builder is made only when none of these fails.
     */
    static method New(bb: map<string, Blocks>, bs: BasicBlockSize, trans: seq<(int, seq<int>)>, symbol: string, dwarf: Option<Dwarf>)
      returns (res: Result<CfgBuilder, CfgError>, index: DwarfIndex)
      requires bs.Valid()
      ensures dwarf.None? ==> res == Err(NoDwarf)
      ensures dwarf.Some? ==> IndexOk(index) && forall pc :: At(index, pc) == LocsAt(dwarf.value, pc)
      ensures dwarf.Some? && symbol !in bb ==> res == Err(UnknownSymbol)
      ensures dwarf.Some? && symbol in bb && LiftAll(bs, bb[symbol], index, trans).Err? ==>
        res == Err(LiftAll(bs, bb[symbol], index, trans).error)
      ensures dwarf.Some? && symbol in bb && LiftAll(bs, bb[symbol], index, trans).Ok? ==>
        EntryOutcome(Plain(LiftAll(bs, bb[symbol], index, trans).value), res)
      ensures res.Ok? ==> fresh(res.value) && res.value.Built(bs, bb, trans, symbol, index)
    {
      if dwarf.None? {
        return Err(NoDwarf), map[];
      }
      index := BuildDwarf(dwarf.value);
      if symbol !in bb {
        return Err(UnknownSymbol), index;
      }
      var blocks := bb[symbol];
      var lifted := Lift(bs, blocks, index, trans);
      if lifted.Err? {
        return Err(lifted.error), index;
      }
      LiftEdges(bs, blocks, index, trans);
      var g := lifted.value;
      var found, t, tree, paths, e, n, id := Analyse(g);
      if found.Err? {
        return Err(found.error), index;
      }
      var c := new CfgBuilder(symbol, index, blocks, g, found.value, tree, paths, t, e, n, id);
      res := Ok(c);
    }
  }
}
