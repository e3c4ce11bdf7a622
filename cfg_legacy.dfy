/**
 * `cfg_builder` of src/cfg.py, the earlier copy of the builder: the same
 * lifting, components and dominator paths, without the block map of the
 * symbol and without `scc_belongs`.
 */
module CfgLegacy {
  import opened Wrappers
  import opened BbUtils
  import opened DomGraph
  import opened DfsFacts
  import opened Tarjan
  import opened IdomTree
  import opened CfgGraph
  import opened Cfg

  class CfgBuilder {
    var symbolName: string
    var graph: LGraph
    var dwarfIndex: DwarfIndex
    var scc: map<int, seq<int>>
    var domTree: Tree
    var domPath: map<int, seq<int>>
    /**
     * The root of each node's last component, which this copy does not
     * keep, and the facts behind the dominator tree.
     */
    ghost var belongs: map<int, int>
    ghost var trimmed: Graph
    ghost var entry: int
    ghost var num: Numbering
    ghost var idom: map<int, int>

    /** The fields of a builder whose analysis succeeded. */
    constructor (symbol: string, index: DwarfIndex, g: LGraph, f: Found, tree: Tree, paths: map<int, seq<int>>,
                 ghost t: Graph, e: int, ghost n: Numbering, ghost id: map<int, int>)
      requires Analysed(g, t, f, e, n, id, tree, paths)
      ensures symbolName == symbol && dwarfIndex == index && graph == g
      ensures Analysed(graph, trimmed, Found(scc, belongs), entry, num, idom, domTree, domPath)
    {
      symbolName, dwarfIndex, graph := symbol, index, g;
      scc, belongs, domTree, domPath := f.scc, f.belongs, tree, paths;
      trimmed, entry, num, idom := t, e, n, id;
    }

    /** Everything `__init__` establishes on success, for these inputs. */
    ghost predicate Built(bs: BasicBlockSize, bb: map<string, Blocks>, trans: seq<(int, seq<int>)>, symbol: string, index: DwarfIndex)
      reads this, bs
      requires bs.Valid() && IndexOk(index)
    {
      && symbolName == symbol && dwarfIndex == index && symbol in bb
      && LiftAll(bs, bb[symbol], index, trans) == Ok(graph)
      && Analysed(graph, trimmed, Found(scc, belongs), entry, num, idom, domTree, domPath)
    }

    /**
     * Lines 15-59 (`__init__`): the DWARF index (an error without DWARF
     * data), the blocks of `symbol` (an error for an unknown symbol, line
     * 20), the lifted graph (the first failing transfer's error), Tarjan's
     * runs from every graph key and `__build_dom_tree` (lines 97-128).
     */
    static method New(bb: map<string, Blocks>, bs: BasicBlockSize, trans: seq<(int, seq<int>)>, symbol: string, dwarf: Option<Dwarf>)
      returns (res: Result<CfgBuilder, CfgError>, index: DwarfIndex)
      requires bs.Valid()
      ensures dwarf.None? ==> res == Err(NoDwarf)
      ensures dwarf.Some? ==> IndexOk(index) && forall pc :: At(index, pc) == LocsAt(dwarf.value, pc)
      ensures dwarf.Some? && symbol !in bb ==> res == Err(UnknownSymbol)
      ensures dwarf.Some? && symbol in bb && LiftAll(bs, bb[symbol], index, trans).Err? ==>
        res == Err(LiftAll(bs, bb[symbol], index, trans).error)
      ensures dwarf.Some? && symbol in bb && LiftAll(bs, bb[symbol], index, trans).Ok? ==>
        EntryOutcome(Plain(LiftAll(bs, bb[symbol], index, trans).value), res)
      ensures res.Ok? ==> fresh(res.value) && res.value.Built(bs, bb, trans, symbol, index)
    {
      if dwarf.None? {
        return Err(NoDwarf), map[];
      }
      index := BuildDwarf(dwarf.value);
      if symbol !in bb {
        return Err(UnknownSymbol), index;
      }
      var lifted := Lift(bs, bb[symbol], index, trans);
      if lifted.Err? {
        return Err(lifted.error), index;
      }
      LiftEdges(bs, bb[symbol], index, trans);
      var g := lifted.value;
      var found, t, tree, paths, e, n, id := Analyse(g);
      if found.Err? {
        return Err(found.error), index;
      }
      var c := new CfgBuilder(symbol, index, g, found.value, tree, paths, t, e, n, id);
      res := Ok(c);
    }
  }
}
