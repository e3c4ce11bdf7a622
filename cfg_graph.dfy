/**
 * The graph-building part of `cfg_builder` (src/analyze/cfg.py and its
 * older copy src/cfg.py, which agree line for line here): the dwarf index,
 * the edge labels, the lifting of instruction-level transfer edges to
 * basic-block edges, the trimmed graph handed to the dominator tree and
 * Tarjan, and the two in-degree maps.
 */
module CfgGraph {
  import opened Wrappers
  import opened PyStr
  import opened BbUtils
  import opened DomGraph
  import opened Tarjan

  /** One entry of a file's dwarf line table: `(line, col, pc)`. */
  datatype DwarfEntry = DwarfEntry(line: int, col: int, pc: int)

  /** The `dwarf` argument: filename -> entries, in dict order. */
  type Dwarf = seq<(string, seq<DwarfEntry>)>

  /** A source location `(filename, line, col)`. */
  datatype Loc = Loc(file: string, line: int, col: int)

  /** `dwarf_index`: pc -> the locations recorded for it. */
  type DwarfIndex = map<int, seq<Loc>>

  /** What construction raises instead of returning. */
  datatype CfgError =
    | NoDwarf                          // `for filename in None`
    | UnknownSymbol                    // `bb[symbol_name]`
    | NoBlock(pc: int)                 // `query_bb_addr(None)`
    | NotBlockStart(pc: int, start: int)  // `assert v_bb_addr == v`
    | MultipleEntries
    | NoEntry

  /** The locations a file's entries give for `pc`, in order. */
  function FileLocs(file: string, es: seq<DwarfEntry>, pc: int): seq<Loc>
    decreases |es|
  {
    if es == [] then []
    else
      var e := es[|es| - 1];
      FileLocs(file, es[..|es| - 1], pc) + (if e.pc == pc then [Loc(file, e.line, e.col)] else [])
  }

  /** The locations all files give for `pc`, file by file, in order. */
  function LocsAt(d: Dwarf, pc: int): seq<Loc>
    decreases |d|
  {
    if d == [] then [] else LocsAt(d[..|d| - 1], pc) + FileLocs(d[|d| - 1].0, d[|d| - 1].1, pc)
  }

  /** Every pc in the index has at least one location. */
  predicate IndexOk(index: DwarfIndex) {
    forall pc :: pc in index ==> index[pc] != []
  }

  /** The locations the index holds for `pc`, none when it is absent. */
  function At(index: DwarfIndex, pc: int): seq<Loc> {
    if pc in index then index[pc] else []
  }

  /**
   * `__build_dwarf` (lines 8-14): for every file and every entry of it,
   * appends `(filename, line, col)` to `dwarf_index[pc]`.
   */
  method BuildDwarf(dwarf: Dwarf) returns (index: DwarfIndex)
    ensures IndexOk(index)
    ensures forall pc :: At(index, pc) == LocsAt(dwarf, pc)
  {
    index := map[];
    var i := 0;
    while i < |dwarf|
      invariant i <= |dwarf|
      invariant IndexOk(index) && forall pc :: At(index, pc) == LocsAt(dwarf[..i], pc)
    {
      index := AddFile(index, dwarf[i].0, dwarf[i].1);
      assert dwarf[..i + 1][..i] == dwarf[..i];
      i := i + 1;
    }
    assert dwarf[..i] == dwarf;
  }

  /** Lines 10-14: the entries of one file, appended in order. */
  method AddFile(index: DwarfIndex, file: string, es: seq<DwarfEntry>) returns (index': DwarfIndex)
    requires IndexOk(index)
    ensures IndexOk(index')
    ensures forall pc :: At(index', pc) == At(index, pc) + FileLocs(file, es, pc)
  {
    index' := index;
    var j := 0;
    while j < |es|
      invariant j <= |es|
      invariant IndexOk(index') && forall pc :: At(index', pc) == At(index, pc) + FileLocs(file, es[..j], pc)
    {
      index' := AddEntry(index, index', file, es, j);
      j := j + 1;
    }
    assert es[..j] == es;
  }

  /** Lines 11-14 for the entry at position `j`: its location appended under its pc. */
  method AddEntry(ghost index: DwarfIndex, cur: DwarfIndex, file: string, es: seq<DwarfEntry>, j: nat) returns (next: DwarfIndex)
    requires j < |es| && IndexOk(cur)
    requires forall pc :: At(cur, pc) == At(index, pc) + FileLocs(file, es[..j], pc)
    ensures IndexOk(next)
    ensures forall pc :: At(next, pc) == At(index, pc) + FileLocs(file, es[..j + 1], pc)
  {
    var e := es[j];
    var locs := if e.pc in cur then cur[e.pc] else [];
    next := cur[e.pc := locs + [Loc(file, e.line, e.col)]];
    forall pc ensures At(next, pc) == At(index, pc) + FileLocs(file, es[..j + 1], pc) {
      FileLocsSnoc(file, es, j, pc);
    }
  }

  /** The entry at position `j` adds its location for its own pc only. */
  lemma FileLocsSnoc(file: string, es: seq<DwarfEntry>, j: nat, pc: int)
    requires j < |es|
    ensures FileLocs(file, es[..j + 1], pc) ==
      FileLocs(file, es[..j], pc) + (if es[j].pc == pc then [Loc(file, es[j].line, es[j].col)] else [])
  {
    assert es[..j + 1][..j] == es[..j];
  }

  /** `FileLocs` lists a location exactly when one of the file's entries gives it, for that pc. */
  lemma {:induction false} FileLocsMember(file: string, es: seq<DwarfEntry>, pc: int, loc: Loc)
    ensures loc in FileLocs(file, es, pc) <==>
      exists j :: 0 <= j < |es| && es[j].pc == pc && loc == Loc(file, es[j].line, es[j].col)
    decreases |es|
  {
    if es != [] {
      var init := es[..|es| - 1];
      FileLocsMember(file, init, pc, loc);
      if exists j :: 0 <= j < |init| && init[j].pc == pc && loc == Loc(file, init[j].line, init[j].col) {
        var j :| 0 <= j < |init| && init[j].pc == pc && loc == Loc(file, init[j].line, init[j].col);
        assert es[j] == init[j];
      }
      if j :| 0 <= j < |es| && es[j].pc == pc && loc == Loc(file, es[j].line, es[j].col) {
        if j < |init| {
          assert init[j] == es[j];
        }
      }
    }
  }

  /** `dwarf_index[pc]` lists a location exactly when some file's entry gives it for `pc`. */
  lemma {:induction false} LocsAtMember(d: Dwarf, pc: int, loc: Loc)
    ensures loc in LocsAt(d, pc) <==>
      exists i, j :: 0 <= i < |d| && 0 <= j < |d[i].1| && d[i].1[j].pc == pc && loc == Loc(d[i].0, d[i].1[j].line, d[i].1[j].col)
    decreases |d|
  {
    if d != [] {
      var init, last := d[..|d| - 1], d[|d| - 1];
      LocsAtMember(init, pc, loc);
      FileLocsMember(last.0, last.1, pc, loc);
      if exists i, j :: 0 <= i < |init| && 0 <= j < |init[i].1| && init[i].1[j].pc == pc && loc == Loc(init[i].0, init[i].1[j].line, init[i].1[j].col) {
        var i, j :| 0 <= i < |init| && 0 <= j < |init[i].1| && init[i].1[j].pc == pc && loc == Loc(init[i].0, init[i].1[j].line, init[i].1[j].col);
        assert d[i] == init[i];
      }
      if exists j :: 0 <= j < |last.1| && last.1[j].pc == pc && loc == Loc(last.0, last.1[j].line, last.1[j].col) {
        var j :| 0 <= j < |last.1| && last.1[j].pc == pc && loc == Loc(last.0, last.1[j].line, last.1[j].col);
        assert d[|d| - 1] == last;
      }
      if i, j :| 0 <= i < |d| && 0 <= j < |d[i].1| && d[i].1[j].pc == pc && loc == Loc(d[i].0, d[i].1[j].line, d[i].1[j].col) {
        if i < |init| {
          assert init[i] == d[i];
        }
      }
    }
  }

  /** The last position below `k` whose instruction has dwarf locations. */
  ghost function LastHitBelow(instrs: seq<int>, index: DwarfIndex, k: nat): (r: Option<nat>)
    requires k <= |instrs|
    ensures r.Some? ==> r.value < k && instrs[r.value] in index
  {
    if k == 0 then None
    else if instrs[k - 1] in index then Some(k - 1)
    else LastHitBelow(instrs, index, k - 1)
  }

  /** The first position from `k` on whose instruction has dwarf locations. */
  ghost function FirstHitFrom(instrs: seq<int>, index: DwarfIndex, k: nat): (r: Option<nat>)
    requires k <= |instrs|
    ensures r.Some? ==> k <= r.value < |instrs| && instrs[r.value] in index
    decreases |instrs| - k
  {
    if k == |instrs| then None
    else if instrs[k] in index then Some(k)
    else FirstHitFrom(instrs, index, k + 1)
  }

  /** `LastHitBelow` finds the last covered position below `k`, and `None` when there is none. */
  lemma {:induction false} LastHitSpec(instrs: seq<int>, index: DwarfIndex, k: nat)
    requires k <= |instrs|
    ensures LastHitBelow(instrs, index, k).None? <==> forall m :: 0 <= m < k ==> instrs[m] !in index
    ensures LastHitBelow(instrs, index, k).Some? ==>
      var h := LastHitBelow(instrs, index, k).value;
      h < k && instrs[h] in index && forall m :: h < m < k ==> instrs[m] !in index
  {
    if k > 0 && instrs[k - 1] !in index {
      LastHitSpec(instrs, index, k - 1);
    }
  }

  /** `FirstHitFrom` finds the first covered position from `k` on, and `None` when there is none. */
  lemma {:induction false} FirstHitSpec(instrs: seq<int>, index: DwarfIndex, k: nat)
    requires k <= |instrs|
    ensures FirstHitFrom(instrs, index, k).None? <==> forall m :: k <= m < |instrs| ==> instrs[m] !in index
    ensures FirstHitFrom(instrs, index, k).Some? ==>
      var h := FirstHitFrom(instrs, index, k).value;
      k <= h < |instrs| && instrs[h] in index && forall m :: k <= m < h ==> instrs[m] !in index
    decreases |instrs| - k
  {
    if k < |instrs| && instrs[k] !in index {
      FirstHitSpec(instrs, index, k + 1);
    }
  }

  /** Lines 46-49: the last instruction of a block that has dwarf locations, scanning it in reverse. */
  method LastCovered(instrs: seq<int>, index: DwarfIndex) returns (r: Option<nat>)
    ensures r == LastHitBelow(instrs, index, |instrs|)
  {
    var k: nat := |instrs|;
    while k > 0
      invariant k <= |instrs| && LastHitBelow(instrs, index, |instrs|) == LastHitBelow(instrs, index, k)
    {
      if instrs[k - 1] in index {
        return Some(k - 1);
      }
      k := k - 1;
    }
    return None;
  }

  /** Lines 51-56: the first instruction of a block that has dwarf locations. */
  method FirstCovered(instrs: seq<int>, index: DwarfIndex) returns (r: Option<nat>)
    ensures r == FirstHitFrom(instrs, index, 0)
  {
    var k := 0;
    while k < |instrs|
      invariant k <= |instrs| && FirstHitFrom(instrs, index, 0) == FirstHitFrom(instrs, index, k)
    {
      if instrs[k] in index {
        return Some(k);
      }
      k := k + 1;
    }
    return None;
  }

  /** `str(loc[1:])`: the `(line, col)` tuple as Python prints it. */
  function Show(loc: Loc): string {
    "(" + IntToStr(loc.line) + ", " + IntToStr(loc.col) + ")"
  }

  /**
   * The label of an edge from a block with instructions `src` to one with
   * instructions `dst` (`None` when the destination is not one of the
   * symbol's blocks): the first location of the last covered source
   * instruction, then `->` and the first location of the first covered
   * destination instruction; `None` when neither exists.
   */
  ghost function LabelOf(src: seq<int>, dst: Option<seq<int>>, index: DwarfIndex): Option<string>
    requires IndexOk(index)
  {
    var last := LastHitBelow(src, index, |src|);
    var first := if dst.Some? then FirstHitFrom(dst.value, index, 0) else None;
    var head := if last.Some? then var pc := src[last.value]; Some(Show(index[pc][0])) else None;
    if first.Some? then var pc := dst.value[first.value]; Some(head.GetOr("") + ("->" + Show(index[pc][0])))
    else head
  }

  /** Lines 44-57: the edge label, built as the source builds it. */
  method EdgeLabel(src: seq<int>, dst: Option<seq<int>>, index: DwarfIndex) returns (lab: Option<string>)
    requires IndexOk(index)
    ensures lab == LabelOf(src, dst, index)
  {
    lab := None;
    var last := LastCovered(src, index);
    if last.Some? {
      var pc := src[last.value];
      lab := Some(Show(index[pc][0]));
    }
    if dst.Some? {
      var first := FirstCovered(dst.value, index);
      if first.Some? {
        if lab.None? {
          lab := Some("");
        }
        var pc := dst.value[first.value];
        lab := Some(lab.value + ("->" + Show(index[pc][0])));
      }
    }
  }

  /** A label is `None` exactly when no instruction of either block is covered. */
  lemma LabelNone(src: seq<int>, dst: Option<seq<int>>, index: DwarfIndex)
    requires IndexOk(index)
    ensures LabelOf(src, dst, index).None? <==>
      (forall m :: 0 <= m < |src| ==> src[m] !in index) &&
      (dst.None? || forall m :: 0 <= m < |dst.value| ==> dst.value[m] !in index)
  {
    LastHitSpec(src, index, |src|);
    if dst.Some? {
      FirstHitSpec(dst.value, index, 0);
    }
  }

  /**
   * When the source block's last covered instruction is at `h`, the label
   * starts with that instruction's first location.
   */
  lemma LabelHead(src: seq<int>, dst: Option<seq<int>>, index: DwarfIndex, h: nat)
    requires IndexOk(index)
    requires h < |src| && src[h] in index && forall m :: h < m < |src| ==> src[m] !in index
    ensures LabelOf(src, dst, index).Some?
    ensures var pc := src[h]; Show(index[pc][0]) <= LabelOf(src, dst, index).value
  {
    LastHitSpec(src, index, |src|);
    var last := LastHitBelow(src, index, |src|);
    assert last == Some(h) by {
      if last.value < h {
      } else if last.value > h {
      }
    }
  }

  /**
   * When the destination is one of the symbol's blocks and its first covered
   * instruction is at `h`, the label ends with `->` and that instruction's
   * first location.
   */
  lemma LabelTail(src: seq<int>, dst: seq<int>, index: DwarfIndex, h: nat)
    requires IndexOk(index)
    requires h < |dst| && dst[h] in index && forall m :: 0 <= m < h ==> dst[m] !in index
    ensures LabelOf(src, Some(dst), index).Some?
    ensures var pc := dst[h]; EndsWith(LabelOf(src, Some(dst), index).value, "->" + Show(index[pc][0]))
  {
    FirstHitSpec(dst, index, 0);
    var first := FirstHitFrom(dst, index, 0);
    assert first == Some(h) by {
      if first.value < h {
      } else if first.value > h {
      }
    }
    var last := LastHitBelow(src, index, |src|);
    var head := if last.Some? then var p := src[last.value]; Some(Show(index[p][0])) else None;
    var pc := dst[h];
    EndsWithAppend(head.GetOr(""), "->" + Show(index[pc][0]));
  }

  lemma EndsWithAppend(s: string, t: string)
    ensures EndsWith(s + t, t)
  {
    assert (s + t)[|s|..] == t;
  }

  /** `s` ends with `t`. */
  predicate EndsWith(s: string, t: string) {
    |t| <= |s| && s[|s| - |t|..] == t
  }

  /** An edge label: the `edge_info` string, or `None`. */
  type Label = Option<string>

  /**
   * `self.graph`: block address -> its `(v, edge_info)` pairs, with `order`
   * listing the keys in the order the dict gained them.
   */
  datatype LGraph = LGraph(order: seq<int>, edges: map<int, seq<(int, Label)>>)

  /** The edges out of `a`, none when `a` is not a key. */
  function EdgesOf(g: LGraph, a: int): seq<(int, Label)> {
    if a in g.edges then g.edges[a] else []
  }

  /** `order` lists every key once, and every key has at least one edge. */
  ghost predicate Shaped(g: LGraph) {
    NoDup(g.order) && (forall a :: a in g.order <==> a in g.edges) &&
    forall a :: a in g.edges ==> g.edges[a] != []
  }

  /** Lines 42-43 and 61: the key is created when missing, then the edge appended. */
  function Add(g: LGraph, a: int, e: (int, Label)): (r: LGraph)
    ensures forall b :: EdgesOf(r, b) == EdgesOf(g, b) + (if b == a then [e] else [])
    ensures r.edges.Keys == g.edges.Keys + {a}
  {
    if a in g.edges then LGraph(g.order, g.edges[a := g.edges[a] + [e]])
    else LGraph(g.order + [a], g.edges[a := [e]])
  }

  /** The instructions of `v`'s block when `v` is one of the symbol's blocks (line 51). */
  function Dst(blocks: Blocks, v: int): Option<seq<int>> {
    if v in blocks then Some(blocks[v]) else None
  }

  /** Lines 40-61 for one destination `v` of a transfer out of block `a`. */
  ghost function AddDest(bs: BasicBlockSize, blocks: Blocks, index: DwarfIndex, g: LGraph, a: int, v: int): Result<LGraph, CfgError>
    reads bs
    requires bs.Valid() && IndexOk(index) && a in blocks
  {
    match BlockOf(bs, v)
    case None => Err(NoBlock(v))
    case Some(b) =>
      if b != v then Err(NotBlockStart(v, b))
      else Ok(Add(g, a, (v, LabelOf(blocks[a], Dst(blocks, v), index))))
  }

  /** Lines 39-61: every destination of one transfer, in order, stopping at the first error. */
  ghost function AddDests(bs: BasicBlockSize, blocks: Blocks, index: DwarfIndex, g: LGraph, a: int, vs: seq<int>): Result<LGraph, CfgError>
    reads bs
    requires bs.Valid() && IndexOk(index) && a in blocks
    decreases |vs|
  {
    if vs == [] then Ok(g)
    else match AddDests(bs, blocks, index, g, a, vs[..|vs| - 1])
      case Err(e) => Err(e)
      case Ok(g') => AddDest(bs, blocks, index, g', a, vs[|vs| - 1])
  }

  /** Lines 37-61 for one source instruction `u` and its destinations. */
  ghost function LiftOne(bs: BasicBlockSize, blocks: Blocks, index: DwarfIndex, g: LGraph, u: int, vs: seq<int>): Result<LGraph, CfgError>
    reads bs
    requires bs.Valid() && IndexOk(index)
  {
    match BlockOf(bs, u)
    case None => Err(NoBlock(u))
    case Some(a) => if a in blocks then AddDests(bs, blocks, index, g, a, vs) else Ok(g)
  }

  /** Lines 36-61: the block graph built from the transfer edges, in `trans_edge` order. */
  ghost function LiftAll(bs: BasicBlockSize, blocks: Blocks, index: DwarfIndex, trans: seq<(int, seq<int>)>): Result<LGraph, CfgError>
    reads bs
    requires bs.Valid() && IndexOk(index)
    decreases |trans|
  {
    if trans == [] then Ok(LGraph([], map[]))
    else match LiftAll(bs, blocks, index, trans[..|trans| - 1])
      case Err(e) => Err(e)
      case Ok(g) => LiftOne(bs, blocks, index, g, trans[|trans| - 1].0, trans[|trans| - 1].1)
  }

  /** Lines 40-61: one destination `v` of a transfer out of block `a`. */
  method AddEdge(bs: BasicBlockSize, blocks: Blocks, index: DwarfIndex, g: LGraph, a: int, v: int)
    returns (res: Result<LGraph, CfgError>)
    requires bs.Valid() && IndexOk(index) && a in blocks
    ensures res == AddDest(bs, blocks, index, g, a, v)
  {
    var b := BlockOf(bs, v);
    if b.None? {
      return Err(NoBlock(v));
    }
    if b.value != v {
      return Err(NotBlockStart(v, b.value));
    }
    var lab := EdgeLabel(blocks[a], Dst(blocks, v), index);
    return Ok(Add(g, a, (v, lab)));
  }

  /** Lines 39-61: the destinations of one transfer out of block `a`. */
  method AddEdges(bs: BasicBlockSize, blocks: Blocks, index: DwarfIndex, g: LGraph, a: int, vs: seq<int>)
    returns (res: Result<LGraph, CfgError>)
    requires bs.Valid() && IndexOk(index) && a in blocks
    ensures res == AddDests(bs, blocks, index, g, a, vs)
  {
    var cur := g;
    var j := 0;
    while j < |vs|
      invariant j <= |vs| && AddDests(bs, blocks, index, g, a, vs[..j]) == Ok(cur)
    {
      DestsSnoc(bs, blocks, index, g, a, vs, j);
      var r := AddEdge(bs, blocks, index, cur, a, vs[j]);
      if r.Err? {
        DestsErr(bs, blocks, index, g, a, vs, j + 1);
        return r;
      }
      cur := r.value;
      j := j + 1;
    }
    assert vs[..j] == vs;
    return Ok(cur);
  }

  /**
   * Lines 36-61: lifts every transfer edge to an edge between basic blocks
   * of the symbol, labelled with its source locations.
   */
  method Lift(bs: BasicBlockSize, blocks: Blocks, index: DwarfIndex, trans: seq<(int, seq<int>)>)
    returns (res: Result<LGraph, CfgError>)
    requires bs.Valid() && IndexOk(index)
    ensures res == LiftAll(bs, blocks, index, trans)
  {
    var g := LGraph([], map[]);
    var i := 0;
    while i < |trans|
      invariant i <= |trans| && LiftAll(bs, blocks, index, trans[..i]) == Ok(g)
    {
      var r := LiftStep(bs, blocks, index, trans, i, g);
      if r.Err? {
        return r;
      }
      g := r.value;
      i := i + 1;
    }
    assert trans[..i] == trans;
    return Ok(g);
  }

  /** One round of the loop of lines 36-61: the graph after transfer `i`, or the error of the whole. */
  method LiftStep(bs: BasicBlockSize, blocks: Blocks, index: DwarfIndex, trans: seq<(int, seq<int>)>, i: nat, g: LGraph)
    returns (res: Result<LGraph, CfgError>)
    requires bs.Valid() && IndexOk(index) && i < |trans|
    requires LiftAll(bs, blocks, index, trans[..i]) == Ok(g)
    ensures res.Ok? ==> LiftAll(bs, blocks, index, trans[..i + 1]) == res
    ensures res.Err? ==> LiftAll(bs, blocks, index, trans) == res
  {
    LiftSnoc(bs, blocks, index, trans, i);
    res := LiftTransfer(bs, blocks, index, g, trans[i].0, trans[i].1);
    if res.Err? {
      LiftErr(bs, blocks, index, trans, i + 1);
    }
  }

  /** Lines 37-61 for one transfer out of instruction `u`. */
  method LiftTransfer(bs: BasicBlockSize, blocks: Blocks, index: DwarfIndex, g: LGraph, u: int, vs: seq<int>)
    returns (res: Result<LGraph, CfgError>)
    requires bs.Valid() && IndexOk(index)
    ensures res == LiftOne(bs, blocks, index, g, u, vs)
  {
    var a := BlockOf(bs, u);
    if a.None? {
      return Err(NoBlock(u));
    }
    if a.value in blocks {
      res := AddEdges(bs, blocks, index, g, a.value, vs);
    } else {
      res := Ok(g);
    }
  }

  /** One more transfer lifts on top of the prefix's graph. */
  lemma LiftSnoc(bs: BasicBlockSize, blocks: Blocks, index: DwarfIndex, trans: seq<(int, seq<int>)>, i: nat)
    requires bs.Valid() && IndexOk(index) && i < |trans|
    requires LiftAll(bs, blocks, index, trans[..i]).Ok?
    ensures LiftAll(bs, blocks, index, trans[..i + 1]) ==
      LiftOne(bs, blocks, index, LiftAll(bs, blocks, index, trans[..i]).value, trans[i].0, trans[i].1)
  {
    assert trans[..i + 1][..i] == trans[..i];
  }

  /** One more destination extends the prefix's graph by one edge. */
  lemma DestsSnoc(bs: BasicBlockSize, blocks: Blocks, index: DwarfIndex, g: LGraph, a: int, vs: seq<int>, j: nat)
    requires bs.Valid() && IndexOk(index) && a in blocks && j < |vs|
    requires AddDests(bs, blocks, index, g, a, vs[..j]).Ok?
    ensures AddDests(bs, blocks, index, g, a, vs[..j + 1]) ==
      AddDest(bs, blocks, index, AddDests(bs, blocks, index, g, a, vs[..j]).value, a, vs[j])
  {
    assert vs[..j + 1][..j] == vs[..j];
  }

  /** An error on a prefix of the destinations is the error of the whole list. */
  lemma {:induction false} DestsErr(bs: BasicBlockSize, blocks: Blocks, index: DwarfIndex, g: LGraph, a: int, vs: seq<int>, k: nat)
    requires bs.Valid() && IndexOk(index) && a in blocks && k <= |vs|
    requires AddDests(bs, blocks, index, g, a, vs[..k]).Err?
    ensures AddDests(bs, blocks, index, g, a, vs) == AddDests(bs, blocks, index, g, a, vs[..k])
    decreases |vs|
  {
    if k < |vs| {
      var init := vs[..|vs| - 1];
      assert init[..k] == vs[..k];
      DestsErr(bs, blocks, index, g, a, init, k);
    } else {
      assert vs[..k] == vs;
    }
  }

  /** An error on a prefix of the transfers is the error of the whole construction. */
  lemma {:induction false} LiftErr(bs: BasicBlockSize, blocks: Blocks, index: DwarfIndex, trans: seq<(int, seq<int>)>, k: nat)
    requires bs.Valid() && IndexOk(index) && k <= |trans|
    requires LiftAll(bs, blocks, index, trans[..k]).Err?
    ensures LiftAll(bs, blocks, index, trans) == LiftAll(bs, blocks, index, trans[..k])
    decreases |trans|
  {
    if k < |trans| {
      var init := trans[..|trans| - 1];
      assert init[..k] == trans[..k];
      LiftErr(bs, blocks, index, init, k);
    } else {
      assert trans[..k] == trans;
    }
  }

  /** `v` starts one of the program's basic blocks. */
  ghost predicate IsStart(bs: BasicBlockSize, v: int)
    reads bs
  {
    exists p :: p in bs.allBasicBlock && p.0 == v
  }

  /**
   * What lines 37-41 need of one transfer: its source lies in a block and,
   * when that block is one of the symbol's, every destination starts a block.
   */
  ghost predicate Liftable(bs: BasicBlockSize, blocks: Blocks, u: int, vs: seq<int>)
    reads bs
    requires bs.Valid()
  {
    BlockOf(bs, u).Some? && (BlockOf(bs, u).value in blocks ==> forall v :: v in vs ==> IsStart(bs, v))
  }

  /** The destinations of one transfer are all added exactly when each starts a block. */
  lemma {:induction false} DestsOk(bs: BasicBlockSize, blocks: Blocks, index: DwarfIndex, g: LGraph, a: int, vs: seq<int>)
    requires bs.Valid() && IndexOk(index) && a in blocks
    ensures AddDests(bs, blocks, index, g, a, vs).Ok? <==> forall v :: v in vs ==> IsStart(bs, v)
    decreases |vs|
  {
    if vs != [] {
      var init, v := vs[..|vs| - 1], vs[|vs| - 1];
      DestsOk(bs, blocks, index, g, a, init);
      assert vs == init + [v];
      assert (forall w :: w in vs ==> IsStart(bs, w)) <==> (forall w :: w in init ==> IsStart(bs, w)) && IsStart(bs, v);
      var prev := AddDests(bs, blocks, index, g, a, init);
      if prev.Ok? {
        BlockOfStart(bs, v);
        assert AddDests(bs, blocks, index, g, a, vs) == AddDest(bs, blocks, index, prev.value, a, v);
        assert AddDest(bs, blocks, index, prev.value, a, v).Ok? <==> BlockOf(bs, v) == Some(v);
      } else {
        assert AddDests(bs, blocks, index, g, a, vs).Err?;
      }
    }
  }

  /**
   * Construction succeeds exactly when every transfer is liftable; otherwise
   * it raises `TypeError` (a source outside every block) or `AssertionError`
   * (a destination that does not start a block).
   */
  lemma {:induction false} LiftOk(bs: BasicBlockSize, blocks: Blocks, index: DwarfIndex, trans: seq<(int, seq<int>)>)
    requires bs.Valid() && IndexOk(index)
    ensures LiftAll(bs, blocks, index, trans).Ok? <==>
      forall i :: 0 <= i < |trans| ==> Liftable(bs, blocks, trans[i].0, trans[i].1)
    decreases |trans|
  {
    if trans != [] {
      var init, last := trans[..|trans| - 1], trans[|trans| - 1];
      LiftOk(bs, blocks, index, init);
      LiftableSnoc(bs, blocks, trans);
      var prev := LiftAll(bs, blocks, index, init);
      if prev.Ok? {
        assert LiftAll(bs, blocks, index, trans) == LiftOne(bs, blocks, index, prev.value, last.0, last.1);
        var b := BlockOf(bs, last.0);
        if b.Some? && b.value in blocks {
          DestsOk(bs, blocks, index, prev.value, b.value, last.1);
        }
      }
    }
  }

  /** Every transfer is liftable exactly when all but the last are and the last is. */
  lemma LiftableSnoc(bs: BasicBlockSize, blocks: Blocks, trans: seq<(int, seq<int>)>)
    requires bs.Valid() && trans != []
    ensures var init, last := trans[..|trans| - 1], trans[|trans| - 1];
      (forall i :: 0 <= i < |trans| ==> Liftable(bs, blocks, trans[i].0, trans[i].1)) <==>
      (forall i :: 0 <= i < |init| ==> Liftable(bs, blocks, init[i].0, init[i].1)) && Liftable(bs, blocks, last.0, last.1)
  {
    var init := trans[..|trans| - 1];
    assert forall i :: 0 <= i < |init| ==> init[i] == trans[i];
  }

  /** The destinations of a list of labelled edges (`for v, _ in ...`). */
  function Firsts(es: seq<(int, Label)>): (r: seq<int>)
    ensures |r| == |es| && forall k :: 0 <= k < |es| ==> r[k] == es[k].0
  {
    seq(|es|, k requires 0 <= k < |es| => es[k].0)
  }

  /** The labelled edges from block `a` to each of `vs`. */
  ghost function Labelled(blocks: Blocks, index: DwarfIndex, a: int, vs: seq<int>): (r: seq<(int, Label)>)
    requires IndexOk(index) && a in blocks
    ensures Firsts(r) == vs
    decreases |vs|
  {
    if vs == [] then []
    else
      var v := vs[|vs| - 1];
      Labelled(blocks, index, a, vs[..|vs| - 1]) + [(v, LabelOf(blocks[a], Dst(blocks, v), index))]
  }

  /**
   * The reference edge list of block `a`: for each transfer whose source
   * lies in `a`, one labelled edge per destination, in transfer order.
   */
  ghost function Expected(bs: BasicBlockSize, blocks: Blocks, index: DwarfIndex, trans: seq<(int, seq<int>)>, a: int): seq<(int, Label)>
    reads bs
    requires bs.Valid() && IndexOk(index)
    decreases |trans|
  {
    if trans == [] then []
    else
      var last := trans[|trans| - 1];
      Expected(bs, blocks, index, trans[..|trans| - 1], a) +
        (if a in blocks && BlockOf(bs, last.0) == Some(a) then Labelled(blocks, index, a, last.1) else [])
  }

  /** Adding an edge keeps the key list free of repeats and in step with the keys. */
  lemma AddShaped(g: LGraph, a: int, e: (int, Label))
    requires Shaped(g)
    ensures Shaped(Add(g, a, e))
  {
  }

  /** The destinations of one transfer extend `a`'s edge list and nothing else. */
  lemma {:induction false} DestsEdges(bs: BasicBlockSize, blocks: Blocks, index: DwarfIndex, g: LGraph, a: int, vs: seq<int>)
    requires bs.Valid() && IndexOk(index) && a in blocks
    requires AddDests(bs, blocks, index, g, a, vs).Ok?
    ensures var r := AddDests(bs, blocks, index, g, a, vs).value;
      (forall b :: EdgesOf(r, b) == EdgesOf(g, b) + (if b == a then Labelled(blocks, index, a, vs) else [])) &&
      r.edges.Keys <= g.edges.Keys + {a} && (Shaped(g) ==> Shaped(r))
    decreases |vs|
  {
    if vs != [] {
      var init, v := vs[..|vs| - 1], vs[|vs| - 1];
      DestsEdges(bs, blocks, index, g, a, init);
      var mid := AddDests(bs, blocks, index, g, a, init).value;
      var e := (v, LabelOf(blocks[a], Dst(blocks, v), index));
      assert AddDests(bs, blocks, index, g, a, vs) == Ok(Add(mid, a, e)) by {
        assert vs[..|vs| - 1] == init;
      }
      if Shaped(mid) {
        AddShaped(mid, a, e);
      }
      AddExtends(g, mid, a, e, Labelled(blocks, index, a, init));
    }
  }

  /** Appending `e` to `a`'s list, after `pre` was appended, appends `pre + [e]`. */
  lemma AddExtends(g: LGraph, mid: LGraph, a: int, e: (int, Label), pre: seq<(int, Label)>)
    requires forall b :: EdgesOf(mid, b) == EdgesOf(g, b) + (if b == a then pre else [])
    ensures forall b :: EdgesOf(Add(mid, a, e), b) == EdgesOf(g, b) + (if b == a then pre + [e] else [])
  {
    forall b ensures EdgesOf(Add(mid, a, e), b) == EdgesOf(g, b) + (if b == a then pre + [e] else []) {
      if b == a {
        assert EdgesOf(g, b) + pre + [e] == EdgesOf(g, b) + (pre + [e]);
      }
    }
  }

  /**
   * When construction succeeds, every key is one of the symbol's blocks,
   * listed once in dict order, and each block's edge list is its reference
   * list `Expected`.
   */
  lemma {:induction false} LiftEdges(bs: BasicBlockSize, blocks: Blocks, index: DwarfIndex, trans: seq<(int, seq<int>)>)
    requires bs.Valid() && IndexOk(index)
    requires LiftAll(bs, blocks, index, trans).Ok?
    ensures var g := LiftAll(bs, blocks, index, trans).value;
      Shaped(g) && g.edges.Keys <= blocks.Keys &&
      forall a :: EdgesOf(g, a) == Expected(bs, blocks, index, trans, a)
    decreases |trans|
  {
    if trans != [] {
      var init, last := trans[..|trans| - 1], trans[|trans| - 1];
      LiftEdges(bs, blocks, index, init);
      var prev := LiftAll(bs, blocks, index, init).value;
      var g := LiftAll(bs, blocks, index, trans).value;
      assert LiftOne(bs, blocks, index, prev, last.0, last.1) == Ok(g);
      LiftEdgesStep(bs, blocks, index, init, last, prev, g);
      forall a ensures EdgesOf(g, a) == Expected(bs, blocks, index, trans, a) {
        ExpectedSnoc(bs, blocks, index, trans, a);
      }
    }
  }

  /** The reference list after one more transfer. */
  lemma ExpectedSnoc(bs: BasicBlockSize, blocks: Blocks, index: DwarfIndex, trans: seq<(int, seq<int>)>, a: int)
    requires bs.Valid() && IndexOk(index) && trans != []
    ensures var init, last := trans[..|trans| - 1], trans[|trans| - 1];
      Expected(bs, blocks, index, trans, a) == Expected(bs, blocks, index, init, a) +
        (if a in blocks && BlockOf(bs, last.0) == Some(a) then Labelled(blocks, index, a, last.1) else [])
  {
  }

  /** The last transfer keeps the shape and extends the edge list of its source block only. */
  lemma LiftEdgesStep(bs: BasicBlockSize, blocks: Blocks, index: DwarfIndex, init: seq<(int, seq<int>)>, last: (int, seq<int>),
                      prev: LGraph, g: LGraph)
    requires bs.Valid() && IndexOk(index)
    requires LiftOne(bs, blocks, index, prev, last.0, last.1) == Ok(g)
    requires Shaped(prev) && prev.edges.Keys <= blocks.Keys
    requires forall a :: EdgesOf(prev, a) == Expected(bs, blocks, index, init, a)
    ensures Shaped(g) && g.edges.Keys <= blocks.Keys
    ensures forall a ::
              EdgesOf(g, a) == Expected(bs, blocks, index, init, a) +
                (if a in blocks && BlockOf(bs, last.0) == Some(a) then Labelled(blocks, index, a, last.1) else [])
  {
    var a := BlockOf(bs, last.0).value;
    if a in blocks {
      DestsEdges(bs, blocks, index, prev, a, last.1);
    }
  }

  /** Transfer `t` goes from an instruction of block `a` to `v`. */
  ghost predicate Goes(bs: BasicBlockSize, t: (int, seq<int>), a: int, v: int)
    reads bs
    requires bs.Valid()
  {
    BlockOf(bs, t.0) == Some(a) && v in t.1
  }

  /** Some transfer goes from `a` to `v` exactly when one before the last does or the last does. */
  lemma GoesSnoc(bs: BasicBlockSize, trans: seq<(int, seq<int>)>, a: int, v: int)
    requires bs.Valid() && trans != []
    ensures var init, last := trans[..|trans| - 1], trans[|trans| - 1];
      (exists t :: t in trans && Goes(bs, t, a, v)) <==>
      (exists t :: t in init && Goes(bs, t, a, v)) || Goes(bs, last, a, v)
  {
    var init, last := trans[..|trans| - 1], trans[|trans| - 1];
    assert trans == init + [last];
  }

  /** The destinations of two lists of edges joined are the two lists of destinations joined. */
  lemma FirstsAppend(s: seq<(int, Label)>, t: seq<(int, Label)>)
    ensures Firsts(s + t) == Firsts(s) + Firsts(t)
  {
  }

  /**
   * Block `a` has an edge to `v` exactly when `a` is one of the symbol's
   * blocks and some transfer from an instruction of `a` goes to `v`.
   */
  lemma {:induction false} ExpectedTarget(bs: BasicBlockSize, blocks: Blocks, index: DwarfIndex, trans: seq<(int, seq<int>)>, a: int, v: int)
    requires bs.Valid() && IndexOk(index)
    ensures v in Firsts(Expected(bs, blocks, index, trans, a)) <==>
      a in blocks && exists t :: t in trans && Goes(bs, t, a, v)
    decreases |trans|
  {
    if trans != [] {
      var init, last := trans[..|trans| - 1], trans[|trans| - 1];
      ExpectedTarget(bs, blocks, index, init, a, v);
      GoesSnoc(bs, trans, a, v);
      var pre := Expected(bs, blocks, index, init, a);
      var add := if a in blocks && BlockOf(bs, last.0) == Some(a) then Labelled(blocks, index, a, last.1) else [];
      FirstsAppend(pre, add);
    }
  }

  /** Lines 168-172: `self.graph` without its labels, the graph `build_dom_tree` walks. */
  method Trim(g: LGraph) returns (t: Graph)
    requires forall a :: a in g.order <==> a in g.edges
    ensures t.Keys == g.edges.Keys
    ensures forall u :: u in t ==> t[u] == Firsts(g.edges[u])
  {
    t := map[];
    var i := 0;
    while i < |g.order|
      invariant i <= |g.order|
      invariant forall u :: u in t <==> u in g.order[..i]
      invariant forall u :: u in t ==> u in g.edges && t[u] == Firsts(g.edges[u])
    {
      var u := g.order[i];
      var es := g.edges[u];
      var vs := [];
      var j := 0;
      while j < |es|
        invariant j <= |es| && vs == Firsts(es[..j])
      {
        vs := vs + [es[j].0];
        j := j + 1;
      }
      assert es[..j] == es;
      t := t[u := vs];
      assert g.order[..i + 1] == g.order[..i] + [u];
      i := i + 1;
    }
    assert g.order[..i] == g.order;
    assert forall u :: u in t.Keys <==> u in g.edges.Keys;
  }

  /** The number of edges into `x` from the nodes `us`, counting repeated edges. */
  ghost function InCount(t: Graph, us: seq<int>, x: int): nat
    decreases |us|
  {
    if us == [] then 0 else InCount(t, us[..|us| - 1], x) + multiset(Succ(t, us[|us| - 1]))[x]
  }

  /** The nodes `us` and their successors: the keys lines 151-157 create. */
  ghost function Touched(t: Graph, us: seq<int>): set<int>
    decreases |us|
  {
    if us == [] then {}
    else
      var u := us[|us| - 1];
      Touched(t, us[..|us| - 1]) + {u} + set v | v in Succ(t, u)
  }

  /** A node `us` does not touch has no edge from `us`. */
  lemma {:induction false} InCountTouched(t: Graph, us: seq<int>, x: int)
    ensures x !in Touched(t, us) ==> InCount(t, us, x) == 0
    decreases |us|
  {
    if us != [] {
      InCountTouched(t, us[..|us| - 1], x);
    }
  }

  /** No edge from `us` enters `x` exactly when its count is zero. */
  lemma {:induction false} InCountZero(t: Graph, us: seq<int>, x: int)
    ensures InCount(t, us, x) == 0 <==> forall u :: u in us ==> !Edge(t, u, x)
    decreases |us|
  {
    if us != [] {
      var init, u := us[..|us| - 1], us[|us| - 1];
      InCountZero(t, init, x);
      assert multiset(Succ(t, u))[x] == 0 <==> !Edge(t, u, x);
      assert forall w :: w in us <==> w in init || w == u;
    }
  }

  /** When `order` lists the keys, it touches exactly the graph's nodes. */
  lemma {:induction false} TouchedAll(t: Graph, us: seq<int>, x: int)
    ensures x in Touched(t, us) <==> x in us || exists u :: u in us && Edge(t, u, x)
    decreases |us|
  {
    if us != [] {
      var init, u := us[..|us| - 1], us[|us| - 1];
      TouchedAll(t, init, x);
      assert x in Touched(t, us) <==> x in Touched(t, init) || x == u || x in Succ(t, u);
      assert forall w :: w in us <==> w in init || w == u;
      if w :| w in init && Edge(t, w, x) {
        assert w in us;
      }
      if w :| w in us && Edge(t, w, x) {
        if w != u {
          assert w in init;
        }
      }
      if Edge(t, u, x) {
        assert u in us;
      }
    }
  }

  /**
   * Lines 150-157: the in-degree of every node, counting each edge into it
   * (`for v, _ in self.graph[u]`); `keys` is the dict's key order.
   */
  method NodeInDegree(t: Graph, order: seq<int>) returns (deg: map<int, nat>, keys: seq<int>)
    ensures NoDup(keys) && forall x :: x in keys <==> x in deg
    ensures forall x :: x in deg <==> x in Touched(t, order)
    ensures forall x :: x in deg ==> deg[x] == InCount(t, order, x)
  {
    deg, keys := map[], [];
    var i := 0;
    while i < |order|
      invariant i <= |order|
      invariant NoDup(keys) && forall x :: x in keys <==> x in deg
      invariant forall x :: x in deg <==> x in Touched(t, order[..i])
      invariant forall x :: x in deg ==> deg[x] == InCount(t, order[..i], x)
    {
      assert order[..i + 1] == order[..i] + [order[i]];
      deg, keys := CountNode(t, order[..i], order[i], deg, keys);
      i := i + 1;
    }
    assert order[..i] == order;
  }

  /** Lines 152-157 for one node `u`: its own key, then one more in-edge for each successor. */
  method CountNode(t: Graph, ghost done: seq<int>, u: int, deg: map<int, nat>, keys: seq<int>)
    returns (deg': map<int, nat>, keys': seq<int>)
    requires NoDup(keys) && forall x :: x in keys <==> x in deg
    requires forall x :: x in deg <==> x in Touched(t, done)
    requires forall x :: x in deg ==> deg[x] == InCount(t, done, x)
    ensures NoDup(keys') && forall x :: x in keys' <==> x in deg'
    ensures forall x :: x in deg' <==> x in Touched(t, done + [u])
    ensures forall x :: x in deg' ==> deg'[x] == InCount(t, done + [u], x)
  {
    deg', keys' := deg, keys;
    if u !in deg' {
      InCountTouched(t, done, u);
      deg', keys' := deg'[u := 0], keys' + [u];
    }
    ghost var before := deg';
    deg', keys' := CountInto(Succ(t, u), deg', keys');
    CountStep(t, done, u, before, deg');
  }

  /** Counting `u`'s successors into the degrees of the nodes before it gives the degrees after it. */
  lemma CountStep(t: Graph, done: seq<int>, u: int, deg: map<int, nat>, deg': map<int, nat>)
    requires forall x :: x in deg <==> x in Touched(t, done) || x == u
    requires forall x :: x in deg ==> deg[x] == InCount(t, done, x)
    requires forall x :: x in deg' <==> x in deg || x in Succ(t, u)
    requires forall x :: x in deg' ==> deg'[x] == (if x in deg then deg[x] else 0) + multiset(Succ(t, u))[x]
    ensures forall x :: x in deg' <==> x in Touched(t, done + [u])
    ensures forall x :: x in deg' ==> deg'[x] == InCount(t, done + [u], x)
  {
    assert (done + [u])[..|done|] == done;
    forall x | x in deg'
      ensures deg'[x] == InCount(t, done + [u], x)
    {
      assert InCount(t, done + [u], x) == InCount(t, done, x) + multiset(Succ(t, u))[x];
      InCountTouched(t, done, x);
    }
    assert Touched(t, done + [u]) == Touched(t, done) + {u} + set v | v in Succ(t, u);
  }

  /** Lines 154-157 for one node: one more in-edge for each of its successors `s`, in order. */
  method CountInto(s: seq<int>, deg: map<int, nat>, keys: seq<int>) returns (deg': map<int, nat>, keys': seq<int>)
    requires NoDup(keys) && forall x :: x in keys <==> x in deg
    ensures NoDup(keys') && forall x :: x in keys' <==> x in deg'
    ensures forall x :: x in deg' <==> x in deg || x in s
    ensures forall x :: x in deg' ==> deg'[x] == (if x in deg then deg[x] else 0) + multiset(s)[x]
  {
    deg', keys' := deg, keys;
    var j := 0;
    while j < |s|
      invariant j <= |s|
      invariant NoDup(keys') && forall x :: x in keys' <==> x in deg'
      invariant forall x :: x in deg' <==> x in deg || x in s[..j]
      invariant forall x :: x in deg' ==> deg'[x] == (if x in deg then deg[x] else 0) + multiset(s[..j])[x]
    {
      var v := s[j];
      assert s[..j + 1] == s[..j] + [v];
      if v !in deg' {
        deg', keys' := deg'[v := 0], keys' + [v];
      }
      deg' := deg'[v := deg'[v] + 1];
      j := j + 1;
    }
    assert s[..j] == s;
  }

  /** When `order` lists the keys, the nodes it touches are the graph's nodes. */
  lemma TouchedNodes(t: Graph, order: seq<int>, x: int)
    requires forall u :: u in order <==> u in t
    ensures x in Touched(t, order) <==> x in Nodes(t)
  {
    TouchedAll(t, order, x);
    if u :| u in t && x in t[u] {
      assert Edge(t, u, x);
    }
  }

  /** When `order` lists the keys, a zero count means no edge at all enters `x`. */
  lemma InDegreeZero(t: Graph, order: seq<int>, x: int)
    requires forall u :: u in order <==> u in t
    ensures InCount(t, order, x) == 0 <==> forall u :: !Edge(t, u, x)
  {
    InCountZero(t, order, x);
  }

  /**
   * Lines 159-166: the entry is the only node of in-degree zero; a second
   * one raises "Multiple entry nodes", none raises "No entry node".
   */
  method FindEntry(keys: seq<int>, deg: map<int, nat>) returns (res: Result<int, CfgError>)
    requires NoDup(keys) && forall x :: x in keys <==> x in deg
    ensures res.Ok? || res == Err(NoEntry) || res == Err(MultipleEntries)
    ensures res.Ok? ==>
      res.value in deg && deg[res.value] == 0 && forall y :: y in deg && deg[y] == 0 ==> y == res.value
    ensures res == Err(NoEntry) <==> forall y :: y in deg ==> deg[y] != 0
    ensures res == Err(MultipleEntries) <==>
      exists y, z :: y in deg && z in deg && y != z && deg[y] == 0 && deg[z] == 0
  {
    var entry: Option<int> := None;
    ghost var at := 0;
    var i := 0;
    while i < |keys|
      invariant i <= |keys|
      invariant entry.None? ==> forall k :: 0 <= k < i ==> keys[k] in deg && deg[keys[k]] != 0
      invariant entry.Some? ==> at < i && keys[at] == entry.value && deg[entry.value] == 0
      invariant entry.Some? ==> forall k :: 0 <= k < i && keys[k] in deg && deg[keys[k]] == 0 ==> k == at
    {
      var x := keys[i];
      assert x in keys;
      if deg[x] == 0 {
        if entry.Some? {
          assert keys[at] != x;
          return Err(MultipleEntries);
        }
        entry, at := Some(x), i;
      }
      i := i + 1;
    }
    if entry.None? {
      return Err(NoEntry);
    }
    return Ok(entry.value);
  }

  /** A key of the in-degree dict of lines 63-70: a node, or an `(v, edge_info)` pair. */
  datatype DegKey = Node(n: int) | Pair(v: int, info: Label)

  /** The nodes among `keys`, in order. */
  function NodesOf(keys: seq<DegKey>): seq<int>
    decreases |keys|
  {
    if keys == [] then []
    else NodesOf(keys[..|keys| - 1]) + (if keys[|keys| - 1].Node? then [keys[|keys| - 1].n] else [])
  }

  /**
   * Lines 62-74: the nodes Tarjan starts from. The in-degree dict is keyed
   * by the `(v, edge_info)` pairs of the edge lists, never by nodes, so
   * every node keeps in-degree zero and every node of the graph is a seed,
   * in dict order.
   */
  method TarjanSeeds(g: LGraph) returns (seeds: seq<int>)
    requires NoDup(g.order)
    ensures seeds == g.order
  {
    var deg: map<DegKey, nat> := map[];
    var keys: seq<DegKey> := [];
    var i := 0;
    while i < |g.order|
      invariant i <= |g.order|
      invariant NodesOf(keys) == g.order[..i]
      invariant forall k :: k in keys <==> k in deg
      invariant forall x :: Node(x) in deg <==> x in g.order[..i]
      invariant forall k :: k in deg ==> (deg[k] == 0 <==> k.Node?)
    {
      var u := g.order[i];
      assert g.order[..i + 1] == g.order[..i] + [u];
      if Node(u) !in deg {
        deg, keys := deg[Node(u) := 0], keys + [Node(u)];
      }
      deg, keys := CountPairs(EdgesOf(g, u), deg, keys);
      i := i + 1;
    }
    assert g.order[..i] == g.order;
    seeds := [];
    var m := 0;
    while m < |keys|
      invariant m <= |keys| && seeds == NodesOf(keys[..m])
    {
      assert keys[..m + 1][..m] == keys[..m];
      if deg[keys[m]] == 0 {
        seeds := seeds + [keys[m].n];
      }
      m := m + 1;
    }
    assert keys[..m] == keys;
  }

  /** Lines 67-70 for one node: every `(v, edge_info)` pair of its list gains one in-edge. */
  method CountPairs(es: seq<(int, Label)>, deg: map<DegKey, nat>, keys: seq<DegKey>)
    returns (deg': map<DegKey, nat>, keys': seq<DegKey>)
    requires forall k :: k in keys <==> k in deg
    requires forall k :: k in deg ==> (deg[k] == 0 <==> k.Node?)
    ensures NodesOf(keys') == NodesOf(keys)
    ensures forall k :: k in keys' <==> k in deg'
    ensures forall x :: Node(x) in deg' <==> Node(x) in deg
    ensures forall k :: k in deg' ==> (deg'[k] == 0 <==> k.Node?)
  {
    deg', keys' := deg, keys;
    var j := 0;
    while j < |es|
      invariant j <= |es|
      invariant NodesOf(keys') == NodesOf(keys)
      invariant forall k :: k in keys' <==> k in deg'
      invariant forall x :: Node(x) in deg' <==> Node(x) in deg
      invariant forall k :: k in deg' ==> (deg'[k] == 0 <==> k.Node?)
    {
      var k := Pair(es[j].0, es[j].1);
      if k !in deg' {
        assert (keys' + [k])[..|keys'|] == keys';
        deg', keys' := deg'[k := 0], keys' + [k];
      }
      deg' := deg'[k := deg'[k] + 1];
      j := j + 1;
    }
  }
}
