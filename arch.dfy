/**
 * The parsers of src/arch/arch.py, over their inputs as data: the
 * line-program records that `read_dwarf` walks and the lines of
 * `objdump -d` output that `read_textdump` walks. Also the mnemonic
 * helpers the per-architecture classifiers share.
 */
module Arch {
  import opened Wrappers
  import opened PyStr

  /** The exceptions the modelled code can raise. */
  datatype ArchError = IndexError | ValueError

  // ------------------------------------------------------------ lpe_filename

  /** One `file_entry` of a line-program header: a name and a directory index. */
  datatype FileEntry = FileEntry(name: string, dirIndex: nat)

  /** The two tables of a line-program header that `lpe_filename` reads. */
  datatype LpHeader = LpHeader(fileEntry: seq<FileEntry>, includeDirectory: seq<string>)

  /** `posixpath.join(a, b)`: `b` when it is absolute, else `a` and `b` with one `/` between. */
  function JoinPath(a: string, b: string): (r: string)
    ensures |b| > 0 && b[0] == '/' ==> r == b
    ensures (|b| == 0 || b[0] != '/') ==> |r| >= |a| + |b| && r[|r| - |b|..] == b && r[..|a|] == a
  {
    if |b| > 0 && b[0] == '/' then b
    else if a == [] || a[|a| - 1] == '/' then a + b
    else a + "/" + b
  }

  /**
   * `lpe_filename(line_program, file_index)`: file entries are numbered
   * from 1 (section 6.2.4 of DWARF Version 4); directory index 0 is the
   * compilation directory, left implicit, and other directory indexes are
   * 1-based into `include_directory`.
   */
  function LpeFilename(header: LpHeader, fileIndex: nat): (r: Result<string, ArchError>)
    ensures 1 <= fileIndex <= |header.fileEntry| ==>
      var e := header.fileEntry[fileIndex - 1];
      && (r.Ok? <==> e.dirIndex <= |header.includeDirectory|)
      && (r.Ok? && e.dirIndex == 0 ==> r.value == e.name)
      && (r.Ok? && e.dirIndex > 0 ==> r.value == JoinPath(header.includeDirectory[e.dirIndex - 1], e.name))
    ensures fileIndex > |header.fileEntry| ==> r == Err(IndexError)
  {
    match PyIndex(header.fileEntry, fileIndex - 1)
    case None => Err(IndexError)
    case Some(e) =>
      if e.dirIndex == 0 then Ok(e.name)
      else
        match PyIndex(header.includeDirectory, e.dirIndex - 1)
        case None => Err(IndexError)
        case Some(dir) => Ok(JoinPath(dir, e.name))
  }

  /** File index 0 reaches the last file entry through Python's negative indexing. */
  lemma LpeFilenameZero(header: LpHeader)
    requires |header.fileEntry| > 0 && header.fileEntry[|header.fileEntry| - 1].dirIndex == 0
    ensures LpeFilename(header, 0) == Ok(header.fileEntry[|header.fileEntry| - 1].name)
  {
  }

  // --------------------------------------------------------------- read_dwarf

  /** The fields of a line-program row's `state` that `read_dwarf` reads. */
  datatype LineState = LineState(file: nat, line: int, column: int, address: int)

  /** A compilation unit's line program: its header and its entries, `None` for an entry without a state. */
  datatype LineProgram = LineProgram(header: LpHeader, entries: seq<Option<LineState>>)

  /** One row `read_dwarf` records: (file name, line, column, pc). */
  datatype Row = Row(file: string, line: int, col: int, pc: int)

  /** `{filename: {line: {col: [pc, ...]}}}` */
  type FileLocPc = map<string, map<int, map<int, seq<int>>>>

  /** `{pc: [(filename, line, col)]}` */
  type PcLocFile = map<int, seq<(string, int, int)>>

  /** The entries of one line program that name a file: a state whose `file` is not 0. */
  function KeptEntries(header: LpHeader, entries: seq<Option<LineState>>): (r: seq<(LpHeader, LineState)>)
    ensures |r| <= |entries|
    ensures forall k :: 0 <= k < |r| ==> r[k].0 == header && r[k].1.file != 0
    ensures forall k :: 0 <= k < |entries| && entries[k].Some? && entries[k].value.file != 0
              ==> (header, entries[k].value) in r
  {
    if entries == [] then []
    else
      var rest := KeptEntries(header, entries[..|entries| - 1]);
      var e := entries[|entries| - 1];
      if e.None? || e.value.file == 0 then rest else rest + [(header, e.value)]
  }

  /** The entries of every compilation unit with a line program, in order. */
  function Kept(cus: seq<Option<LineProgram>>): seq<(LpHeader, LineState)> {
    if cus == [] then []
    else
      var last := cus[|cus| - 1];
      Kept(cus[..|cus| - 1]) + (if last.None? then [] else KeptEntries(last.value.header, last.value.entries))
  }

  /** The rows of the kept entries, or the error of the first whose file name cannot be looked up. */
  function Rows(ks: seq<(LpHeader, LineState)>): (r: Result<seq<Row>, ArchError>)
    ensures r.Ok? ==> |r.value| == |ks|
  {
    if ks == [] then Ok([])
    else
      var k := ks[|ks| - 1];
      match Rows(ks[..|ks| - 1])
      case Err(e) => Err(e)
      case Ok(rows) =>
        match LpeFilename(k.0, k.1.file)
        case Err(e) => Err(e)
        case Ok(name) => Ok(rows + [Row(name, k.1.line, k.1.column, k.1.address)])
  }

  /** A failure stays a failure whatever entries follow. */
  lemma {:induction false} RowsErrExtends(ks: seq<(LpHeader, LineState)>, more: seq<(LpHeader, LineState)>)
    requires Rows(ks).Err?
    ensures Rows(ks + more).Err?
    decreases |more|
  {
    if more != [] {
      var init := more[..|more| - 1];
      assert (ks + more)[..|ks + more| - 1] == ks + init;
      RowsErrExtends(ks, init);
    } else {
      assert ks + more == ks;
    }
  }

  /** The pcs recorded for (file, line, col), in row order. */
  function PcsOf(rows: seq<Row>, f: string, l: int, c: int): seq<int> {
    if rows == [] then []
    else
      var r := rows[|rows| - 1];
      PcsOf(rows[..|rows| - 1], f, l, c) + (if r.file == f && r.line == l && r.col == c then [r.pc] else [])
  }

  /** The (file, line, col) triples recorded for `pc`, in row order. */
  function LocsOf(rows: seq<Row>, pc: int): seq<(string, int, int)> {
    if rows == [] then []
    else
      var r := rows[|rows| - 1];
      LocsOf(rows[..|rows| - 1], pc) + (if r.pc == pc then [(r.file, r.line, r.col)] else [])
  }

  /** `file_loc_pc[f][l][c]`, or `[]` where a key is missing. */
  function Pcs(flp: FileLocPc, f: string, l: int, c: int): seq<int> {
    if f in flp && l in flp[f] && c in flp[f][l] then flp[f][l][c] else []
  }

  /** `pc_loc_file[pc]`, or `[]` where it is missing. */
  function Locs(plf: PcLocFile, pc: int): seq<(string, int, int)> {
    if pc in plf then plf[pc] else []
  }

  /** No level of `file_loc_pc` holds an empty dict or list: each was created for an entry appended at once. */
  ghost predicate NoEmptyFlp(flp: FileLocPc) {
    && (forall f :: f in flp ==> flp[f] != map[])
    && (forall f, l :: f in flp && l in flp[f] ==> flp[f][l] != map[])
    && (forall f, l, c :: f in flp && l in flp[f] && c in flp[f][l] ==> |flp[f][l][c]| > 0)
  }

  /** No list of `pc_loc_file` is empty. */
  ghost predicate NoEmptyPlf(plf: PcLocFile) {
    forall pc :: pc in plf ==> |plf[pc]| > 0
  }

  /** The two indexes hold exactly the rows, in order. */
  ghost predicate IndexesHold(flp: FileLocPc, plf: PcLocFile, rows: seq<Row>) {
    && NoEmptyFlp(flp) && NoEmptyPlf(plf)
    && (forall f, l, c :: Pcs(flp, f, l, c) == PcsOf(rows, f, l, c))
    && (forall pc :: Locs(plf, pc) == LocsOf(rows, pc))
  }

  /**
   * A trigger guard that holds for every `n` and means nothing in the model:
   * the invariant it guards is opened only where a proof asserts `IndexKey(0)`
   * (see `DomGraph.Unseal`).
   */
  predicate IndexKey(n: nat) {
    n >= 0
  }

  /**
   * `IndexesHold`, sealed: the loops of `read_dwarf` pass it on without
   * looking inside; `AddRow` and `IndexLookup` open it with `IndexKey(0)`.
   */
  ghost predicate Indexes(flp: FileLocPc, plf: PcLocFile, rows: seq<Row>) {
    forall n {:trigger IndexKey(n)} :: IndexKey(n) ==> IndexesHold(flp, plf, rows)
  }

  /** What the sealed invariant says about a lookup in either index. */
  lemma IndexLookup(flp: FileLocPc, plf: PcLocFile, rows: seq<Row>, f: string, l: int, c: int, pc: int)
    requires Indexes(flp, plf, rows)
    ensures Pcs(flp, f, l, c) == PcsOf(rows, f, l, c) && Locs(plf, pc) == LocsOf(rows, pc)
    ensures f in flp ==> flp[f] != map[]
    ensures pc in plf ==> |plf[pc]| > 0
  {
    assert IndexKey(0);
  }

  /** Lines 39-45: appends `pc` under (f, l, c), creating the levels that are missing. */
  method AddPc(flp: FileLocPc, f: string, l: int, c: int, pc: int) returns (flp': FileLocPc)
    ensures forall x, y, z :: Pcs(flp', x, y, z) == Pcs(flp, x, y, z) + (if x == f && y == l && z == c then [pc] else [])
    ensures NoEmptyFlp(flp) ==> NoEmptyFlp(flp')
  {
    var byLine := if f in flp then flp[f] else map[];
    var byCol := if l in byLine then byLine[l] else map[];
    var pcs := if c in byCol then byCol[c] else [];
    flp' := flp[f := byLine[l := byCol[c := pcs + [pc]]]];
  }

  /** Lines 46-48: appends (f, l, c) under `pc`, creating the list when it is missing. */
  method AddLoc(plf: PcLocFile, f: string, l: int, c: int, pc: int) returns (plf': PcLocFile)
    ensures forall q :: Locs(plf', q) == Locs(plf, q) + (if q == pc then [(f, l, c)] else [])
    ensures NoEmptyPlf(plf) ==> NoEmptyPlf(plf')
  {
    var locs := if pc in plf then plf[pc] else [];
    plf' := plf[pc := locs + [(f, l, c)]];
  }

  /** Lines 39-48: records one row in both indexes. */
  method AddRow(flp: FileLocPc, plf: PcLocFile, ghost rows: seq<Row>, row: Row)
    returns (flp': FileLocPc, plf': PcLocFile)
    requires Indexes(flp, plf, rows)
    ensures Indexes(flp', plf', rows + [row])
  {
    assert IndexKey(0);
    flp' := AddPc(flp, row.file, row.line, row.col, row.pc);
    plf' := AddLoc(plf, row.file, row.line, row.col, row.pc);
    DropSnoc(rows, row);
    forall x, y, z ensures Pcs(flp', x, y, z) == PcsOf(rows + [row], x, y, z) {
    }
    forall q ensures Locs(plf', q) == LocsOf(rows + [row], q) {
    }
  }

  lemma DropSnoc<T>(s: seq<T>, x: T)
    ensures (s + [x])[..|s|] == s && (s + [x])[|s|] == x
  {
  }

  /**
   * `read_dwarf` (lines 23-49): the line programs of the compilation units,
   * `None` for a unit without one, walked in order. A failed file-name
   * lookup raises out of the whole walk.
   */
  method ReadDwarf(cus: seq<Option<LineProgram>>) returns (r: Result<(FileLocPc, PcLocFile), ArchError>)
    ensures r.Ok? <==> Rows(Kept(cus)).Ok?
    ensures r.Ok? ==> Indexes(r.value.0, r.value.1, Rows(Kept(cus)).value)
  {
    var flp: FileLocPc := map[];
    var plf: PcLocFile := map[];
    ghost var rows: seq<Row> := [];
    var i := 0;
    while i < |cus|
      invariant 0 <= i <= |cus|
      invariant Rows(Kept(cus[..i])) == Ok(rows)
      invariant Indexes(flp, plf, rows)
    {
      KeptStep(cus, i);
      if cus[i].Some? {
        var prog := cus[i].value;
        var res := AddUnit(prog, flp, plf, Kept(cus[..i]), rows);
        if res.Err? {
          KeptErr(cus, i + 1);
          return Err(res.error);
        }
        flp, plf := res.value.0, res.value.1;
        rows := Rows(Kept(cus[..i + 1])).value;
      }
      i := i + 1;
    }
    assert cus[..i] == cus;
    r := Ok((flp, plf));
  }

  /** One unit of the outer loop: the entries it adds to those kept. */
  lemma KeptStep(cus: seq<Option<LineProgram>>, i: nat)
    requires i < |cus|
    ensures cus[i].None? ==> Kept(cus[..i + 1]) == Kept(cus[..i])
    ensures cus[i].Some? ==>
      Kept(cus[..i + 1]) == Kept(cus[..i]) + KeptEntries(cus[i].value.header, cus[i].value.entries)
  {
    DropSnoc(cus[..i], cus[i]);
    assert cus[..i + 1] == cus[..i] + [cus[i]];
  }

  /** A failure in the first `i` units fails the whole walk. */
  lemma KeptErr(cus: seq<Option<LineProgram>>, i: nat)
    requires i <= |cus| && Rows(Kept(cus[..i])).Err?
    ensures Rows(Kept(cus)).Err?
  {
    var done, rest := cus[..i], cus[i..];
    assert done + rest == cus;
    KeptAppend(done, rest);
    var kept := Kept(done) + Kept(rest);
    assert Kept(cus) == kept;
    RowsErrExtends(Kept(done), Kept(rest));
  }

  /**
   * The inner loop of `read_dwarf` (lines 32-48) over the entries of one
   * line program: entries without a state or with file 0 are skipped;
   * every other one is recorded under its file name, line and column and
   * under its pc.
   */
  method AddUnit(prog: LineProgram, flp: FileLocPc, plf: PcLocFile, ghost before: seq<(LpHeader, LineState)>, ghost rows: seq<Row>)
    returns (r: Result<(FileLocPc, PcLocFile), ArchError>)
    requires Rows(before) == Ok(rows) && Indexes(flp, plf, rows)
    ensures r.Ok? <==> Rows(before + KeptEntries(prog.header, prog.entries)).Ok?
    ensures r.Ok? ==> Indexes(r.value.0, r.value.1, Rows(before + KeptEntries(prog.header, prog.entries)).value)
  {
    var byLoc, byPc := flp, plf;
    ghost var done := rows;
    var j := 0;
    assert prog.entries[..0] == [];
    assert before + KeptEntries(prog.header, prog.entries[..0]) == before;
    while j < |prog.entries|
      invariant 0 <= j <= |prog.entries|
      invariant Rows(before + KeptEntries(prog.header, prog.entries[..j])) == Ok(done)
      invariant Indexes(byLoc, byPc, done)
    {
      var step;
      step, done := UnitEntry(prog.header, prog.entries, j, byLoc, byPc, before, done);
      if step.Err? {
        return Err(step.error);
      }
      byLoc, byPc := step.value.0, step.value.1;
      j := j + 1;
    }
    assert prog.entries[..j] == prog.entries;
    r := Ok((byLoc, byPc));
  }

  /** One entry of the inner loop: skipped, recorded, or the failure of the whole line program. */
  method UnitEntry(h: LpHeader, es: seq<Option<LineState>>, j: nat, flp: FileLocPc, plf: PcLocFile,
                   ghost before: seq<(LpHeader, LineState)>, ghost done: seq<Row>)
    returns (r: Result<(FileLocPc, PcLocFile), ArchError>, ghost done': seq<Row>)
    requires j < |es| && Rows(before + KeptEntries(h, es[..j])) == Ok(done) && Indexes(flp, plf, done)
    ensures r.Err? ==> Rows(before + KeptEntries(h, es)).Err?
    ensures r.Ok? ==> Rows(before + KeptEntries(h, es[..j + 1])) == Ok(done') && Indexes(r.value.0, r.value.1, done')
  {
    var e := es[j];
    if e.Some? && e.value.file != 0 {
      var s := e.value;
      var name := LpeFilename(h, s.file);
      if name.Err? {
        StepFails(before, h, es, j, done);
        return Err(name.error), done;
      }
      var row := Row(name.value, s.line, s.column, s.address);
      StepRecords(before, h, es, j, done, row);
      var byLoc, byPc := AddRow(flp, plf, done, row);
      r, done' := Ok((byLoc, byPc)), done + [row];
    } else {
      StepSkips(before, h, es, j, done);
      r, done' := Ok((flp, plf)), done;
    }
  }

  /** An entry the inner loop skips adds no row. */
  lemma StepSkips(before: seq<(LpHeader, LineState)>, h: LpHeader, es: seq<Option<LineState>>, j: nat, done: seq<Row>)
    requires j < |es| && Rows(before + KeptEntries(h, es[..j])) == Ok(done)
    requires es[j].None? || es[j].value.file == 0
    ensures Rows(before + KeptEntries(h, es[..j + 1])) == Ok(done)
  {
    StepSkip(before, h, es, j);
  }

  /** An entry whose file name is not found fails the whole line program. */
  lemma StepFails(before: seq<(LpHeader, LineState)>, h: LpHeader, es: seq<Option<LineState>>, j: nat, done: seq<Row>)
    requires j < |es| && es[j].Some? && es[j].value.file != 0
    requires LpeFilename(h, es[j].value.file).Err?
    ensures Rows(before + KeptEntries(h, es)).Err?
  {
    StepKept(before, h, es, j);
    RowsAppendErr(before + KeptEntries(h, es[..j]), (h, es[j].value));
    UnitErr(h, es, j, before);
  }

  /** An entry whose file name is found adds its row. */
  lemma StepRecords(before: seq<(LpHeader, LineState)>, h: LpHeader, es: seq<Option<LineState>>, j: nat, done: seq<Row>, row: Row)
    requires j < |es| && Rows(before + KeptEntries(h, es[..j])) == Ok(done)
    requires es[j].Some? && es[j].value.file != 0 && LpeFilename(h, es[j].value.file).Ok?
    requires row == Row(LpeFilename(h, es[j].value.file).value, es[j].value.line, es[j].value.column, es[j].value.address)
    ensures Rows(before + KeptEntries(h, es[..j + 1])) == Ok(done + [row])
  {
    StepKept(before, h, es, j);
    RowsAppendOk(before + KeptEntries(h, es[..j]), (h, es[j].value), done);
  }

  lemma StepSkip(before: seq<(LpHeader, LineState)>, h: LpHeader, es: seq<Option<LineState>>, j: nat)
    requires j < |es| && (es[j].None? || es[j].value.file == 0)
    ensures before + KeptEntries(h, es[..j + 1]) == before + KeptEntries(h, es[..j])
  {
    assert es[..j + 1][..j] == es[..j];
  }

  /** An entry the inner loop records: the kept entries grow by it. */
  lemma StepKept(before: seq<(LpHeader, LineState)>, h: LpHeader, es: seq<Option<LineState>>, j: nat)
    requires j < |es| && es[j].Some? && es[j].value.file != 0
    ensures before + KeptEntries(h, es[..j + 1]) == before + KeptEntries(h, es[..j]) + [(h, es[j].value)]
  {
    assert es[..j + 1][..j] == es[..j];
  }

  /** A row whose file name is found extends the rows. */
  lemma RowsAppendOk(ks: seq<(LpHeader, LineState)>, k: (LpHeader, LineState), done: seq<Row>)
    requires Rows(ks) == Ok(done) && LpeFilename(k.0, k.1.file).Ok?
    ensures Rows(ks + [k]) == Ok(done + [Row(LpeFilename(k.0, k.1.file).value, k.1.line, k.1.column, k.1.address)])
  {
    DropSnoc(ks, k);
  }

  /** A row whose file name is not found fails the rows. */
  lemma RowsAppendErr(ks: seq<(LpHeader, LineState)>, k: (LpHeader, LineState))
    requires LpeFilename(k.0, k.1.file).Err?
    ensures Rows(ks + [k]).Err?
  {
    DropSnoc(ks, k);
  }

  /** A failure inside one line program fails the rest of it too. */
  lemma UnitErr(h: LpHeader, es: seq<Option<LineState>>, j: nat, before: seq<(LpHeader, LineState)>)
    requires j < |es| && Rows(before + KeptEntries(h, es[..j + 1])).Err?
    ensures Rows(before + KeptEntries(h, es)).Err?
  {
    var k1, k2 := KeptEntries(h, es[..j + 1]), KeptEntries(h, es[j + 1..]);
    assert es == es[..j + 1] + es[j + 1..];
    KeptEntriesAppend(h, es[..j + 1], es[j + 1..]);
    RowsErrExtends(before + k1, k2);
    assert before + (k1 + k2) == before + k1 + k2;
  }

  lemma {:induction false} KeptEntriesAppend(h: LpHeader, a: seq<Option<LineState>>, b: seq<Option<LineState>>)
    ensures KeptEntries(h, a + b) == KeptEntries(h, a) + KeptEntries(h, b)
    decreases |b|
  {
    if b != [] {
      var init := b[..|b| - 1];
      assert (a + b)[..|a + b| - 1] == a + init;
      KeptEntriesAppend(h, a, init);
    } else {
      assert a + b == a;
    }
  }

  /** One entry is kept, with the header, exactly when it has a state naming a file. */
  lemma KeptEntriesOne(h: LpHeader, e: Option<LineState>)
    ensures KeptEntries(h, [e]) == if e.Some? && e.value.file != 0 then [(h, e.value)] else []
  {
    assert [e][..0] == [];
  }

  lemma {:induction false} KeptAppend(a: seq<Option<LineProgram>>, b: seq<Option<LineProgram>>)
    ensures Kept(a + b) == Kept(a) + Kept(b)
    decreases |b|
  {
    if b != [] {
      var init, last := b[..|b| - 1], b[|b| - 1];
      var tail := if last.None? then [] else KeptEntries(last.value.header, last.value.entries);
      assert (a + b)[..|a + b| - 1] == a + init;
      assert (a + b)[|a + b| - 1] == last;
      assert Kept(a + b) == Kept(a + init) + tail;
      assert Kept(b) == Kept(init) + tail;
      KeptAppend(a, init);
    } else {
      assert a + b == a;
    }
  }

  lemma KeptSnoc(a: seq<Option<LineProgram>>, prog: LineProgram)
    ensures Kept(a + [Some(prog)]) == Kept(a) + KeptEntries(prog.header, prog.entries)
  {
    assert (a + [Some(prog)])[..|a|] == a;
  }

  /** How often `x` occurs in `s`. */
  function Occurrences<T(==)>(s: seq<T>, x: T): nat {
    multiset(s)[x]
  }

  /**
   * The two indexes agree: `pc` is listed under (f, l, c) exactly as often as
   * (f, l, c) is listed under `pc`, namely once per row with all four values.
   */
  lemma IndexesAgree(rows: seq<Row>, f: string, l: int, c: int, pc: int)
    ensures Occurrences(PcsOf(rows, f, l, c), pc) == Occurrences(LocsOf(rows, pc), (f, l, c))
    ensures Occurrences(PcsOf(rows, f, l, c), pc) == Occurrences(rows, Row(f, l, c, pc))
  {
    PcsCount(rows, f, l, c, pc);
    LocsCount(rows, f, l, c, pc);
  }

  /** `pc` is listed under (f, l, c) once per row with all four values. */
  lemma {:induction false} PcsCount(rows: seq<Row>, f: string, l: int, c: int, pc: int)
    ensures Occurrences(PcsOf(rows, f, l, c), pc) == Occurrences(rows, Row(f, l, c, pc))
  {
    if rows != [] {
      var init, r := rows[..|rows| - 1], rows[|rows| - 1];
      PcsCount(init, f, l, c, pc);
      var p := if r.file == f && r.line == l && r.col == c then [r.pc] else [];
      OccurrencesAppend(PcsOf(init, f, l, c), p, pc);
      Snoc(rows);
      OccurrencesAppend(init, [r], Row(f, l, c, pc));
    }
  }

  /** (f, l, c) is listed under `pc` once per row with all four values. */
  lemma {:induction false} LocsCount(rows: seq<Row>, f: string, l: int, c: int, pc: int)
    ensures Occurrences(LocsOf(rows, pc), (f, l, c)) == Occurrences(rows, Row(f, l, c, pc))
  {
    if rows != [] {
      var init, r := rows[..|rows| - 1], rows[|rows| - 1];
      LocsCount(init, f, l, c, pc);
      var q := if r.pc == pc then [(r.file, r.line, r.col)] else [];
      OccurrencesAppend(LocsOf(init, pc), q, (f, l, c));
      Snoc(rows);
      OccurrencesAppend(init, [r], Row(f, l, c, pc));
    }
  }

  lemma Snoc<T>(s: seq<T>)
    requires |s| > 0
    ensures s == s[..|s| - 1] + [s[|s| - 1]]
  {
  }

  lemma OccurrencesAppend<T>(s: seq<T>, t: seq<T>, x: T)
    ensures Occurrences(s + t, x) == Occurrences(s, x) + Occurrences(t, x)
  {
    assert multiset(s + t) == multiset(s) + multiset(t);
  }

  // ------------------------------------------------------------ read_textdump

  /** `(hex_code, instr)`: an instruction's encoding and the text after it. */
  type Instr = (int, string)

  /** `{'addr': address, 'instr': {addr: (hex_code, instr)}}` */
  datatype Symbol = Symbol(addr: int, instr: map<int, Instr>)

  /** What a stripped line of `objdump -d` output is to `read_textdump`; `Code` carries its parse. */
  datatype LineKind =
    | Skip
    | SectionLine(section: string)
    | DotHeader
    | Header(addr: int, name: string)
    | Code(parsed: Result<(int, Instr), ArchError>)

  const SectionPrefix: string := "Disassembly of section "

  /** `^Disassembly of section ([^:]+):$`: the section name, when the line has that form. */
  function SectionMatch(t: string): (r: Option<string>)
    ensures r.Some? ==> |r.value| > 0 && ':' !in r.value && t == SectionPrefix + r.value + ":"
  {
    if |t| >= |SectionPrefix| + 2 && t[..|SectionPrefix|] == SectionPrefix && t[|t| - 1] == ':'
       && ':' !in t[|SectionPrefix|..|t| - 1]
    then
      assert t == t[..|SectionPrefix|] + t[|SectionPrefix|..|t| - 1] + [t[|t| - 1]];
      Some(t[|SectionPrefix|..|t| - 1])
    else None
  }

  /** Every line of that form is recognised, with its name. */
  lemma SectionMatchComplete(name: string)
    requires |name| > 0 && ':' !in name
    ensures SectionMatch(SectionPrefix + name + ":") == Some(name)
  {
    var t := SectionPrefix + name + ":";
    assert t[..|SectionPrefix|] == SectionPrefix;
    assert t[|SectionPrefix|..|t| - 1] == name;
  }

  predicate HexDigit(c: char) {
    IsDigit(c, 16)
  }

  /** The length of the longest prefix of `s` of hex digits. */
  function HexRun(s: string): (k: nat)
    ensures k <= |s|
  {
    if s == [] || !HexDigit(s[0]) then 0 else 1 + HexRun(s[1..])
  }

  /** The run `HexRun` measures is made of hex digits. */
  lemma {:induction false} HexRunDigits(s: string)
    ensures AllDigits(s[..HexRun(s)], 16)
  {
    if s != [] && HexDigit(s[0]) {
      HexRunDigits(s[1..]);
      assert s[..HexRun(s)] == [s[0]] + s[1..][..HexRun(s[1..])];
    }
  }

  /** The length of the longest prefix of `s` of whitespace. */
  function SpaceRun(s: string): (k: nat)
    ensures k <= |s|
  {
    if s == [] || !IsSpace(s[0]) then 0 else 1 + SpaceRun(s[1..])
  }

  /**
   * `^([0-9a-fA-F]+)\s+<([^>]+)>:$`: the address digits and the symbol
   * name, when the line has that form.
   */
  function HeaderMatch(t: string): (r: Option<(string, string)>)
    ensures r.Some? ==> |r.value.0| > 0 && AllDigits(r.value.0, 16)
    ensures r.Some? ==> |r.value.1| > 0 && '>' !in r.value.1
  {
    var k := HexRun(t);
    var w := SpaceRun(t[k..]);
    HexRunDigits(t);
    if k == 0 || w == 0 || k + w >= |t| || t[k + w] != '<' then None
    else
      match NameMatch(t[k + w + 1..])
      case None => None
      case Some(name) => Some((t[..k], name))
  }

  /** `([^>]+)>:$`: what follows the `<` of a header. */
  function NameMatch(rest: string): (r: Option<string>)
    ensures r.Some? ==> |r.value| > 0 && '>' !in r.value
  {
    var j := Find(rest, '>');
    if j < 1 || |rest| != j + 2 || rest[j + 1] != ':' then None
    else Some(rest[..j])
  }

  /** What `NameMatch` accepts is its name followed by `>:` and nothing else. */
  lemma NameMatchShape(rest: string)
    ensures NameMatch(rest).Some? ==> rest == NameMatch(rest).value + ">:"
  {
    var j := Find(rest, '>');
    if NameMatch(rest).Some? {
      assert rest == rest[..j] + ">:";
    }
  }

  /** The header line for `hex`, `ws` and `name`: `<hex><ws><<name>>:`. */
  function HeaderLine(hex: string, ws: string, name: string): string {
    hex + ws + "<" + name + ">:"
  }

  /** Every line of that form is recognised, with its digits and name. */
  lemma HeaderMatchComplete(hex: string, ws: string, name: string)
    requires |hex| > 0 && AllDigits(hex, 16)
    requires |ws| > 0 && AllSpace(ws)
    requires |name| > 0 && '>' !in name
    ensures HeaderMatch(HeaderLine(hex, ws, name)) == Some((hex, name))
  {
    HeaderLineCut(hex, ws, name);
    HeaderMatchOf(HeaderLine(hex, ws, name), |hex|, |ws|, name);
  }

  /** A header line cut at `|hex|` digits and `|ws|` spaces. */
  ghost predicate HeaderCut(t: string, k: nat, w: nat, name: string) {
    && 0 < k && 0 < w && k + w < |t|
    && HexRun(t) == k && SpaceRun(t[k..]) == w
    && t[k + w] == '<' && NameMatch(t[k + w + 1..]) == Some(name)
  }

  lemma HeaderLineCut(hex: string, ws: string, name: string)
    requires |hex| > 0 && AllDigits(hex, 16)
    requires |ws| > 0 && AllSpace(ws)
    requires |name| > 0 && '>' !in name
    ensures HeaderCut(HeaderLine(hex, ws, name), |hex|, |ws|, name)
    ensures HeaderLine(hex, ws, name)[..|hex|] == hex
  {
    HeaderLineHex(hex, ws, name);
    HeaderLineSpace(hex, ws, name);
    HeaderLineName(hex, ws, name);
  }

  lemma HeaderLineHex(hex: string, ws: string, name: string)
    requires AllDigits(hex, 16) && |ws| > 0 && AllSpace(ws)
    ensures HexRun(HeaderLine(hex, ws, name)) == |hex|
  {
    var tail := ws + "<" + name + ">:";
    assert HeaderLine(hex, ws, name) == hex + tail;
    assert tail[0] == ws[0];
    HexRunOf(hex, tail);
  }

  lemma HeaderLineSpace(hex: string, ws: string, name: string)
    requires AllSpace(ws)
    ensures |hex| <= |HeaderLine(hex, ws, name)|
    ensures SpaceRun(HeaderLine(hex, ws, name)[|hex|..]) == |ws|
  {
    var t := HeaderLine(hex, ws, name);
    var tail := "<" + name + ">:";
    assert t[|hex|..] == ws + tail;
    SpaceRunOf(ws, tail);
  }

  lemma HeaderLineName(hex: string, ws: string, name: string)
    requires |name| > 0 && '>' !in name
    ensures |hex| + |ws| < |HeaderLine(hex, ws, name)|
    ensures HeaderLine(hex, ws, name)[|hex| + |ws|] == '<'
    ensures NameMatch(HeaderLine(hex, ws, name)[|hex| + |ws| + 1..]) == Some(name)
    ensures HeaderLine(hex, ws, name)[..|hex|] == hex
  {
    var t := HeaderLine(hex, ws, name);
    assert t[|hex| + |ws| + 1..] == name + ">:";
    NameMatchOf(name);
  }

  /** `HeaderMatch` on a line cut into its digits, its spaces, `<` and what `NameMatch` accepts. */
  lemma HeaderMatchOf(t: string, k: nat, w: nat, name: string)
    requires HeaderCut(t, k, w, name)
    ensures HeaderMatch(t) == Some((t[..k], name))
  {
    HeaderMatchFound(t, k, w, name);
    HeaderMatchDigits(t, k, w, name);
    HeaderMatchName(t, k, w, name);
  }

  lemma HeaderMatchFound(t: string, k: nat, w: nat, name: string)
    requires HeaderCut(t, k, w, name)
    ensures HeaderMatch(t).Some?
  {
  }

  lemma HeaderMatchDigits(t: string, k: nat, w: nat, name: string)
    requires HeaderCut(t, k, w, name)
    ensures HeaderMatch(t).Some? ==> HeaderMatch(t).value.0 == t[..k]
  {
  }

  lemma HeaderMatchName(t: string, k: nat, w: nat, name: string)
    requires HeaderCut(t, k, w, name)
    ensures HeaderMatch(t).Some? ==> HeaderMatch(t).value.1 == name
  {
  }

  lemma NameMatchOf(name: string)
    requires |name| > 0 && '>' !in name
    ensures NameMatch(name + ">:") == Some(name)
  {
    FindAfter(name, ">:", '>');
    assert (name + ">:")[..|name|] == name;
  }

  /** The first `c` in `a + b` is the first of `b` when `a` holds none. */
  lemma FindAfter(a: string, b: string, c: char)
    requires c !in a && |b| > 0 && b[0] == c
    ensures Find(a + b, c) == |a|
  {
    var k := Find(a + b, c);
    assert (a + b)[|a|] == c;
  }

  lemma {:induction false} HexRunOf(hex: string, more: string)
    requires AllDigits(hex, 16) && (more == [] || !HexDigit(more[0]))
    ensures HexRun(hex + more) == |hex|
    decreases |hex|
  {
    if hex != [] {
      assert (hex + more)[1..] == hex[1..] + more;
      assert HexDigit(hex[0]);
      HexRunOf(hex[1..], more);
    } else {
      assert hex + more == more;
    }
  }

  lemma {:induction false} SpaceRunOf(ws: string, more: string)
    requires AllSpace(ws) && (more == [] || !IsSpace(more[0]))
    ensures SpaceRun(ws + more) == |ws|
    decreases |ws|
  {
    if ws != [] {
      assert (ws + more)[1..] == ws[1..] + more;
      SpaceRunOf(ws[1..], more);
    } else {
      assert ws + more == more;
    }
  }

  /** A hex digit is neither whitespace, a sign, an underscore nor the `x` of a prefix. */
  lemma HexDigitPlain(c: char)
    requires HexDigit(c)
    ensures !IsSpace(c) && c != '_' && c != '-' && c != '+' && c != 'x' && c != 'X'
  {
  }

  /** A run of hex digits is its own magnitude. */
  lemma HexDigitsParse(hex: string)
    requires |hex| > 0 && AllDigits(hex, 16)
    ensures ParseDigits(hex, 16) == Some(DigitsValue(hex, 16))
  {
    forall i | 0 <= i < |hex| ensures hex[i] != '_' {
      HexDigitPlain(hex[i]);
    }
    assert RemoveUnderscores(hex) == hex;
    assert WellFormedDigits(hex, 16);
  }

  lemma HexStrip(hex: string)
    requires AllDigits(hex, 16)
    ensures Strip(hex) == hex
  {
    forall i | 0 <= i < |hex| ensures !IsSpace(hex[i]) {
      HexDigitPlain(hex[i]);
    }
    StripNoSpace(hex);
  }

  /** A header's hex digits are always a valid `int(address, 16)`. */
  lemma HexParses(hex: string)
    requires |hex| > 0 && AllDigits(hex, 16)
    ensures ParseInt(hex, 16) == Some(DigitsValue(hex, 16) as int)
  {
    HexDigitPlain(hex[0]);
    assert SignOf(hex) == (false, hex);
    if |hex| >= 2 {
      HexDigitPlain(hex[1]);
    }
    assert DropPrefix(hex, 16) == hex;
    HexStrip(hex);
    HexDigitsParse(hex);
  }

  /**
   * Lines 83-87: `addr` is the first tab field without its last character
   * (the `:` after the address), `hex_code` the second, and the rest is
   * the remaining fields joined by tabs.
   */
  function ParseCode(t: string): (r: Result<(int, Instr), ArchError>)
    ensures r.Ok? ==> |Split(t, '\t')| >= 2
    ensures r.Ok? ==> Some(r.value.0) == ParseInt(DropLast(Strip(Split(t, '\t')[0])), 16)
    ensures r.Ok? ==> Some(r.value.1.0) == ParseInt(Strip(Split(t, '\t')[1]), 16)
    ensures r == Err(ValueError) <==>
      ParseInt(DropLast(Strip(Split(t, '\t')[0])), 16).None?
      || (|Split(t, '\t')| >= 2 && ParseInt(Strip(Split(t, '\t')[1]), 16).None?)
    ensures r == Err(IndexError) <==>
      ParseInt(DropLast(Strip(Split(t, '\t')[0])), 16).Some? && |Split(t, '\t')| < 2
  {
    var fields := Split(t, '\t');
    match ParseInt(DropLast(Strip(fields[0])), 16)
    case None => Err(ValueError)
    case Some(addr) =>
      if |fields| < 2 then Err(IndexError)
      else
        match ParseInt(Strip(fields[1]), 16)
        case None => Err(ValueError)
        case Some(code) => Ok((addr, (code, Join(fields[2..], '\t'))))
  }

  /** The rest of an instruction line is everything after its second tab. */
  lemma ParseCodeRest(t: string)
    requires ParseCode(t).Ok?
    ensures var fields := Split(t, '\t');
      |fields| >= 2 &&
      t == fields[0] + "\t" + fields[1] + (if |fields| > 2 then "\t" + ParseCode(t).value.1.1 else "")
  {
    JoinTwo(Split(t, '\t'), '\t');
  }

  /**
   * Round trip: a line `addr:<tab>code<tab>rest` with hex `addr` and `code`
   * gives back both numbers and the rest unchanged.
   */
  lemma ParseCodeRoundTrip(a: string, c: string, rs: seq<string>)
    requires |a| > 0 && AllDigits(a, 16) && |c| > 0 && AllDigits(c, 16)
    requires forall i :: 0 <= i < |rs| ==> '\t' !in rs[i]
    ensures ParseCode(a + ":\t" + c + "\t" + Join(rs, '\t'))
         == Ok((DigitsValue(a, 16) as int, (DigitsValue(c, 16) as int, Join(rs, '\t'))))
  {
    var fs := CodeLineFields(a, c, rs);
    AddressField(a);
    HexStrip(c);
    HexParses(c);
  }

  /** The tab fields of such a line: the address with its colon, the code, and the rest's fields. */
  lemma CodeLineFields(a: string, c: string, rs: seq<string>) returns (fs: seq<string>)
    requires AllDigits(a, 16) && AllDigits(c, 16)
    requires forall i :: 0 <= i < |rs| ==> '\t' !in rs[i]
    ensures |fs| >= 3 && fs[0] == a + ":" && fs[1] == c && Join(fs[2..], '\t') == Join(rs, '\t')
    ensures Split(a + ":\t" + c + "\t" + Join(rs, '\t'), '\t') == fs
  {
    var rs' := if rs == [] then [""] else rs;
    fs := [a + ":", c] + rs';
    JoinCons(fs, '\t');
    assert fs[1..] == [c] + rs';
    JoinCons(fs[1..], '\t');
    assert fs[1..][1..] == rs' == fs[2..];
    assert Join(fs, '\t') == a + ":\t" + c + "\t" + Join(rs, '\t');
    NoTab(a + ":");
    NoTab(c);
    SplitJoin(fs, '\t');
  }

  /** Hex digits and a colon hold no tab. */
  lemma NoTab(s: string)
    requires forall i :: 0 <= i < |s| ==> s[i] == ':' || HexDigit(s[i])
    ensures '\t' !in s
  {
    forall i | 0 <= i < |s| ensures s[i] != '\t' {
      if s[i] != ':' {
        HexDigitPlain(s[i]);
      }
    }
  }

  /** `int(field.strip()[:-1], 16)` of an address field `addr:` */
  lemma AddressField(a: string)
    requires |a| > 0 && AllDigits(a, 16)
    ensures ParseInt(DropLast(Strip(a + ":")), 16) == Some(DigitsValue(a, 16) as int)
  {
    var a' := a + ":";
    forall i | 0 <= i < |a'| ensures !IsSpace(a'[i]) {
      if i < |a| {
        HexDigitPlain(a[i]);
      }
    }
    StripNoSpace(a');
    assert DropLast(a') == a;
    HexParses(a);
  }

  /** How `read_textdump` treats the line `t`, already stripped (lines 65-80). */
  function Classify(t: string): LineKind {
    if t == "" || t == "..." then Skip
    else if SectionMatch(t).Some? then SectionLine(SectionMatch(t).value)
    else if HeaderMatch(t).Some? then
      var (hex, name) := HeaderMatch(t).value;
      if name[0] == '.' then DotHeader
      else
        HexParses(hex);
        Header(ParseInt(hex, 16).value, name)
    else Code(ParseCode(t))
  }

  /** The kind of every line. */
  function Kinds(lines: seq<string>): (ks: seq<LineKind>)
    ensures |ks| == |lines|
    ensures forall i {:trigger Classify(Strip(lines[i]))} :: 0 <= i < |lines| ==> ks[i] == Classify(Strip(lines[i]))
  {
    seq(|lines|, i requires 0 <= i < |lines| => Classify(Strip(lines[i])))
  }

  /** The symbol current after the first `n` lines: that of the last non-dot header among them. */
  function CurrentAfter(ks: seq<LineKind>, n: nat): Option<string>
    requires n <= |ks|
  {
    if n == 0 then None
    else if ks[n - 1].Header? then Some(ks[n - 1].name)
    else CurrentAfter(ks, n - 1)
  }

  /** The symbol names of the non-dot headers among the first `n` lines. */
  function Declared(ks: seq<LineKind>, n: nat): set<string>
    requires n <= |ks|
  {
    if n == 0 then {}
    else if ks[n - 1].Header? then Declared(ks, n - 1) + {ks[n - 1].name}
    else Declared(ks, n - 1)
  }

  /** The address of the first header for `name` among the first `n` lines. */
  function FirstAddr(ks: seq<LineKind>, n: nat, name: string): Option<int>
    requires n <= |ks|
  {
    if n == 0 then None
    else if FirstAddr(ks, n - 1, name).Some? then FirstAddr(ks, n - 1, name)
    else if ks[n - 1].Header? && ks[n - 1].name == name then Some(ks[n - 1].addr)
    else None
  }

  /** Some instruction line among the first `n`, read while a symbol was current, does not parse. */
  predicate Fails(ks: seq<LineKind>, n: nat)
    requires n <= |ks|
  {
    n > 0 &&
    (Fails(ks, n - 1) || (ks[n - 1].Code? && CurrentAfter(ks, n - 1).Some? && ks[n - 1].parsed.Err?))
  }

  /** The instruction stored for `name` at `addr` after `n` lines: that of the last such line read under `name`. */
  function Stored(ks: seq<LineKind>, n: nat, name: string, addr: int): Option<Instr>
    requires n <= |ks|
  {
    if n == 0 then None
    else if ks[n - 1].Code? && CurrentAfter(ks, n - 1) == Some(name) && ks[n - 1].parsed.Ok?
            && ks[n - 1].parsed.value.0 == addr
    then Some(ks[n - 1].parsed.value.1)
    else Stored(ks, n - 1, name, addr)
  }

  /** The dict `read_textdump` has built after the first `n` lines. */
  ghost predicate Built(ks: seq<LineKind>, n: nat, symbols: map<string, Symbol>)
    requires n <= |ks|
  {
    && symbols.Keys == Declared(ks, n)
    && (forall s :: s in symbols ==> FirstAddr(ks, n, s) == Some(symbols[s].addr))
    && (forall s, a :: s in symbols ==> (a in symbols[s].instr <==> Stored(ks, n, s, a).Some?))
    && (forall s, a :: s in symbols && a in symbols[s].instr ==> Stored(ks, n, s, a) == Some(symbols[s].instr[a]))
  }

  /**
   * A trigger guard that holds for every `n` and means nothing in the model:
   * the invariant it guards is opened only where a proof asserts `LineKey(0)`
   * (see `DomGraph.Unseal`).
   */
  predicate LineKey(n: nat) {
    n >= 0
  }

  /**
   * The state after `n` lines, sealed: `current` is the current symbol, no
   * line has failed, and `symbols` is `Built`. The loop of `read_textdump`
   * passes it on; `ReadLine` opens it with `LineKey(0)`.
   */
  ghost predicate Walked(ks: seq<LineKind>, n: nat, symbols: map<string, Symbol>, current: Option<string>)
    requires n <= |ks|
  {
    forall k {:trigger LineKey(k)} :: LineKey(k) ==> current == CurrentAfter(ks, n) && !Fails(ks, n) && Built(ks, n, symbols)
  }

  /** The walk of all of `ks` has failed, sealed like `Walked`. */
  ghost predicate Halted(ks: seq<LineKind>) {
    forall k {:trigger LineKey(k)} :: LineKey(k) ==> Fails(ks, |ks|)
  }

  /** `ks` is the classification of `lines`; the link is sealed like `Walked`. */
  ghost predicate KindsOf(lines: seq<string>, ks: seq<LineKind>) {
    |ks| == |lines| && forall k {:trigger LineKey(k)} :: LineKey(k) ==> ks == Kinds(lines)
  }

  lemma KindsFor(lines: seq<string>) returns (ks: seq<LineKind>)
    ensures KindsOf(lines, ks)
  {
    ks := Kinds(lines);
  }

  /** Before the first line: no current symbol, no failure, an empty dict. */
  lemma BuiltStart(ks: seq<LineKind>)
    ensures Walked(ks, 0, map[], None)
  {
    assert LineKey(0);
  }

  /** The current symbol is always one already declared. */
  lemma {:induction false} CurrentDeclared(ks: seq<LineKind>, n: nat)
    requires n <= |ks|
    ensures CurrentAfter(ks, n).Some? ==> CurrentAfter(ks, n).value in Declared(ks, n)
  {
    if n > 0 {
      CurrentDeclared(ks, n - 1);
    }
  }

  /** Nothing is stored, and no address known, under a name that was never declared. */
  lemma {:induction false} StoredDeclared(ks: seq<LineKind>, n: nat, name: string, addr: int)
    requires n <= |ks| && name !in Declared(ks, n)
    ensures Stored(ks, n, name, addr).None? && FirstAddr(ks, n, name).None?
  {
    if n > 0 {
      CurrentDeclared(ks, n - 1);
      StoredDeclared(ks, n - 1, name, addr);
    }
  }

  /** One line of the loop: how the dict changes. */
  lemma BuiltHeader(ks: seq<LineKind>, n: nat, symbols: map<string, Symbol>)
    requires n < |ks| && ks[n].Header? && Built(ks, n, symbols)
    ensures ks[n].name !in symbols ==> Built(ks, n + 1, symbols[ks[n].name := Symbol(ks[n].addr, map[])])
    ensures ks[n].name in symbols ==> Built(ks, n + 1, symbols)
  {
    var name := ks[n].name;
    if name !in symbols {
      forall a {:trigger Stored(ks, n + 1, name, a)} ensures Stored(ks, n + 1, name, a).None? {
        StoredDeclared(ks, n, name, a);
      }
      StoredDeclared(ks, n, name, 0);
    }
  }

  lemma BuiltCode(ks: seq<LineKind>, n: nat, symbols: map<string, Symbol>, s: string, addr: int, instr: Instr)
    requires n < |ks| && ks[n] == Code(Ok((addr, instr))) && Built(ks, n, symbols)
    requires CurrentAfter(ks, n) == Some(s) && s in symbols
    ensures Built(ks, n + 1, symbols[s := symbols[s].(instr := symbols[s].instr[addr := instr])])
  {
  }

  lemma BuiltOther(ks: seq<LineKind>, n: nat, symbols: map<string, Symbol>)
    requires n < |ks| && !ks[n].Header? && Built(ks, n, symbols)
    requires ks[n].Code? ==> CurrentAfter(ks, n).None?
    ensures Built(ks, n + 1, symbols)
  {
  }

  /**
   * `read_textdump`'s loop over the lines of the disassembly (lines 63-87):
   * blank and `...` lines are skipped, a section header only sets the
   * current section, a header of a symbol starting with `.` is ignored, any
   * other header makes its symbol current (creating it with its address the
   * first time), and an instruction line read while a symbol is current is
   * stored under its address, replacing any earlier one.
   */
  method ReadTextdump(lines: seq<string>) returns (r: Result<map<string, Symbol>, ArchError>)
    ensures r.Err? <==> Fails(Kinds(lines), |lines|)
    ensures r.Ok? ==> Built(Kinds(lines), |lines|, r.value)
  {
    ghost var ks, current;
    r, ks, current := WalkLines(lines);
    assert LineKey(0);
    if r.Ok? {
      BuiltOpen(ks, |lines|, r.value, current);
    }
  }

  /** The loop itself: the state after the last line, sealed, or the error of the line that ends the walk. */
  method WalkLines(lines: seq<string>)
    returns (r: Result<map<string, Symbol>, ArchError>, ghost ks: seq<LineKind>, ghost current: Option<string>)
    ensures KindsOf(lines, ks)
    ensures r.Err? ==> Halted(ks)
    ensures r.Ok? ==> Walked(ks, |lines|, r.value, current)
  {
    ks := KindsFor(lines);
    BuiltStart(ks);
    var symbols: map<string, Symbol> := map[];
    var currentSymbol: Option<string> := None;
    var currentSection: Option<string> := None;
    var i := 0;
    while i < |lines|
      invariant 0 <= i <= |lines|
      invariant Walked(ks, i, symbols, currentSymbol)
    {
      var next;
      next, currentSymbol, currentSection := ReadLine(lines, ks, i, symbols, currentSymbol, currentSection);
      if next.Err? {
        r, current := next, currentSymbol;
        return;
      }
      symbols := next.value;
      i := i + 1;
    }
    r, current := Ok(symbols), currentSymbol;
  }

  lemma BuiltOpen(ks: seq<LineKind>, n: nat, symbols: map<string, Symbol>, current: Option<string>)
    requires n <= |ks| && Walked(ks, n, symbols, current)
    ensures !Fails(ks, n) && Built(ks, n, symbols)
  {
    assert LineKey(0);
  }

  /** One line of the loop: the dict and current symbol after it, or the error that ends the walk. */
  method ReadLine(lines: seq<string>, ghost ks: seq<LineKind>, i: nat, symbols: map<string, Symbol>, currentSymbol: Option<string>, currentSection: Option<string>)
    returns (r: Result<map<string, Symbol>, ArchError>, symbol': Option<string>, section': Option<string>)
    requires i < |lines| && KindsOf(lines, ks) && Walked(ks, i, symbols, currentSymbol)
    ensures r.Err? ==> Halted(ks)
    ensures r.Ok? ==> Walked(ks, i + 1, r.value, symbol')
  {
    assert LineKey(0);
    var kind := Classify(Strip(lines[i]));
    assert kind == ks[i];
    CurrentDeclared(ks, i);
    symbol', section' := currentSymbol, currentSection;
    if kind.Header? {
      BuiltHeader(ks, i, symbols);
      symbol' := Some(kind.name);
      if kind.name !in symbols {
        r := Ok(symbols[kind.name := Symbol(kind.addr, map[])]);
      } else {
        r := Ok(symbols);
      }
    } else if kind.Code? && currentSymbol.Some? {
      if kind.parsed.Err? {
        FailsAt(ks, i);
        return Err(kind.parsed.error), symbol', section';
      }
      var s := currentSymbol.value;
      BuiltCode(ks, i, symbols, s, kind.parsed.value.0, kind.parsed.value.1);
      r := Ok(symbols[s := symbols[s].(instr := symbols[s].instr[kind.parsed.value.0 := kind.parsed.value.1])]);
    } else {
      if kind.SectionLine? {
        section' := Some(kind.section);
      }
      BuiltOther(ks, i, symbols);
      r := Ok(symbols);
    }
  }

  /** An instruction line that does not parse, read while a symbol is current, ends the walk with its error. */
  lemma FailsAt(ks: seq<LineKind>, i: nat)
    requires i < |ks| && ks[i].Code? && CurrentAfter(ks, i).Some? && ks[i].parsed.Err?
    ensures Halted(ks)
  {
    FailsExtends(ks, i + 1, |ks|);
  }

  lemma {:induction false} FailsExtends(ks: seq<LineKind>, n: nat, m: nat)
    requires n <= m <= |ks| && Fails(ks, n)
    ensures Fails(ks, m)
    decreases m - n
  {
    if n < m {
      FailsExtends(ks, n, m - 1);
    }
  }

  /**
   * After a header of a symbol starting with `.`, instruction lines up to
   * the next header still go to the symbol current before it.
   */
  lemma {:induction false} DotHeaderKeepsCurrent(ks: seq<LineKind>, i: nat, j: nat)
    requires i < j <= |ks| && ks[i] == DotHeader
    requires forall k :: i < k < j ==> !ks[k].Header?
    ensures CurrentAfter(ks, j) == CurrentAfter(ks, i)
    decreases j
  {
    if j > i + 1 {
      DotHeaderKeepsCurrent(ks, i, j - 1);
    }
  }

  /** A repeated header keeps the address of the first one: once set, the address never changes. */
  lemma {:induction false} FirstAddrStable(ks: seq<LineKind>, n: nat, m: nat, name: string)
    requires n <= m <= |ks| && FirstAddr(ks, n, name).Some?
    ensures FirstAddr(ks, m, name) == FirstAddr(ks, n, name)
    decreases m - n
  {
    if n < m {
      FirstAddrStable(ks, n, m - 1, name);
    }
  }

  /** An instruction once stored is only ever replaced, never removed. */
  lemma {:induction false} StoredStable(ks: seq<LineKind>, n: nat, m: nat, name: string, addr: int)
    requires n <= m <= |ks| && Stored(ks, n, name, addr).Some?
    ensures Stored(ks, m, name, addr).Some?
    decreases m - n
  {
    if n < m {
      StoredStable(ks, n, m - 1, name, addr);
    }
  }

  /** Before any symbol header nothing is declared or current, and nothing can fail. */
  lemma {:induction false} NoHeaderNothing(ks: seq<LineKind>, n: nat)
    requires n <= |ks|
    requires forall k :: 0 <= k < n ==> !ks[k].Header?
    ensures Declared(ks, n) == {} && CurrentAfter(ks, n).None? && !Fails(ks, n)
  {
    if n > 0 {
      NoHeaderNothing(ks, n - 1);
    }
  }

  // ----------------------------------------------------------------- mnemonics

  /** `instr[1].split("\t")[0].strip()`: the mnemonic, the text before the first tab. */
  function Mnemonic(text: string): string {
    Strip(Split(text, '\t')[0])
  }

  /** Operands after the first tab never change the mnemonic. */
  lemma MnemonicOperands(m: string, operands: string)
    requires '\t' !in m
    ensures Mnemonic(m + "\t" + operands) == Mnemonic(m)
  {
    SplitFirst(m, '\t', operands);
    SplitNone(m, '\t');
  }

  /** A mnemonic without whitespace, with or without operands after a tab, is read back as itself. */
  lemma MnemonicOf(m: string, operands: string)
    requires NoSpace(m)
    ensures Mnemonic(m) == m && Mnemonic(m + "\t" + operands) == m
  {
    assert IsSpace('\t');
    assert forall i :: 0 <= i < |m| ==> m[i] != '\t';
    MnemonicOperands(m, operands);
    SplitNone(m, '\t');
    StripNoSpace(m);
  }

  /** `if '.' in m: m = m.split('.')[0]`: the mnemonic cut at its first `.`. */
  function CutAtDot(m: string): (r: string)
    ensures '.' !in r && |r| <= |m| && r == m[..|r|]
    ensures '.' !in m ==> r == m
    ensures '.' in m ==> r + "." == m[..|r| + 1]
  {
    if '.' in m then
      var k := Find(m, '.');
      assert m[..k + 1] == m[..k] + ".";
      Split(m, '.')[0]
    else m
  }

  /** The cut keeps what comes before the first `.`. */
  lemma CutAtDotOf(a: string, b: string)
    requires '.' !in a
    ensures CutAtDot(a + "." + b) == a
  {
    var m := a + "." + b;
    assert m == a + ['.'] + b;
    assert m[|a|] == '.';
    SplitFirst(a, '.', b);
  }
}
