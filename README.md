# pybinutils core, modelled in Dafny

pybinutils analyses compiled programs. It reads an ELF file's disassembly
(`objdump -d`) and DWARF line tables, and cuts each function into basic
blocks. It then builds, for one function symbol, a control-flow graph over
those blocks, with every edge labelled by the source positions at its two
ends. From that graph it computes strongly connected components (Tarjan),
the function's entry, the dominator tree (Lengauer–Tarjan with path
compression) and the dominator path of every block. It also reads
`perf script` samples into per-file, per-event, per-pc counts, and folds
them into per-block hotness counts.

This project models the computational core of that pipeline:

- `BbUtils`: the sorted table of basic blocks, `basic_block_size`. It is a
  class whose constructor fills the table in a loop, and whose lookups are
  the binary search of Python's `bisect_right`.
- `HotBb`: `perf_to_bb_count`, the per-block sample counts of every event.
- `Arch`, `Aarch64`, `Riscv64`, `X86_64`: the DWARF file-name lookup, the
  two DWARF indexes of `read_dwarf`, the line loop of `read_textdump`, and
  the per-architecture control-flow classifiers.
- `Perf`: the parser and aggregation loop of `extract_perf_from_file`.
- `SourceLines`: the `source_cache` class.
- `DomGraph`, `DfsFacts`, `RevGraph`, `Semidom`, `IdomTree`, `DomTree`:
  `build_dom_tree`. That is its depth-first numbering, reverse graph,
  semidominators with the path-compressing `find`, the immediate-dominator
  fix-up and the nested tree.
- `Tarjan`: `__tarjan`, the recursive SCC search with an explicit stack.
- `CfgGraph`, `DomPaths`, `Cfg`: `cfg_builder` of src/analyze/cfg.py. That
  is the DWARF index, the lifted and labelled graph, the tuple-keyed
  in-degree that seeds Tarjan, the entry search, the dominator tree and the
  dominator paths.
- `CfgLegacy`: the older `cfg_builder` of src/cfg.py. It shares the
  lifting, Tarjan and dominator modules with `Cfg`, and keeps no block map
  and no `scc_belongs`.
- `PyStr`, `Wrappers`: the Python string built-ins the parsers rely on
  (`strip`, `find`, `split`, `int`, `str`, indexing and slicing), and
  `Option`/`Result`.

Python dictionaries are modelled as `map`s. Where iteration order matters,
the order is a `seq` beside them. Python exceptions become `Err` values of
a `Result`. Everything that reads files or runs processes is a parameter:

- the disassembly lines;
- the DWARF line-program entries;
- the `perf script` lines;
- a map from file name to file contents;
- the symbol's blocks and transfer edges.

## Model

| member | source | states |
|---|---|---|
| BbUtils.SortedSet | src/analyze/bb_utils.py:14 | `sorted(set(xs))`: strictly increasing, with exactly the elements of `xs` |
| BbUtils.BisectRight | src/analyze/bb_utils.py:17 | the index after the last entry `<= x` within `lo..hi` of a sorted table |
| BbUtils.AppendBlocks | src/analyze/bb_utils.py:9-13 | the inner loop appends (start, length) for every block of one symbol, and keeps the running maximum length |
| BbUtils.BasicBlockSize.constructor | src/analyze/bb_utils.py:6-14 | the table is the sorted set of every symbol's (start, length) pairs; `max_bb_size` is the largest length, or 0 when there is none |
| BbUtils.BasicBlockSize.QueryBbId | src/analyze/bb_utils.py:16-20 | `None` exactly when the table is empty or `addr` is below the first start; otherwise the last index whose start is `<= addr` |
| BbUtils.BasicBlockSize.QueryBbAddr | src/analyze/bb_utils.py:22-23 | the start of block `id`, a start the lookup maps back to a block with that start |
| BbUtils.BasicBlockSize.QueryBbSize | src/analyze/bb_utils.py:25-26 | the length of block `id`, at most `max_bb_size` |
| BbUtils.BasicBlockSize.QueryRoundTrip | src/analyze/bb_utils.py:16-23 | for every block start `s`, `query_bb_addr(query_bb_id(s)) == s` |
| BbUtils.BasicBlockSize.QueryMonotone | src/analyze/bb_utils.py:17 | `a1 <= a2` gives a lookup at `a1` no later than the one at `a2`; `None` comes below every index |
| BbUtils.BasicBlockSize.QueryPastEnd | src/analyze/bb_utils.py:16-20 | with no upper bound check, every address at or past the last start maps to the last block |
| BbUtils.BlockOf | src/dump_all_hot_bb.py:16-19 | `query_bb_addr(query_bb_id(pc))`: a start at or below `pc`, or `None` exactly when `pc` is below every block |
| BbUtils.BlockOfNearest | src/analyze/bb_utils.py:16-23 | no block start lies strictly between a pc and the start found for it |
| BbUtils.BlockOfStart | src/analyze/bb_utils.py:16-23 | a pc is its own block's start exactly when it is the start of some block |
| HotBb.OwnersOf | src/dump_all_hot_bb.py:16-19 | the owning block start of every sampled pc, or none, as the two lookups find it |
| HotBb.TallyStep | src/dump_all_hot_bb.py:16-22 | one pc adds its count to its block's entry (created at 0), or changes nothing when it has no block |
| HotBb.CountBlocks | src/dump_all_hot_bb.py:15-22 | the inner loop yields exactly the counts defined by block ownership |
| HotBb.Bump | src/dump_all_hot_bb.py:20-22 | adds `c` to the entry of `addr`, a missing entry counting as 0, and leaves every other entry alone |
| HotBb.PerfToBbCount | src/dump_all_hot_bb.py:11-23 | the result has exactly the input's events, and each event's counts are its `CountBlocks` result, even when every pc misses |
| HotBb.CountKeys | src/dump_all_hot_bb.py:19 | every key of an event's counts is a block start that some sampled pc falls in |
| HotBb.CountValue | src/dump_all_hot_bb.py:19-22 | a block's count is the sum of the counts of the pcs whose block it is |
| HotBb.Conservation | src/dump_all_hot_bb.py:15-22 | an event's block counts sum to the counts of its pcs, less the pcs below the first block |
| HotBb.NothingCovered | src/dump_all_hot_bb.py:16-18 | with no blocks, or every pc below the first one, every event's counts are empty |
| HotBb.PastLastBlock | src/dump_all_hot_bb.py:16-22 | a pc at or past every block start is counted under the last block |
| Arch.JoinPath | src/arch/arch.py:16 | `posixpath.join`: an absolute second part replaces the first; otherwise the parts are joined with one `/` |
| Arch.LpeFilename | src/arch/arch.py:8-16 | file entries are 1-based; directory 0 gives the bare name and any other is joined to `include_directory[dir - 1]`; bad indexes are errors |
| Arch.LpeFilenameZero | src/arch/arch.py:11 | file index 0 reaches the last file entry through Python's negative indexing |
| Arch.KeptEntries | src/arch/arch.py:32-34 | the entries kept, no more than there are, each with a state whose file is not 0 and the program's header; every entry with a state whose file is not 0 is kept |
| Arch.KeptEntriesAppend | src/arch/arch.py:32-34 | the kept entries of two runs of entries are those of the first followed by those of the second |
| Arch.KeptEntriesOne | src/arch/arch.py:32-34 | one entry is kept, with the header, exactly when it has a state whose file is not 0; with KeptEntriesAppend this makes the kept entries the order-preserving filter of the entries |
| Arch.Rows | src/arch/arch.py:35-38 | the rows of the kept entries, as many as there are entries when no file-name lookup fails |
| Arch.IndexLookup | src/arch/arch.py:39-48 | a lookup in either index lists exactly the rows with that key |
| Arch.AddPc | src/arch/arch.py:39-45 | appends `pc` under (f, l, c), creating the missing levels, and changes nothing else |
| Arch.AddLoc | src/arch/arch.py:46-48 | appends (f, l, c) under `pc`, creating the missing list, and changes nothing else |
| Arch.AddRow | src/arch/arch.py:39-48 | one row is recorded in both indexes |
| Arch.AddUnit | src/arch/arch.py:32-48 | one line program's entries are recorded under their rows, or its first failing lookup is the error |
| Arch.ReadDwarf | src/arch/arch.py:23-49 | the two indexes hold exactly the rows of every unit's kept entries, or the first lookup error; units without a line program are skipped |
| Arch.IndexesAgree | src/arch/arch.py:39-48 | `pc` is listed under (f, l, c) exactly as often as (f, l, c) is listed under `pc` |
| Arch.SectionMatch | src/arch/arch.py:56-70 | `^Disassembly of section ([^:]+):$` accepts only lines of that form, and gives their name |
| Arch.SectionMatchComplete | src/arch/arch.py:56 | every line of that form is recognised, with its name |
| Arch.HeaderMatch | src/arch/arch.py:57-76 | a header matched by `^([0-9a-fA-F]+)\s+<([^>]+)>:$` gives non-empty hex digits and a non-empty name without `>` |
| Arch.HeaderMatchComplete | src/arch/arch.py:57 | every header line is recognised, with its digits and name |
| Arch.HexParses | src/arch/arch.py:79 | a header's hex digits always make a valid `int(address, 16)` |
| Arch.ParseCode | src/arch/arch.py:83-87 | on success there are at least two tab fields; the address is `int` of the first, stripped and without its last character, in base 16, and the code is `int` of the second. ValueError exactly when the address field is no hex number, or there is a second field and it is no hex number; IndexError exactly when the address parses and there is no second field |
| Arch.ParseCodeRest | src/arch/arch.py:83-85 | on success the line is its first two tab fields followed, after a tab, by the rest (when there are more than two fields) |
| Arch.ParseCodeRoundTrip | src/arch/arch.py:83-87 | a line `addr:<tab>code<tab>rest` with hex `addr` and `code` and tab-free rest fields parses to the two hex values and the rest unchanged |
| Arch.Kinds | src/arch/arch.py:63-80 | each line is classified, after `strip`, as blank, section, dot-header, header or code |
| Arch.ReadTextdump | src/arch/arch.py:63-87 | the loop fails exactly when some instruction line after a header does not parse; otherwise the dict is the one the line-by-line definition builds |
| Arch.WalkLines | src/arch/arch.py:63-87 | after the loop: either the walk of all lines has failed, or no line failed and the dict and current symbol are those after the last line |
| Arch.ReadLine | src/arch/arch.py:64-87 | one line takes the dict and current symbol after `i` lines to those after `i + 1`, or fails the whole walk |
| Arch.BuiltHeader | src/arch/arch.py:74-79 | a header makes its symbol current and records its address only the first time |
| Arch.BuiltCode | src/arch/arch.py:80-87 | an instruction line under a current symbol stores its instruction under its address in that symbol |
| Arch.BuiltOther | src/arch/arch.py:64-73 | blank, `...`, section and dot-header lines, and instruction lines with no current symbol, change nothing |
| Arch.DotHeaderKeepsCurrent | src/arch/arch.py:71-73 | after a dot-header, instructions go to the symbol that was current before it |
| Arch.FirstAddrStable | src/arch/arch.py:78-79 | a repeated header keeps the first address |
| Arch.StoredStable | src/arch/arch.py:87 | an instruction once stored is only replaced, never removed |
| Arch.NoHeaderNothing | src/arch/arch.py:59-81 | before any symbol header, nothing is declared or current and nothing fails |
| Arch.CurrentDeclared | src/arch/arch.py:77-79 | the current symbol is always one already declared |
| Arch.StoredDeclared | src/arch/arch.py:78-87 | nothing is stored under a name that was never declared |
| Arch.MnemonicOperands | src/arch/aarch64.py:41 | operands after the first tab never change the mnemonic |
| Arch.MnemonicOf | src/arch/aarch64.py:41 | a mnemonic without whitespace is read back as itself, with or without operands |
| Arch.CutAtDot | src/arch/aarch64.py:42-43 | the mnemonic cut at its first `.`: the text before it, or the whole when there is none |
| Arch.CutAtDotOf | src/arch/aarch64.py:42-43 | the cut keeps exactly what comes before the first `.` |
| Aarch64.BranchMnemonic | src/arch/aarch64.py:39-50 | true exactly when the mnemonic cut at `.` is in the branch list, with the dead `b.c` entry left out |
| Aarch64.EndMnemonic | src/arch/aarch64.py:52-56 | an end mnemonic has no `.`, because the `.` branch is a no-op, and is also a branch mnemonic |
| Aarch64.IsControlFlowEnd | src/arch/aarch64.py:52-56 | an end instruction is also a control-flow instruction |
| Aarch64.OnlyMnemonic | src/arch/aarch64.py:41-53 | operands and encoding never change either answer |
| Aarch64.CondBranch | src/arch/aarch64.py:42-45 | every `b.<cond>` is a branch and none is an end |
| Aarch64.PlainBranches | src/arch/aarch64.py:44-56 | `b`, `br` and `blr` are branches but not ends |
| Aarch64.DottedReturn | src/arch/aarch64.py:42-56 | `ret.<x>` is a branch but never an end |
| Aarch64.CondBranchInstr | src/arch/aarch64.py:39-50 | `b.<cond>` with operands after a tab is control flow |
| Riscv64.BranchMnemonic | src/arch/riscv64.py:40-46 | a recognised mnemonic has at least three characters and starts with `b`, `j` or `c.` |
| Riscv64.OnlyMnemonic | src/arch/riscv64.py:42 | operands and encoding never change the answer |
| Riscv64.PseudoNotBranches | src/arch/riscv64.py:43-46 | the pseudo-instructions `ret`, `j`, `jr`, `beqz`, `bnez`, `bgt`, `ble`, `call` and `tail` are not recognised |
| Riscv64.CompressedLiteral | src/arch/riscv64.py:43-46 | `c.j` matches as written, while `c`, which a cut at `.` would give, does not |
| Riscv64.ListedBranches | src/arch/riscv64.py:43-46 | every listed mnemonic, with or without operands, is control flow |
| X86_64.EndMnemonic | src/arch/x86_64.py:50-54 | true exactly for `ret` or `ret.` followed by anything |
| X86_64.IsControlFlowInstr | src/arch/x86_64.py:42-48 | true exactly for an end, or for direction mark `X` or `-` |
| X86_64.OtherTransfersNotEnds | src/arch/x86_64.py:54 | `retq`, `retl`, `iret`, `iretq`, `jmp`, `call`, `ud2` and `hlt` do not end a block |
| X86_64.OnlyMnemonic | src/arch/x86_64.py:51 | operands and encoding never change `is_control_flow_end` |
| X86_64.RetEnds | src/arch/x86_64.py:42-45 | `ret` with operands is control flow whatever its direction mark |
| PyStr.Strip | src/analyze/perfutil.py:22 | `strip` is no longer than its input and leaves no whitespace at either end |
| PyStr.StripShape | src/analyze/perfutil.py:22 | `strip` keeps an infix and removes whitespace only |
| PyStr.Find | src/analyze/perfutil.py:15 | `find(c)`: the first index of `c`, or -1 exactly when `c` does not occur |
| PyStr.Split | src/arch/arch.py:83 | `split(sep)`: at least one field, no field holds `sep`, and joining the fields gives the input back |
| PyStr.SplitJoin | src/arch/arch.py:83-86 | splitting the join of fields that avoid the separator gives the fields back |
| PyStr.SplitWhitespace | src/analyze/perfutil.py:18 | `split()`: the maximal runs of non-whitespace, each non-empty and without whitespace |
| PyStr.SplitWhitespaceJoin | src/analyze/perfutil.py:18 | `split()` of non-empty whitespace-free fields joined by spaces gives the fields back |
| PyStr.ParseIntToStr | src/analyze/perfutil.py:19 | `int(str(n)) == n` |
| PyStr.IntToStrPlain | src/analyze/perfutil.py:19 | `str(n)` is one non-empty field without whitespace |
| PyStr.NatToStr | src/analyze/perfutil.py:19 | `str(n)` is non-empty decimal digits with no leading zero |
| PyStr.PyIndex | src/analyze/perfutil.py:19-22 | `xs[i]` with negative indexes counted from the end; `None` exactly where Python raises `IndexError` |
| PyStr.DropLast | src/analyze/perfutil.py:20 | `s[:-1]` drops exactly the last element |
| PyStr.Inner | src/analyze/perfutil.py:22 | `s[1:-1]` drops exactly the first and last elements |
| Perf.ParseFields | src/analyze/perfutil.py:18-22 | succeeds exactly when there are three fields or more, the first is a decimal integer and the third a hex one. The sample's count and pc are those integers, its event is the second field without its last character, and its file is the stripped last field without its first and last characters. IndexError exactly when there are no fields, or the count parses and there are fewer than three; ValueError exactly when the count or (with three fields) the pc is no integer |
| Perf.ParseLine | src/analyze/perfutil.py:15-17 | a line gives nothing exactly when it has no `:` |
| Perf.ParseLineOf | src/analyze/perfutil.py:15-22 | a line with a `:` gives the sample, or the error, of the whitespace-split fields after its first `:` |
| Perf.ParseSampleLine | src/analyze/perfutil.py:15-22 | round trip: count, event, pc and file are recovered from a printed sample line |
| Perf.Collect | src/analyze/perfutil.py:14-22 | the samples of the outcomes in order, never more samples than outcomes, or the first exception |
| Perf.CollectOk | src/analyze/perfutil.py:14-22 | the lines are read through exactly when none raises |
| Perf.Add | src/analyze/perfutil.py:23-29 | after `res[file][event][pc] += freq`, with the missing levels created, the file, event and pc are all present |
| Perf.AggregateFile | src/analyze/perfutil.py:23-24 | a file is present exactly when some sample names it |
| Perf.AggregateEvent | src/analyze/perfutil.py:25-26 | a file holds an event exactly when some sample names both |
| Perf.AggregatePc | src/analyze/perfutil.py:27-28 | an event holds a pc exactly when some sample names all three |
| Perf.AggregateCount | src/analyze/perfutil.py:29 | each count is the sum of the counts of the samples with that file, event and pc |
| Perf.AggregatePermutation | src/analyze/perfutil.py:14-29 | reordering the samples leaves the result unchanged |
| Perf.LinePermutation | src/analyze/perfutil.py:14-29 | reordering the lines changes neither whether some line raises nor, when none does, the result |
| Perf.Accumulate | src/analyze/perfutil.py:23-29 | one sample is folded into the dict level by level, as the loop body does it |
| Perf.ExtractPerf | src/analyze/perfutil.py:13-30 | the loop returns the aggregate of the parsed samples, or the error of the first line that raises |
| SourceLines.LineAt | src/analyze/source_cache.py:13-16 | the lookup as written: `lines[line - 1]` when `line < len(lines)`, else "" |
| SourceLines.ZeroIsLast | src/analyze/source_cache.py:14 | line 0 of a non-empty file is its last line |
| SourceLines.LastLineLost | src/analyze/source_cache.py:13-16 | asking for line `len(lines)` gives "" |
| SourceLines.LastLineLostExample | src/analyze/source_cache.py:13-14 | a two-line file whose second line cannot be fetched |
| SourceLines.LineFixed | src/analyze/source_cache.py:13-16 | the intended lookup: lines 1..len(lines), "" for any other number |
| SourceLines.FixedNumbering | src/analyze/source_cache.py:13-16 | under the intended lookup every line is reachable by its 1-based number, and nothing else is returned |
| SourceLines.FixedAgrees | src/analyze/source_cache.py:13-16 | the two lookups agree on every positive line but the last |
| SourceLines.Contents | src/analyze/source_cache.py:8-12 | a first lookup caches the file's lines, or [] when opening it fails |
| SourceLines.SourceCache.constructor | src/analyze/source_cache.py:4-5 | the cache starts empty |
| SourceLines.SourceCache.GetSource | src/analyze/source_cache.py:6-16 | a miss caches the file once, a hit changes nothing, other entries are untouched, and the result is the lookup in the cached lines |
| DomGraph.Nodes | src/analyze/dom_tree.py:14-25 | every edge target is a node, as every key is |
| DomTree.DepthFirst.constructor | src/analyze/dom_tree.py:6-10 | nothing numbered, `up[start] = start` |
| DomTree.DepthFirst.Number | src/analyze/dom_tree.py:12-13 | `u` takes the next number, and `dfnrev` inverts it |
| DomTree.DepthFirst.VisitSuccs | src/analyze/dom_tree.py:14-18 | each unnumbered successor gets `up[v] = u` and is searched; afterwards every successor is numbered |
| DomTree.DepthFirst.Dfs | src/analyze/dom_tree.py:11-19 | numbers `u`, keeps the search invariant (tree edges, parents, nesting) and never un-numbers a node |
| DfsFacts.NumberedIffReachable | src/analyze/dom_tree.py:11-19 | exactly the nodes reachable from `start` are numbered |
| DfsFacts.DfnRev | src/analyze/dom_tree.py:12-13 | `dfnrev` inverts `dfn` |
| DfsFacts.DfnRevIndex | src/analyze/dom_tree.py:12-13 | `dfnrev[i]` is a node numbered `i`, for every `i` below the count |
| DfsFacts.StartZero | src/analyze/dom_tree.py:19 | `start` is numbered 0 |
| DfsFacts.DfnInjective | src/analyze/dom_tree.py:12 | the numbers are distinct |
| DfsFacts.AncParent | src/analyze/dom_tree.py:15-18 | for every numbered node but `start`, `up[v] -> v` is an edge and `up[v]` is numbered earlier |
| DfsFacts.PathStaysBelow | src/analyze/dom_tree.py:11-19 | a path whose nodes are numbered no lower than its first node stays in that node's subtree |
| RevGraph.BuildRev | src/analyze/dom_tree.py:20-25 | `revgraph[v]` lists `u` once per edge `u -> v`; nodes that are only targets are included |
| RevGraph.ReversedEdges | src/analyze/dom_tree.py:21-25 | the listed predecessors are exactly the edges into each node |
| Semidom.FindCase | src/analyze/dom_tree.py:38-40 | an unprocessed node is its own root and label; a processed one links to a node numbered earlier |
| Semidom.SemiSet | src/analyze/dom_tree.py:57 | a semidominator becomes final when its node is processed |
| Semidom.BucketInSubtree | src/analyze/dom_tree.py:59-63 | an entry of the bucket of `u`'s parent lies in `u`'s subtree |
| Semidom.RootIsParent | src/analyze/dom_tree.py:58-64 | `find` from inside `u`'s subtree stops at `u`'s parent |
| Semidom.BucketsDone | src/analyze/dom_tree.py:46-69 | after the last step every bucket is empty, and every node but `start` has its provisional `idom` |
| DomTree.Init | src/analyze/dom_tree.py:27-37 | every link, label, semidominator and `idom` starts as the node itself |
| DomTree.Find | src/analyze/dom_tree.py:38-45 | returns an already processed ancestor of `x` with no processed node between them, sets `minn[x]` to the node between that root and `x` whose semidominator is numbered lowest, and keeps the forest invariant; nodes numbered after `x` keep link and label |
| DomTree.SemiOf | src/analyze/dom_tree.py:48-56 | the semidominator number is below `dfn[u]`, a semidominator path leads from it to `u`, and no node numbered lower has one: it is the semidominator |
| DomTree.Relax | src/analyze/dom_tree.py:49-56 | one predecessor `v` lowers the candidate, keeping it a semidominator candidate below `u`; the new candidate is at most `dfn[v]` when `v` comes before `u`, and at most the semidominator number of every ancestor of `v` numbered after `u` |
| DomTree.Flush | src/analyze/dom_tree.py:62-69 | every bucket entry `v` of `u`'s parent gets its provisional `idom`: the parent when no node between it and `v` has an earlier semidominator, otherwise the node there whose semidominator is earliest. The bucket is removed |
| DomTree.Step | src/analyze/dom_tree.py:46-69 | one round keeps the forest, semidominator and bucket invariants for the node numbered `i` |
| DomTree.Semidominators | src/analyze/dom_tree.py:27-69 | every numbered node but `start` gets its semidominator (the lowest-numbered node with a semidominator path to it), and a provisional `idom` that is a proper DFS ancestor in one of the two cases of Lengauer and Tarjan's Corollary 1 |
| DomTree.FixIdom | src/analyze/dom_tree.py:70-74 | `idom[start] = start`, and in increasing order every other `idom` is settled to a proper DFS ancestor that is its node's immediate dominator |
| IdomTree.SettledProper | src/analyze/dom_tree.py:70-74 | the settled `idom` of every node but `start` is a proper ancestor |
| DomTree.BuildIdomRev | src/analyze/dom_tree.py:75-79 | `idomrev[p]` lists the nodes whose `idom` is `p`, in `dfnrev` order |
| IdomTree.Kids | src/analyze/dom_tree.py:76-79 | the children list of `p` holds exactly the nodes of the list whose `idom` is `p`, in order |
| IdomTree.ChildList | src/analyze/dom_tree.py:82-85 | the list `build_tree` walks for `p` is its children in `dfnrev` order |
| IdomTree.UnderChild | src/analyze/dom_tree.py:81-88 | `x` lies below a child `v` of `u` exactly when its `idom` chain reaches `u` through `v` |
| IdomTree.CountedAll | src/analyze/dom_tree.py:81-88 | below `u`, every node's chain reaches `u` through a child of `u` |
| IdomTree.DfnrevDistinct | src/analyze/dom_tree.py:12-13 | `dfnrev` lists exactly the numbered nodes, each once |
| DomTree.BuildTree | src/analyze/dom_tree.py:81-88 | the subtree of `u` holds each node whose `idom` chain reaches `u` exactly once, and nothing else |
| DomTree.BuildDomTree | src/analyze/dom_tree.py:5-90 | rooted at `start`, every reachable node appears exactly once as a child of its `idom`, unreachable nodes never appear, and each `idom` is a proper DFS ancestor and the node's immediate dominator |
| Semidom.MeaningInit | src/analyze/dom_tree.py:27-37 | before the first round the label, least-semidominator and provisional-`idom` invariants hold |
| Semidom.LabelJoin | src/analyze/dom_tree.py:41-44 | after compression `minn[x]` has the least semidominator on the whole stretch from the new root to `x` |
| Semidom.SealedLabelsCompress | src/analyze/dom_tree.py:41-44 | path compression in `find` keeps every label the least on its stretch |
| Semidom.CoveredAbove | src/analyze/dom_tree.py:52-56 | a candidate bounded by the label of a later predecessor bounds the semidominators of all its ancestors numbered after `u` |
| Semidom.LeastCandidate | src/analyze/dom_tree.py:48-56 | once every predecessor is covered, no semidominator path to `u` starts at a node numbered below the candidate |
| Semidom.SealedMeaningStep | src/analyze/dom_tree.py:57-58 | setting `sdom[u]` and linking `u` to its parent keeps the label, least-semidominator and provisional-`idom` invariants |
| Semidom.FlushCase | src/analyze/dom_tree.py:63-68 | the `idom` set for a bucket entry falls in one of the two cases of Corollary 1 |
| Semidom.SealedIdomsFlush | src/analyze/dom_tree.py:63-68 | one bucket entry's provisional `idom` keeps the provisional-`idom` invariant |
| Semidom.SealedMeaningDone | src/analyze/dom_tree.py:46-69 | after the last round every semidominator is the true one and every provisional `idom` is in one of the two cases |
| SdomPaths.CandidateSplit | src/analyze/dom_tree.py:49-56 | a semidominator path to `u` from a node numbered below it ends with an edge from that node or from a later node whose ancestor numbered after `u` has a semidominator path from the same start |
| SdomPaths.SdomFromPath | src/analyze/dom_tree.py:49-56 | a stretch of a walk whose inner nodes are no ancestors of its end is a semidominator path |
| SdomPaths.Escape | src/analyze/dom_tree.py:70-74 | a walk from `start` that avoids a proper ancestor `d` of `w` leaves through a semidominator path from below `d` into the range between `d` and `w` |
| SdomPaths.DomAnc | src/analyze/dom_tree.py:70-74 | a dominator is a DFS ancestor |
| SdomPaths.DomDown | src/analyze/dom_tree.py:70-74 | a dominator of `w` dominates every node on the tree path between it and `w` |
| Dominance.SdomDominates | src/analyze/dom_tree.py:65-66 | when no node between `sdom[w]` and `w` has an earlier semidominator, `sdom[w]` dominates `w` |
| Dominance.LabelDominates | src/analyze/dom_tree.py:67-74 | with the label `m` of the range below `sdom[w]`, a dominator of `m` that is an ancestor of `sdom[m]` dominates `w` |
| Dominance.SettledDominates | src/analyze/dom_tree.py:70-74 | the settled `idom` dominates its node |
| Dominance.SettledIdom | src/analyze/dom_tree.py:70-74 | the settled `idom` of every numbered node but `start` is its immediate dominator |
| Dominance.DomTrans | src/analyze/dom_tree.py:73-74 | dominance is transitive |
| Dominance.DomEntry | src/analyze/cfg.py:179 | the entry is dominated by itself alone |
| Dominance.DomOfIdom | src/analyze/cfg.py:175-178 | the dominators of `x` are `x` and the dominators of its immediate dominator |
| Cfg.PathDominators | src/analyze/cfg.py:174-179 | the nodes of `dom_path[x]` are exactly the dominators of `x` |
| Tarjan.Visit | src/analyze/cfg.py:77-99 | one `__tarjan(u)` call numbers what it reaches, pops exactly the new nodes off the stack, and records each under a root that reaches it and that it reaches. Given a stack whose nodes all reach `u`, it leaves a stack whose nodes all reach `u`; the popped nodes stay closed under edges; and two popped nodes that reach each other get the same root |
| Tarjan.LinkRoot | src/analyze/cfg.py:90-99 | when `lowlink[u] == dfn[u]`, no edge leads from a popped node to the stack below `u`, so the popped nodes stay closed under edges and all share root `u` |
| Tarjan.ChildStack | src/analyze/cfg.py:85-87 | a node left on the stack by a successor's visit reaches that successor, which reaches a node of the older stack, which reaches `u` |
| Tarjan.ChildBound | src/analyze/cfg.py:85-87 | an edge into the stack below `u` from a node still on the stack has lowered `lowlink[u]` to at most that node's number |
| Tarjan.PopScc | src/analyze/cfg.py:90-99 | pops down to and including `u`, clears `onstack`, and appends `u` to `scc` and sets `scc_belongs` for each popped node |
| Tarjan.Popped | src/analyze/cfg.py:91-99 | the popped nodes are each recorded with root `u` |
| Tarjan.RecordOne | src/analyze/cfg.py:94-97 | recording a node appends its root and sets its last root |
| Tarjan.OnStackAll | src/analyze/cfg.py:81-93 | `onstack` is true exactly for the nodes on the stack |
| Tarjan.Min | src/analyze/cfg.py:87-89 | the minimum of two numbers |
| Tarjan.RunFrom | src/analyze/cfg.py:74 | one run with fresh dicts ends with an empty stack, records every node reachable from the seed and only those, each with a root reachable from the seed that reaches it and that it reaches; nodes that reach each other get the same root |
| Tarjan.RunMaximal | src/analyze/cfg.py:74 | within one run, a node that reaches a recorded node and is reached by it is recorded with the same root |
| Tarjan.RunCovers | src/analyze/cfg.py:74 | a fresh run records every node reachable from its seed |
| Tarjan.ReachingSnoc | src/analyze/cfg.py:72-74 | one more seed adds one root per node it reaches |
| Tarjan.Sccs | src/analyze/cfg.py:71-74 | `scc[v]` gains one root per seed whose run reaches `v`, each reaching `v` and reached from it, and `scc_belongs[v]` is the root of the last such run; nodes that reach each other have equal `scc` lists |
| Tarjan.BelongsSame | src/analyze/cfg.py:71-99 | two recorded nodes have the same `scc_belongs` entry exactly when each reaches the other |
| Tarjan.TallySame | src/analyze/cfg.py:72-74 | one more run keeps equal `scc` lists for nodes that reach each other |
| CfgGraph.BuildDwarf | src/analyze/cfg.py:8-14 | `dwarf_index[pc]` lists (file, line, col) for every entry with that pc, in input order |
| CfgGraph.AddFile | src/analyze/cfg.py:10-14 | the entries of one file are appended in order |
| CfgGraph.FileLocsMember | src/analyze/cfg.py:10-14 | a location is listed exactly when one of the file's entries gives it for that pc |
| CfgGraph.LocsAtMember | src/analyze/cfg.py:9-14 | `dwarf_index[pc]` lists a location exactly when some file's entry gives it for `pc` |
| CfgGraph.LastHitBelow | src/analyze/cfg.py:46-49 | the last position below `k` whose instruction has DWARF locations |
| CfgGraph.FirstHitFrom | src/analyze/cfg.py:52-57 | the first position from `k` on whose instruction has DWARF locations |
| CfgGraph.LastHitSpec | src/analyze/cfg.py:46-49 | the reverse scan finds the last covered position, and `None` exactly when there is none |
| CfgGraph.FirstHitSpec | src/analyze/cfg.py:52-57 | the forward scan finds the first covered position, and `None` exactly when there is none |
| CfgGraph.LastCovered | src/analyze/cfg.py:46-49 | the last instruction of a block that has DWARF locations |
| CfgGraph.FirstCovered | src/analyze/cfg.py:51-56 | the first instruction of a block that has DWARF locations |
| CfgGraph.EdgeLabel | src/analyze/cfg.py:44-57 | the label: the last covered source location, then `->` and the first covered destination location, or `None` |
| CfgGraph.LabelNone | src/analyze/cfg.py:44-57 | the label is `None` exactly when no instruction of either block is covered |
| CfgGraph.LabelHead | src/analyze/cfg.py:46-49 | the label starts with the source block's last covered location |
| CfgGraph.LabelTail | src/analyze/cfg.py:51-57 | for a destination inside the symbol, the label ends with `->` and its first covered location |
| CfgGraph.Add | src/analyze/cfg.py:42-43 | the key is created when missing, then the edge appended (line 61); nothing else changes |
| CfgGraph.AddEdge | src/analyze/cfg.py:40-61 | one destination: the assertion error when it is not a block start, else its labelled edge appended |
| CfgGraph.AddEdges | src/analyze/cfg.py:39-61 | the destinations of one transfer, or the first error |
| CfgGraph.Lift | src/analyze/cfg.py:36-61 | every transfer is lifted in order, or the first `TypeError` or `AssertionError` is returned |
| CfgGraph.LiftErr | src/analyze/cfg.py:36-61 | an error on a prefix of the transfers is the error of the whole |
| CfgGraph.DestsOk | src/analyze/cfg.py:39-41 | one transfer's destinations are all added exactly when each starts a block |
| CfgGraph.LiftOk | src/analyze/cfg.py:36-41 | lifting succeeds exactly when every transfer's source is inside a block and each kept destination starts a block |
| CfgGraph.Firsts | src/analyze/cfg.py:84 | the destinations of a list of labelled edges |
| CfgGraph.Labelled | src/analyze/cfg.py:61 | the labelled edges from block `a` to each destination |
| CfgGraph.DestsEdges | src/analyze/cfg.py:39-61 | one transfer's destinations extend `a`'s edge list and nothing else |
| CfgGraph.LiftEdges | src/analyze/cfg.py:36-61 | on success, every key is one of the symbol's blocks, listed once in insertion order, and each edge list is its reference list in transfer order, duplicates kept |
| CfgGraph.ExpectedTarget | src/analyze/cfg.py:36-61 | block `a` has an edge to `v` exactly when it is one of the symbol's blocks and some transfer from an instruction of `a` goes to `v` |
| CfgGraph.Trim | src/analyze/cfg.py:168-172 | the graph without labels: the same keys, and each block's destinations in order |
| CfgGraph.InCountZero | src/analyze/cfg.py:150-157 | no edge enters `x` exactly when its count is zero |
| CfgGraph.TouchedAll | src/analyze/cfg.py:150-157 | a node gets a degree entry exactly when it is a key walked or the target of an edge from one |
| CfgGraph.NodeInDegree | src/analyze/cfg.py:150-157 | the in-degree of every node, one per edge, with the dict's key order |
| CfgGraph.CountInto | src/analyze/cfg.py:154-157 | one more in-edge for each successor, in order |
| CfgGraph.TouchedNodes | src/analyze/cfg.py:150-157 | the nodes the walk touches are the graph's nodes |
| CfgGraph.InDegreeZero | src/analyze/cfg.py:150-157 | a zero count means no edge enters `x` |
| CfgGraph.FindEntry | src/analyze/cfg.py:159-166 | the only node of in-degree zero, "Multiple entry nodes" for a second one, "No entry node" for none |
| CfgGraph.TarjanSeeds | src/analyze/cfg.py:62-74 | the in-degree dict is keyed by `(v, edge_info)` pairs, so every graph key has in-degree zero and is a seed, in dict order |
| CfgGraph.CountPairs | src/analyze/cfg.py:67-70 | counting one list's `(v, edge_info)` pairs gives every pair a non-zero degree and leaves every node's degree at zero |
| DomPaths.DfsDomTree | src/analyze/cfg.py:175-178 | every node of the tree gets the path down to it, and other entries are kept |
| DomPaths.ChainEnds | src/analyze/cfg.py:175-179 | each path runs from the root to its node |
| DomPaths.ChainIdom | src/analyze/cfg.py:175-178 | the path of a node below the root is its `idom`'s path followed by the node |
| Cfg.PlainOf | src/analyze/cfg.py:168-172 | the trimmed graph is the lifted graph without labels |
| Cfg.EntryIff | src/analyze/cfg.py:150-166 | an in-degree of zero means exactly that no edge enters the node |
| Cfg.PathFacts | src/analyze/cfg.py:173-179 | `dom_path` holds exactly the reachable nodes, `dom_path[entry] == [entry]`, and each path extends its `idom`'s path by the node |
| Cfg.EntryOf | src/analyze/cfg.py:150-166 | success exactly when there is one entry; "No entry node" exactly when there is none; "Multiple entry nodes" exactly when there are two or more |
| Cfg.DomOf | src/analyze/cfg.py:173-179 | the dominator tree from the entry and the dominator paths: `dom_path` holds exactly the reachable nodes, each path runs from the entry and extends its `idom`'s path, each `idom` is the immediate dominator, and `d` is on `dom_path[x]` exactly when `d` dominates `x` |
| Cfg.Analyse | src/analyze/cfg.py:62-75 | on a lifted graph (with `__build_dom_tree`, lines 148-179), the Tarjan tally from every key, then the entry outcome, tree and paths |
| Cfg.CfgBuilder.constructor | src/analyze/cfg.py:29-75 | the fields of a builder whose analysis succeeded |
| Cfg.CfgBuilder.New | src/analyze/cfg.py:28-75 | an error without DWARF data, for an unknown symbol, for the first bad transfer, and for zero or several entries; otherwise a builder holding the lifted graph, components, dominator tree and paths |
| CfgLegacy.CfgBuilder.constructor | src/cfg.py:15-59 | the fields of a builder whose analysis succeeded |
| CfgLegacy.CfgBuilder.New | src/cfg.py:15-59 | with `__build_dom_tree` (lines 97-128), the same outcomes as the newer builder, with the blocks taken from `bb[symbol]` (line 20) and no `scc_belongs` field kept |

## Left out

- Process, file and ELF plumbing. Running `objdump`, `perf script` and the linker, temporary files, pyelftools' compilation-unit iteration, and the arch constructors and destructors are all left out. Their outputs (lines, line-program entries) are parameters.
- File reads in `source_cache` become a map from file name to contents. A name that is missing stands for a file that cannot be opened.
- `build_graphviz`, `build_domtree_graphviz`, `__gen_node_anno`, `__gen_node_color` and `__query_node_dwarf`: graphviz rendering, matplotlib colour maps, float arithmetic and file reads.
- `__build_bb_count`: matplotlib normalisation with floats.
- `lowdepth` and `depth` in `__tarjan`: they are written but never read.
- Cfg.CfgBuilder.New: a Python object is made even when `__build_dom_tree` raises halfway. The model makes the builder only on success and returns the exception otherwise.
- Cfg.Analyse: Tarjan is run on the graph without labels, because `for v, _ in self.graph[u]` reads only the destinations. The in-degree is likewise computed on that graph, which gives the same counts.
- `dwarf=None`, the default of `__init__`, makes `__build_dwarf` iterate `None` and raise. It is modelled as the error `NoDwarf`.
- `read_dwarf` returns a pair of indexes, while `cfg_builder` expects a dict from file name to (line, col, pc) entries. CfgGraph.BuildDwarf takes the shape `cfg_builder` reads.
- X86_64.IsControlFlowInstr: takes the triple (hex code, instruction, direction mark) that the comment at src/arch/x86_64.py:43 describes. `read_textdump` (src/arch/arch.py:86) stores pairs (hex code, rest), and on such a pair `instr[2]` raises IndexError for every instruction that is not a `ret`. The model does not reproduce that IndexError. The direction mark is a parameter.
- The recursions in `dfs` (src/analyze/dom_tree.py:11-19), `build_tree` (src/analyze/dom_tree.py:81-89) and `__tarjan` (src/analyze/cfg.py:77-99) raise RecursionError once a path of the graph is deeper than Python's recursion limit (1000 by default; the source never raises it). The model's recursion has no such limit, so it returns a result on those graphs.
- `current_section` in `read_textdump` is assigned but never read, so it is not kept.
- `riscv64_tools` has no `is_control_flow_end` of its own, and the base class's method is not part of this model.
- `int()` is modelled for ASCII digits, an optional sign, surrounding whitespace, single underscores and a `0x` prefix in base 16. Other Unicode digits are not.
- `perf_to_bb_count` of src/draw_cfg.py uses float division, so it is not modelled. The one in src/dump_all_hot_bb.py is.
- The basic-block segmenter `read_basic_blocks` is not part of this model. The blocks of each symbol and the transfer edges are inputs.
- The command-line scripts (argument parsing, directory walks, thresholds computed as float ratios) and src/riscv-dasm.py (a subprocess pipe client).
- Tables that the source fills in place inside a function (`dfn`, `revgraph`, `dwarf_index`, `res`, the DWARF indexes) are values threaded through methods and returned. Fields of long-lived objects (`basic_block_size`, `source_cache`, `cfg_builder`) are class fields.

## Findings

| source | as written | input that shows it | evidently intended | confidence | as-written member | corrected member |
|---|---|---|---|---|---|---|
| src/analyze/source_cache.py:13-14 | `if line < len(lines): return lines[line - 1]` | a file `["int x;\n", "return x;\n"]` and line 2 gives "" instead of `"return x;\n"` | `1 <= line <= len(lines)`, so every 1-based line is reachable | not executed | SourceLines.LastLineLostExample | SourceLines.FixedNumbering |
