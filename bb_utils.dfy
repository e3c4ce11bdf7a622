/**
 * The address index of src/analyze/bb_utils.py: a sorted table of
 * (block start, instruction count) pairs and a `bisect_right` lookup that
 * maps a pc to the last block starting at or before it.
 */
module BbUtils {
  import opened Wrappers

  /** One table entry: the block's start address and its instruction count. */
  type Entry = (int, nat)

  /** The blocks of one symbol: block start -> its instruction addresses, in order. */
  type Blocks = map<int, seq<int>>

  /** Python's `<` on 2-tuples of integers: lexicographic. */
  predicate Lt(a: Entry, b: Entry) {
    a.0 < b.0 || (a.0 == b.0 && a.1 < b.1)
  }

  /** Strictly ascending, hence free of duplicates. */
  predicate StrictlySorted(s: seq<Entry>) {
    forall i, j :: 0 <= i < j < |s| ==> Lt(s[i], s[j])
  }

  /** Every (start, length) pair of the given symbols. */
  ghost function PairsOf(bb: map<string, Blocks>, syms: set<string>): set<Entry> {
    set sym, start | sym in syms && sym in bb && start in bb[sym] :: (start, |bb[sym][start]|)
  }

  /** The pairs of the blocks of one symbol whose starts are in `starts`. */
  ghost function BlockPairs(blocks: Blocks, starts: set<int>): set<Entry> {
    set start | start in starts && start in blocks :: (start, |blocks[start]|)
  }

  /** Inserting into a strictly sorted table, skipping an equal entry (the `set` step). */
  function Insert(x: Entry, s: seq<Entry>): (r: seq<Entry>)
    requires StrictlySorted(s)
    ensures StrictlySorted(r)
    ensures forall p :: p in r <==> p == x || p in s
  {
    if s == [] then [x]
    else if x == s[0] then s
    else if Lt(x, s[0]) then [x] + s
    else
      var t := Insert(x, s[1..]);
      assert forall p :: p in t ==> Lt(s[0], p);
      [s[0]] + t
  }

  /** `sorted(set(xs))` */
  function SortedSet(xs: seq<Entry>): (r: seq<Entry>)
    ensures StrictlySorted(r)
    ensures forall p :: p in r <==> p in xs
  {
    if xs == [] then []
    else
      var r := Insert(xs[0], SortedSet(xs[1..]));
      assert forall p :: p in xs <==> p == xs[0] || p in xs[1..];
      r
  }

  /**
   * `bisect_right(a, x, lo, hi)`, the binary search of Python's `bisect`
   * module: on a sorted table, the index after the last entry `<= x`.
   */
  function BisectRight(a: seq<Entry>, x: Entry, lo: nat, hi: nat): (i: nat)
    requires StrictlySorted(a) && lo <= hi <= |a|
    requires forall k :: 0 <= k < lo ==> !Lt(x, a[k])
    requires forall k :: hi <= k < |a| ==> Lt(x, a[k])
    ensures lo <= i <= hi
    ensures forall k :: 0 <= k < i ==> !Lt(x, a[k])
    ensures forall k :: i <= k < |a| ==> Lt(x, a[k])
    decreases hi - lo
  {
    if lo < hi then
      var mid := (lo + hi) / 2;
      if Lt(x, a[mid]) then BisectRight(a, x, lo, mid) else BisectRight(a, x, mid + 1, hi)
    else lo
  }

  /** The sorted, de-duplicated block table of src/analyze/bb_utils.py. */
  class BasicBlockSize {
    var maxBbSize: nat
    var allBasicBlock: seq<Entry>

    ghost predicate Valid()
      reads this
    {
      && StrictlySorted(allBasicBlock)
      && (forall p :: p in allBasicBlock ==> p.1 <= maxBbSize)
    }

    /**
     * Collects every (start, length) of every symbol's blocks, and the
     * largest length (0 when there are none); the table is their sorted set.
     */
    constructor (bb: map<string, Blocks>)
      ensures Valid()
      ensures forall p :: p in allBasicBlock <==> p in PairsOf(bb, bb.Keys)
      ensures allBasicBlock == [] ==> maxBbSize == 0
      ensures allBasicBlock != [] ==> exists p :: p in allBasicBlock && p.1 == maxBbSize
    {
      var acc: seq<Entry> := [];
      var maxSize: nat := 0;
      var todo := bb.Keys;
      ghost var done: set<string> := {};
      while todo != {}
        invariant todo + done == bb.Keys && todo !! done
        invariant forall p :: p in acc <==> p in PairsOf(bb, done)
        invariant forall p :: p in acc ==> p.1 <= maxSize
        invariant acc == [] ==> maxSize == 0
        invariant acc != [] ==> exists p :: p in acc && p.1 == maxSize
        decreases todo
      {
        var symbol := PickKey(todo);
        acc, maxSize := AppendBlocks(acc, maxSize, bb[symbol]);
        PairsOfStep(bb, done, symbol);
        todo := todo - {symbol};
        done := done + {symbol};
      }
      maxBbSize := maxSize;
      allBasicBlock := SortedSet(acc);
    }

    /**
     * `query_bb_id(addr)`: the index of the last block starting at or
     * before `addr`, or `None` when there is none.
     */
    function QueryBbId(addr: int): (r: Option<nat>)
      reads this
      requires Valid()
      ensures r.None? <==> (allBasicBlock == [] || addr < allBasicBlock[0].0)
      ensures r.Some? ==> r.value < |allBasicBlock| && allBasicBlock[r.value].0 <= addr
      ensures r.Some? && r.value + 1 < |allBasicBlock| ==> addr < allBasicBlock[r.value + 1].0
    {
      var i := BisectRight(allBasicBlock, (addr, maxBbSize), 0, |allBasicBlock|);
      assert forall k :: 0 <= k < |allBasicBlock| ==> (Lt((addr, maxBbSize), allBasicBlock[k]) <==> addr < allBasicBlock[k].0);
      if i == 0 then None else Some(i - 1)
    }

    /** `query_bb_addr(id)`: the start of block `id`, a start the lookup maps back to a block with that start. */
    function QueryBbAddr(id: nat): (r: int)
      reads this
      requires Valid() && id < |allBasicBlock|
      ensures QueryBbId(r).Some? && allBasicBlock[QueryBbId(r).value].0 == r
    {
      StartsFound(id);
      allBasicBlock[id].0
    }

    lemma StartsFound(id: nat)
      requires Valid() && id < |allBasicBlock|
      ensures QueryBbId(allBasicBlock[id].0).Some?
      ensures allBasicBlock[QueryBbId(allBasicBlock[id].0).value].0 == allBasicBlock[id].0
    {
      var j := QueryBbId(allBasicBlock[id].0).value;
      if j < id {
        StartsAscending(j + 1, id);
      } else {
        StartsAscending(id, j);
      }
    }

    /** `query_bb_size(id)`: the instruction count of block `id`, at most the largest one. */
    function QueryBbSize(id: nat): (r: nat)
      reads this
      requires Valid() && id < |allBasicBlock|
      ensures r <= maxBbSize && (allBasicBlock[id].0, r) in allBasicBlock
    {
      allBasicBlock[id].1
    }

    /** Round trip: the id of a block start leads back to that start. */
    lemma QueryRoundTrip(s: int)
      requires Valid()
      requires exists p :: p in allBasicBlock && p.0 == s
      ensures QueryBbId(s).Some? && QueryBbAddr(QueryBbId(s).value) == s
    {
      var p :| p in allBasicBlock && p.0 == s;
      var k :| 0 <= k < |allBasicBlock| && allBasicBlock[k] == p;
      StartsAscending(k, QueryBbId(s).value);
    }

    /** The lookup is monotone in the address, with `None` below every index. */
    lemma QueryMonotone(a1: int, a2: int)
      requires Valid() && a1 <= a2
      ensures QueryBbId(a1).Some? ==> QueryBbId(a2).Some? && QueryBbId(a1).value <= QueryBbId(a2).value
    {
      if QueryBbId(a1).Some? {
        var i, j := QueryBbId(a1).value, QueryBbId(a2).value;
        if j < i {
          StartsAscending(j + 1, i);
        }
      }
    }

    /** No upper bound: every address at or past the last start maps to the last block. */
    lemma QueryPastEnd(addr: int)
      requires Valid() && allBasicBlock != []
      requires allBasicBlock[|allBasicBlock| - 1].0 <= addr
      ensures QueryBbId(addr) == Some(|allBasicBlock| - 1)
    {
      StartsAscending(0, |allBasicBlock| - 1);
    }

    lemma StartsAscending(i: nat, j: nat)
      requires Valid() && i <= j < |allBasicBlock|
      ensures allBasicBlock[i].0 <= allBasicBlock[j].0
    {
      if i < j { assert Lt(allBasicBlock[i], allBasicBlock[j]); }
    }
  }

  /** Some element of a non-empty set: the next key of a dict walk whose order does not matter. */
  method PickKey<K>(s: set<K>) returns (x: K)
    requires s != {}
    ensures x in s
  {
    NoElementsEmpty(s);
    x :| x in s;
  }

  lemma NoElementsEmpty<K>(s: set<K>)
    ensures (forall y :: y !in s) ==> s == {}
  {
    if forall y :: y !in s {
      assert s == {};
    }
  }

  /**
   * The inner loop of the table constructor: appends (start, length) for
   * every block of one symbol and keeps the running maximum length.
   */
  method AppendBlocks(acc: seq<Entry>, maxSize: nat, blocks: Blocks) returns (acc': seq<Entry>, maxSize': nat)
    requires forall p :: p in acc ==> p.1 <= maxSize
    requires acc == [] ==> maxSize == 0
    requires acc != [] ==> exists p :: p in acc && p.1 == maxSize
    ensures forall p :: p in acc' <==> p in acc || p in BlockPairs(blocks, blocks.Keys)
    ensures forall p :: p in acc' ==> p.1 <= maxSize'
    ensures acc' == [] ==> maxSize' == 0
    ensures acc' != [] ==> exists p :: p in acc' && p.1 == maxSize'
  {
    acc', maxSize' := acc, maxSize;
    var starts := blocks.Keys;
    ghost var seen: set<int> := {};
    while starts != {}
      invariant starts + seen == blocks.Keys && starts !! seen
      invariant forall p :: p in acc' <==> p in acc || p in BlockPairs(blocks, seen)
      invariant forall p :: p in acc' ==> p.1 <= maxSize'
      invariant acc' == [] ==> maxSize' == 0
      invariant acc' != [] ==> exists p :: p in acc' && p.1 == maxSize'
      decreases starts
    {
      var start := PickKey(starts);
      var entry := (start, |blocks[start]|);
      acc' := acc' + [entry];
      if maxSize' < |blocks[start]| {
        maxSize' := |blocks[start]|;
      }
      assert entry in acc';
      starts := starts - {start};
      seen := seen + {start};
    }
  }

  lemma PairsOfStep(bb: map<string, Blocks>, done: set<string>, sym: string)
    requires sym in bb
    ensures PairsOf(bb, done + {sym}) == PairsOf(bb, done) + BlockPairs(bb[sym], bb[sym].Keys)
  {
    var l, r := PairsOf(bb, done + {sym}), PairsOf(bb, done) + BlockPairs(bb[sym], bb[sym].Keys);
    forall p | p in l ensures p in r {
      var s, start :| s in done + {sym} && s in bb && start in bb[s] && p == (start, |bb[s][start]|);
      if s != sym { assert p in PairsOf(bb, done); }
    }
    forall p | p in r ensures p in l {
      if p in PairsOf(bb, done) {
        var s, start :| s in done && s in bb && start in bb[s] && p == (start, |bb[s][start]|);
      } else {
        var start :| start in bb[sym] && p == (start, |bb[sym][start]|);
      }
    }
  }

  /**
   * `query_bb_addr(query_bb_id(pc))`: the start of the block holding `pc`,
   * or `None` when `pc` lies below every block.
   */
  function BlockOf(bb: BasicBlockSize, pc: int): (r: Option<int>)
    reads bb
    requires bb.Valid()
    ensures r.None? <==> (bb.allBasicBlock == [] || pc < bb.allBasicBlock[0].0)
    ensures r.Some? ==> r.value <= pc && exists p :: p in bb.allBasicBlock && p.0 == r.value
  {
    match bb.QueryBbId(pc)
    case None => None
    case Some(id) => Some(bb.QueryBbAddr(id))
  }

  /** The block found for a pc is the nearest start at or below it: no other start lies between them. */
  lemma BlockOfNearest(bb: BasicBlockSize, pc: int, p: Entry)
    requires bb.Valid() && BlockOf(bb, pc).Some? && p in bb.allBasicBlock
    ensures p.0 <= pc ==> p.0 <= BlockOf(bb, pc).value
  {
    var id := bb.QueryBbId(pc).value;
    var k :| 0 <= k < |bb.allBasicBlock| && bb.allBasicBlock[k] == p;
    if id < k {
      bb.StartsAscending(id + 1, k);
    } else {
      bb.StartsAscending(k, id);
    }
  }

  /** A pc is its own block's start exactly when it is the start of some block: `query_bb_addr(query_bb_id(v)) == v`. */
  lemma BlockOfStart(bb: BasicBlockSize, v: int)
    requires bb.Valid()
    ensures BlockOf(bb, v) == Some(v) <==> exists p :: p in bb.allBasicBlock && p.0 == v
  {
    if p :| p in bb.allBasicBlock && p.0 == v {
      var k :| 0 <= k < |bb.allBasicBlock| && bb.allBasicBlock[k] == p;
      bb.StartsAscending(0, k);
      BlockOfNearest(bb, v, p);
    }
  }
}
