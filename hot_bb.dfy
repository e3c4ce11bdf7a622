/**
 * `perf_to_bb_count` of src/dump_all_hot_bb.py: folds per-pc sample
 * counts into per-basic-block counts, keyed by the start address of the
 * block each pc falls in. Pcs below the first block are dropped.
 */
module HotBb {
  import opened Wrappers
  import opened BbUtils

  /** event -> pc -> count, the shape `extract_perf_from_file` hands over for one binary. */
  type PcCounts = map<string, map<int, int>>

  /** Some element of a non-empty set, the same one each time. */
  ghost function Pick(s: set<int>): (x: int)
    requires s != {}
    ensures x in s
  {
    NonEmpty(s);
    var x :| x in s; x
  }

  lemma NonEmpty(s: set<int>)
    ensures s != {} ==> exists y :: y in s
  {
    if forall y :: y !in s {
      assert s == {};
    }
  }

  /** The sum of `m` over the keys in `s`. */
  ghost function Weight(m: map<int, int>, s: set<int>): int
    requires s <= m.Keys
    decreases s
  {
    if s == {} then 0 else var x := Pick(s); m[x] + Weight(m, s - {x})
  }

  /** A sum over a set does not depend on the order its elements are taken in. */
  lemma {:induction false} WeightRemove(m: map<int, int>, s: set<int>, y: int)
    requires s <= m.Keys && y in s
    ensures Weight(m, s) == m[y] + Weight(m, s - {y})
    decreases s
  {
    var x := Pick(s);
    if x != y {
      WeightRemove(m, s - {x}, y);
      WeightRemove(m, s - {y}, x);
      assert s - {x} - {y} == s - {y} - {x};
    }
  }

  /** The sum over a disjoint union is the sum of the sums. */
  lemma {:induction false} WeightUnion(m: map<int, int>, a: set<int>, b: set<int>)
    requires a <= m.Keys && b <= m.Keys && a !! b
    ensures Weight(m, a + b) == Weight(m, a) + Weight(m, b)
    decreases a
  {
    if a != {} {
      var x := Pick(a);
      WeightRemove(m, a, x);
      WeightRemove(m, a + b, x);
      assert a + b - {x} == (a - {x}) + b;
      WeightUnion(m, a - {x}, b);
    } else {
      assert a + b == b;
    }
  }

  /** Which block each pc falls in: pc -> start of its block, `None` below the first block. */
  type Owners = map<int, Option<int>>

  /** The owner of every sampled pc, as the two lookups find it. */
  function OwnersOf(bb: BasicBlockSize, counts: map<int, int>): (o: Owners)
    reads bb
    requires bb.Valid()
    ensures o.Keys == counts.Keys
    ensures forall pc :: pc in o ==> o[pc] == BlockOf(bb, pc)
  {
    map pc | pc in counts :: BlockOf(bb, pc)
  }

  /** The pcs among `pcs` whose block starts at `a`. */
  ghost function PcsIn(owner: Owners, pcs: set<int>, a: int): (r: set<int>)
    requires pcs <= owner.Keys
    ensures r <= pcs
  {
    set pc | pc in pcs && owner[pc] == Some(a)
  }

  /** The block starts that some pc among `pcs` falls in. */
  ghost function Hot(owner: Owners, pcs: set<int>): set<int>
    requires pcs <= owner.Keys
  {
    set pc | pc in pcs && owner[pc].Some? :: owner[pc].value
  }

  /** The per-block counts of the pcs in `pcs`: each block start maps to the total of the pcs it holds. */
  ghost function Tally(counts: map<int, int>, owner: Owners, pcs: set<int>): map<int, int>
    requires pcs <= counts.Keys && pcs <= owner.Keys
  {
    map a | a in Hot(owner, pcs) :: Weight(counts, PcsIn(owner, pcs, a))
  }

  /** What `perf_to_bb_count` stores for one event: the tally of all its pcs. */
  ghost function BlockCounts(bb: BasicBlockSize, counts: map<int, int>): map<int, int>
    reads bb
    requires bb.Valid()
  {
    Tally(counts, OwnersOf(bb, counts), counts.Keys)
  }

  /** One pc of the inner loop: it adds its count to its block's entry, creating it at 0, or changes nothing. */
  lemma TallyStep(counts: map<int, int>, owner: Owners, done: set<int>, pc: int)
    requires done <= counts.Keys && done <= owner.Keys && pc in counts && pc in owner && pc !in done
    ensures owner[pc].None? ==> Tally(counts, owner, done + {pc}) == Tally(counts, owner, done)
    ensures owner[pc].Some? ==>
      Tally(counts, owner, done + {pc}) == Bumped(Tally(counts, owner, done), owner[pc].value, counts[pc])
  {
    var t, t' := Tally(counts, owner, done), Tally(counts, owner, done + {pc});
    HotStep(owner, done, pc);
    if owner[pc].None? {
      assert t'.Keys == t.Keys;
      forall a | a in t ensures t'[a] == t[a] {
        PcsStep(owner, done, pc, a);
      }
      assert t' == t;
    } else {
      var b := owner[pc].value;
      var u := Bumped(t, b, counts[pc]);
      assert t'.Keys == u.Keys;
      forall a | a in u ensures t'[a] == u[a] {
        PcsStep(owner, done, pc, a);
        if a == b {
          WeightRemove(counts, PcsIn(owner, done + {pc}, b), pc);
          if b !in t {
            assert PcsIn(owner, done, b) == {};
          }
        }
      }
      assert t' == u;
    }
  }

  /** The blocks hit, one pc later. */
  lemma HotStep(owner: Owners, done: set<int>, pc: int)
    requires done <= owner.Keys && pc in owner
    ensures Hot(owner, done + {pc}) == Hot(owner, done) + (if owner[pc].Some? then {owner[pc].value} else {})
  {
  }

  /** The pcs of one block, one pc later. */
  lemma PcsStep(owner: Owners, done: set<int>, pc: int, a: int)
    requires done <= owner.Keys && pc in owner && pc !in done
    ensures owner[pc] != Some(a) ==> PcsIn(owner, done + {pc}, a) == PcsIn(owner, done, a)
    ensures owner[pc] == Some(a) ==> pc in PcsIn(owner, done + {pc}, a)
    ensures PcsIn(owner, done + {pc}, a) - {pc} == PcsIn(owner, done, a)
  {
  }

  /** The inner loop of lines 15-22: the per-block counts of one event. */
  method CountBlocks(bb: BasicBlockSize, counts: map<int, int>) returns (m: map<int, int>)
    requires bb.Valid()
    ensures m == BlockCounts(bb, counts)
  {
    ghost var owner := OwnersOf(bb, counts);
    m := map[];
    var todo := counts.Keys;
    ghost var done: set<int> := {};
    assert Hot(owner, done) == {};
    while todo != {}
      invariant todo + done == counts.Keys && todo !! done
      invariant m == Tally(counts, owner, done)
      decreases todo
    {
      var pc := PickKey(todo);
      TallyStep(counts, owner, done, pc);
      var id := bb.QueryBbId(pc);
      if id.Some? {
        var addr := bb.QueryBbAddr(id.value);
        assert owner[pc] == Some(addr);
        m := Bump(m, addr, counts[pc]);
      }
      todo := todo - {pc};
      done := done + {pc};
    }
  }

  /** `m` with `c` added to the entry of `addr`, a missing entry counting as 0. */
  function Bumped(m: map<int, int>, addr: int, c: int): (r: map<int, int>)
    ensures r.Keys == m.Keys + {addr}
  {
    m[addr := (if addr in m then m[addr] else 0) + c]
  }

  /** Lines 20-22: adds `c` to the entry of `addr`, creating it at 0 first. */
  method Bump(m: map<int, int>, addr: int, c: int) returns (m': map<int, int>)
    ensures m' == Bumped(m, addr, c)
  {
    m' := m;
    if addr !in m' {
      m' := m'[addr := 0];
    }
    m' := m'[addr := m'[addr] + c];
  }

  /**
   * `perf_to_bb_count(perf_extract, bb_size)` (lines 11-23): every event
   * gets an entry, even one whose pcs all fall below the first block.
   */
  method PerfToBbCount(perf: PcCounts, bb: BasicBlockSize) returns (res: PcCounts)
    requires bb.Valid()
    ensures res.Keys == perf.Keys
    ensures forall e :: e in res ==> res[e] == BlockCounts(bb, perf[e])
  {
    res := map[];
    var todo := perf.Keys;
    while todo != {}
      invariant todo <= perf.Keys && res.Keys == perf.Keys - todo
      invariant forall e :: e in res ==> res[e] == BlockCounts(bb, perf[e])
      decreases todo
    {
      var event := PickKey(todo);
      var m := CountBlocks(bb, perf[event]);
      res := res[event := m];
      todo := todo - {event};
    }
  }

  /** Every key of an event's counts is the start of a block, and one that some sampled pc at or above it falls in. */
  lemma CountKeys(bb: BasicBlockSize, counts: map<int, int>, a: int)
    requires bb.Valid()
    ensures a in BlockCounts(bb, counts) <==> exists pc :: pc in counts && a <= pc && BlockOf(bb, pc) == Some(a)
    ensures a in BlockCounts(bb, counts) ==> exists p :: p in bb.allBasicBlock && p.0 == a
  {
    var owner := OwnersOf(bb, counts);
    if a in BlockCounts(bb, counts) {
      var pc :| pc in counts && owner[pc].Some? && owner[pc].value == a;
    }
  }

  /** A block's count is the total over the pcs whose block it is. */
  lemma CountValue(bb: BasicBlockSize, counts: map<int, int>, a: int)
    requires bb.Valid() && a in BlockCounts(bb, counts)
    ensures BlockCounts(bb, counts)[a] == Weight(counts, set pc | pc in counts && BlockOf(bb, pc) == Some(a))
  {
    var owner := OwnersOf(bb, counts);
    assert PcsIn(owner, counts.Keys, a) == set pc | pc in counts && BlockOf(bb, pc) == Some(a);
  }

  /** The pcs that fall in some block. */
  ghost function Covered(owner: Owners, pcs: set<int>): (r: set<int>)
    requires pcs <= owner.Keys
    ensures r <= pcs
  {
    set pc | pc in pcs && owner[pc].Some?
  }

  /**
   * Conservation: the block counts of an event add up to the counts of its
   * pcs, less those below the first block.
   */
  lemma Conservation(bb: BasicBlockSize, counts: map<int, int>)
    requires bb.Valid()
    ensures var bc := BlockCounts(bb, counts);
      Weight(bc, bc.Keys) == Weight(counts, set pc | pc in counts && BlockOf(bb, pc).Some?)
  {
    var owner := OwnersOf(bb, counts);
    TallyConserves(counts, owner, counts.Keys);
    assert Covered(owner, counts.Keys) == set pc | pc in counts && BlockOf(bb, pc).Some?;
  }

  lemma TallyConserves(counts: map<int, int>, owner: Owners, pcs: set<int>)
    requires pcs <= counts.Keys && pcs <= owner.Keys
    ensures var t := Tally(counts, owner, pcs); Weight(t, t.Keys) == Weight(counts, Covered(owner, pcs))
  {
    var t := Tally(counts, owner, pcs);
    ConservationOver(counts, owner, pcs, t.Keys);
    forall pc | pc in Covered(owner, pcs) ensures pc in InBlocks(owner, pcs, t.Keys) {
      assert owner[pc].value in Hot(owner, pcs);
    }
    assert InBlocks(owner, pcs, t.Keys) == Covered(owner, pcs);
  }

  /** The pcs whose block starts at one of `ks`. */
  ghost function InBlocks(owner: Owners, pcs: set<int>, ks: set<int>): (r: set<int>)
    requires pcs <= owner.Keys
    ensures r <= pcs
  {
    set pc | pc in pcs && owner[pc].Some? && owner[pc].value in ks
  }

  lemma {:induction false} ConservationOver(counts: map<int, int>, owner: Owners, pcs: set<int>, ks: set<int>)
    requires pcs <= counts.Keys && pcs <= owner.Keys && ks <= Tally(counts, owner, pcs).Keys
    ensures Weight(Tally(counts, owner, pcs), ks) == Weight(counts, InBlocks(owner, pcs, ks))
    decreases ks
  {
    var t := Tally(counts, owner, pcs);
    if ks == {} {
      assert InBlocks(owner, pcs, ks) == {};
    } else {
      var a := Pick(ks);
      WeightRemove(t, ks, a);
      ConservationOver(counts, owner, pcs, ks - {a});
      var mine, rest := PcsIn(owner, pcs, a), InBlocks(owner, pcs, ks - {a});
      assert InBlocks(owner, pcs, ks) == mine + rest;
      WeightUnion(counts, mine, rest);
    }
  }

  /** With no blocks at all, or every pc below the first one, every event's counts are empty. */
  lemma NothingCovered(bb: BasicBlockSize, counts: map<int, int>)
    requires bb.Valid()
    requires bb.allBasicBlock == [] || forall pc :: pc in counts ==> pc < bb.allBasicBlock[0].0
    ensures BlockCounts(bb, counts) == map[]
  {
    var owner := OwnersOf(bb, counts);
    forall a ensures a !in Hot(owner, counts.Keys) {
    }
  }

  /** A pc at or past every block start is counted under the last block. */
  lemma PastLastBlock(bb: BasicBlockSize, counts: map<int, int>, pc: int)
    requires bb.Valid() && bb.allBasicBlock != [] && pc in counts
    requires bb.allBasicBlock[|bb.allBasicBlock| - 1].0 <= pc
    ensures bb.allBasicBlock[|bb.allBasicBlock| - 1].0 in BlockCounts(bb, counts)
  {
    bb.QueryPastEnd(pc);
    var owner := OwnersOf(bb, counts);
    assert owner[pc] == Some(bb.allBasicBlock[|bb.allBasicBlock| - 1].0);
  }
}
