/**
 * The `perf script` reader: each output line names a sample count, an event, a pc and the
 * object file; the reader sums the counts per (file, event, pc).
 */
module Perf {
  import opened Wrappers
  import opened PyStr
  import Arch

  /** The exceptions the line loop lets escape: a missing field, or a field that is no integer. */
  datatype PerfError = IndexError | ValueError

  /** One parsed line: `freq` samples of `event` at `pc` in object `file`. */
  datatype Sample = Sample(file: string, event: string, pc: int, freq: int)

  /** file → event → pc → summed count */
  type PerfMap = map<string, map<string, map<int, int>>>

  // ---------------------------------------------------------------- one line

  /**
   * The whitespace fields after the first ':' of a line: `int(f[0])`, `f[1][:-1]`,
   * `int(f[2], 16)` and `f[-1].strip()[1:-1]`, with the exception the first failing
   * access raises.
   */
  function ParseFields(fields: seq<string>): (r: Result<Sample, PerfError>)
    ensures |fields| < 3 ==> r.Err?
    ensures r.Ok? <==> |fields| >= 3 && ParseInt(fields[0], 10).Some? && ParseInt(fields[2], 16).Some?
    ensures r.Ok? ==> Some(r.value.freq) == ParseInt(fields[0], 10) && Some(r.value.pc) == ParseInt(fields[2], 16)
    ensures r.Ok? && fields[1] != [] ==> fields[1] == r.value.event + [fields[1][|fields[1]| - 1]]
    ensures r.Ok? && fields[1] == [] ==> r.value.event == []
    ensures r.Ok? ==> var last := Strip(fields[|fields| - 1]);
      |last| >= 2 ==> last == [last[0]] + r.value.file + [last[|last| - 1]]
    ensures r == Err(IndexError) <==> |fields| == 0 || (ParseInt(fields[0], 10).Some? && |fields| < 3)
    ensures r == Err(ValueError) <==>
      |fields| > 0 && (ParseInt(fields[0], 10).None? || (|fields| >= 3 && ParseInt(fields[2], 16).None?))
  {
    if |fields| == 0 then Err(IndexError)
    else
      var freq := ParseInt(fields[0], 10);
      if freq.None? then Err(ValueError)
      else if |fields| < 3 then Err(IndexError)
      else
        var pc := ParseInt(fields[2], 16);
        if pc.None? then Err(ValueError)
        else
          DropLastLast(fields[1]);
          Ok(Sample(Inner(Strip(fields[|fields| - 1])), DropLast(fields[1]), pc.value, freq.value))
  }

  /** One line: nothing when it has no ':', else the sample its fields give, or their error. */
  function ParseLine(line: string): (r: Result<Option<Sample>, PerfError>)
    ensures ':' !in line <==> r == Ok(None)
  {
    var colon := Find(line, ':');
    if colon == -1 then Ok(None)
    else
      match ParseFields(SplitWhitespace(line[colon + 1..]))
      case Ok(s) => Ok(Some(s))
      case Err(e) => Err(e)
  }

  /**
   * A line as `perf script` prints it, reduced to what the reader looks at: some prefix
   * without ':', then the count, the event with its trailing ':', the pc in hex, the symbol
   * fields and the object file in parentheses.
   */
  function SampleLine(prefix: string, freq: int, event: string, hex: string,
                      symbol: seq<string>, file: string): string
  {
    prefix + ": " + JoinSpaced([IntToStr(freq), event + ":", hex] + symbol + ["(" + file + ")"])
  }

  /** Round trip: the reader recovers count, event, pc and file from a printed line. */
  lemma ParseSampleLine(prefix: string, freq: int, event: string, hex: string,
                        symbol: seq<string>, file: string)
    requires ':' !in prefix
    requires NoSpace(event) && NoSpace(file)
    requires |hex| > 0 && AllDigits(hex, 16)
    requires forall i :: 0 <= i < |symbol| ==> symbol[i] != [] && NoSpace(symbol[i])
    ensures ParseLine(SampleLine(prefix, freq, event, hex, symbol, file))
         == Ok(Some(Sample(file, event, DigitsValue(hex, 16), freq)))
  {
    var xs := [IntToStr(freq), event + ":", hex] + symbol + ["(" + file + ")"];
    FieldsPlain(freq, event, hex, symbol, file);
    FieldsRoundTrip(freq, event, hex, symbol, file);
    ParseLineFrom(prefix, xs, Sample(file, event, DigitsValue(hex, 16), freq));
  }

  lemma ParseLineFrom(prefix: string, xs: seq<string>, s: Sample)
    requires ':' !in prefix
    requires |xs| > 0
    requires forall i :: 0 <= i < |xs| ==> xs[i] != [] && NoSpace(xs[i])
    requires ParseFields(xs) == Ok(s)
    ensures ParseLine(prefix + ": " + JoinSpaced(xs)) == Ok(Some(s))
  {
    var line := prefix + ": " + JoinSpaced(xs);
    assert ':' in line && SplitWhitespace(line[Find(line, ':') + 1..]) == xs by {
      SplitAfterColon(prefix, xs);
    }
    ParseLineOf(line, xs);
  }

  /** A line with a ':' parses as the fields after its first ':' do. */
  lemma ParseLineOf(line: string, fields: seq<string>)
    requires ':' in line
    requires SplitWhitespace(line[Find(line, ':') + 1..]) == fields
    ensures ParseLine(line) == if ParseFields(fields).Ok? then Ok(Some(ParseFields(fields).value)) else Err(ParseFields(fields).error)
  {
    assert Find(line, ':') != -1;
  }

  lemma FieldsPlain(freq: int, event: string, hex: string, symbol: seq<string>, file: string)
    requires NoSpace(event) && NoSpace(file)
    requires |hex| > 0 && AllDigits(hex, 16)
    requires forall i :: 0 <= i < |symbol| ==> symbol[i] != [] && NoSpace(symbol[i])
    ensures var xs := [IntToStr(freq), event + ":", hex] + symbol + ["(" + file + ")"];
      forall i :: 0 <= i < |xs| ==> xs[i] != [] && NoSpace(xs[i])
  {
    IntToStrPlain(freq);
    forall i | 0 <= i < |hex| ensures !IsSpace(hex[i]) {
      Arch.HexDigitPlain(hex[i]);
    }
    assert NoSpace(event + ":") by {
      forall i | 0 <= i < |event + ":"| ensures !IsSpace((event + ":")[i]) {
        if i < |event| { assert (event + ":")[i] == event[i]; }
      }
    }
    assert NoSpace("(" + file + ")") by {
      forall i | 0 <= i < |"(" + file + ")"| ensures !IsSpace(("(" + file + ")")[i]) {
        if 0 < i <= |file| { assert ("(" + file + ")")[i] == file[i - 1]; }
      }
    }
  }

  lemma SplitAfterColon(prefix: string, xs: seq<string>)
    requires ':' !in prefix
    requires |xs| > 0
    requires forall i :: 0 <= i < |xs| ==> xs[i] != [] && NoSpace(xs[i])
    ensures var line := prefix + ": " + JoinSpaced(xs);
      ':' in line && SplitWhitespace(line[Find(line, ':') + 1..]) == xs
  {
    var t := JoinSpaced(xs);
    var line := prefix + ": " + t;
    assert line == prefix + (": " + t);
    Arch.FindAfter(prefix, ": " + t, ':');
    assert line[|prefix| + 1..] == [' '] + t;
    JoinSpacedStart(xs);
    SplitWhitespaceSpace(t);
    SplitWhitespaceJoin(xs);
  }

  lemma FieldsRoundTrip(freq: int, event: string, hex: string, symbol: seq<string>, file: string)
    requires NoSpace(file)
    requires |hex| > 0 && AllDigits(hex, 16)
    ensures ParseFields([IntToStr(freq), event + ":", hex] + symbol + ["(" + file + ")"])
         == Ok(Sample(file, event, DigitsValue(hex, 16), freq))
  {
    var xs := [IntToStr(freq), event + ":", hex] + symbol + ["(" + file + ")"];
    assert xs[0] == IntToStr(freq) && xs[1] == event + ":" && xs[2] == hex;
    assert xs[|xs| - 1] == "(" + file + ")";
    ParseIntToStr(freq);
    Arch.HexParses(hex);
    assert DropLast(event + ":") == event;
    WrappedFile(file);
    ParseFieldsOf(xs, Sample(file, event, DigitsValue(hex, 16), freq));
  }

  lemma ParseFieldsOf(fields: seq<string>, s: Sample)
    requires |fields| >= 3
    requires ParseInt(fields[0], 10) == Some(s.freq) && ParseInt(fields[2], 16) == Some(s.pc)
    requires DropLast(fields[1]) == s.event && Inner(Strip(fields[|fields| - 1])) == s.file
    ensures ParseFields(fields) == Ok(s)
  {
  }

  lemma WrappedFile(file: string)
    requires NoSpace(file)
    ensures Inner(Strip("(" + file + ")")) == file
  {
    var w := "(" + file + ")";
    assert |w| == |file| + 2;
    assert w[1..|w| - 1] == file;
    assert NoSpace(w) by {
      forall i | 0 <= i < |w| ensures !IsSpace(w[i]) {
        if 0 < i <= |file| { assert w[i] == file[i - 1]; }
      }
    }
    StripNoSpace(w);
  }

  // ---------------------------------------------------------------- all lines

  /** What one line gives: nothing, a sample, or the exception it raises. */
  type Outcome = Result<Option<Sample>, PerfError>

  /** `[f(x) for x in xs]` */
  function Map<A, B>(xs: seq<A>, f: A -> B): (r: seq<B>)
    ensures |r| == |xs| && forall i :: 0 <= i < |xs| ==> r[i] == f(xs[i])
  {
    seq(|xs|, i requires 0 <= i < |xs| => f(xs[i]))
  }

  /** The samples of the outcomes in order, or the first exception. */
  function Collect(os: seq<Outcome>): (r: Result<seq<Sample>, PerfError>)
    ensures r.Ok? ==> |r.value| <= |os|
  {
    if os == [] then Ok([])
    else
      match Collect(os[..|os| - 1])
      case Err(e) => Err(e)
      case Ok(ss) =>
        match os[|os| - 1]
        case Err(e) => Err(e)
        case Ok(None) => Ok(ss)
        case Ok(Some(s)) => Ok(ss + [s])
  }

  /** The samples of `lines` in order, or the exception of the first line that raises. */
  function Samples(lines: seq<string>): Result<seq<Sample>, PerfError> {
    Collect(Map(lines, ParseLine))
  }

  /** The outcomes are read through exactly when none of them is an exception. */
  lemma {:induction false} CollectOk(os: seq<Outcome>)
    ensures Collect(os).Ok? <==> forall o :: o in os ==> o.Ok?
  {
    if os != [] {
      var init := os[..|os| - 1];
      CollectOk(init);
      assert os == init + [os[|os| - 1]];
    }
  }

  /** An exception in a prefix is the exception of the whole. */
  lemma {:induction false} CollectErrExtends(os: seq<Outcome>, i: nat)
    requires i <= |os| && Collect(os[..i]).Err?
    ensures Collect(os) == Collect(os[..i])
    decreases |os| - i
  {
    if i < |os| {
      assert os[..i + 1][..i] == os[..i];
      CollectErrExtends(os, i + 1);
    } else {
      assert os[..i] == os;
    }
  }

  /** Reading two runs of outcomes one after the other. */
  lemma {:induction false} CollectAppend(x: seq<Outcome>, y: seq<Outcome>)
    ensures Collect(x + y).Ok? <==> Collect(x).Ok? && Collect(y).Ok?
    ensures Collect(x + y).Ok? ==> Collect(x + y).value == Collect(x).value + Collect(y).value
    decreases |y|
  {
    if y == [] {
      assert x + y == x;
    } else {
      var init := y[..|y| - 1];
      assert (x + y)[..|x + y| - 1] == x + init;
      assert (x + y)[|x + y| - 1] == y[|y| - 1];
      CollectAppend(x, init);
      CollectOk(x + init);
      CollectOk(init);
    }
  }

  /** Where the last element of `a` sits in a reordering `b` of it. */
  lemma PickMatch<T>(a: seq<T>, b: seq<T>) returns (front: seq<T>, back: seq<T>)
    requires multiset(a) == multiset(b) && a != []
    ensures b == front + ([a[|a| - 1]] + back)
    ensures multiset(a[..|a| - 1]) == multiset(front + back)
  {
    var x := a[|a| - 1];
    var init := a[..|a| - 1];
    assert a == init + [x];
    assert x in multiset(b);
    var j :| 0 <= j < |b| && b[j] == x;
    SplitAround(b, j);
    MultisetCancel(multiset(init), multiset(b[..j] + b[j + 1..]), x);
    front, back := b[..j], b[j + 1..];
  }

  lemma SplitAround<T>(b: seq<T>, j: nat)
    requires j < |b|
    ensures b == b[..j] + ([b[j]] + b[j + 1..])
    ensures multiset(b) == multiset(b[..j] + b[j + 1..]) + multiset{b[j]}
  {
    assert b == b[..j] + ([b[j]] + b[j + 1..]);
  }

  lemma MultisetCancel<T>(x: multiset<T>, y: multiset<T>, e: T)
    requires x + multiset{e} == y + multiset{e}
    ensures x == y
  {
    forall z ensures x[z] == y[z] {
      assert (x + multiset{e})[z] == (y + multiset{e})[z];
    }
  }

  /** Moving one run into the middle keeps the multiset. */
  lemma BagShuffle<T>(init: seq<T>, mid: seq<T>, front: seq<T>, back: seq<T>)
    requires multiset(init) == multiset(front + back)
    ensures multiset(init + mid) == multiset(front + (mid + back))
  {
  }

  /** Reordered outcomes, all read through, give the same samples reordered. */
  lemma {:induction false} CollectMultiset(a: seq<Outcome>, b: seq<Outcome>)
    requires multiset(a) == multiset(b)
    requires Collect(a).Ok? && Collect(b).Ok?
    ensures multiset(Collect(a).value) == multiset(Collect(b).value)
    decreases |a|
  {
    if a != [] {
      var o := a[|a| - 1];
      var front, back := PickMatch(a, b);
      CollectLast(a);
      CollectAround(front, o, back);
      CollectMultiset(a[..|a| - 1], front + back);
      BagShuffle(Collect(a[..|a| - 1]).value, Collect([o]).value, Collect(front).value, Collect(back).value);
    }
  }

  lemma CollectLast(a: seq<Outcome>)
    requires a != [] && Collect(a).Ok?
    ensures Collect(a[..|a| - 1]).Ok? && Collect([a[|a| - 1]]).Ok?
    ensures Collect(a).value == Collect(a[..|a| - 1]).value + Collect([a[|a| - 1]]).value
  {
    assert a == a[..|a| - 1] + [a[|a| - 1]];
    CollectAppend(a[..|a| - 1], [a[|a| - 1]]);
  }

  /** Reading `front`, one outcome, then `back`, against reading `front` then `back`. */
  lemma CollectAround(front: seq<Outcome>, o: Outcome, back: seq<Outcome>)
    requires Collect(front + ([o] + back)).Ok?
    ensures Collect(front).Ok? && Collect([o]).Ok? && Collect(back).Ok? && Collect(front + back).Ok?
    ensures Collect(front + ([o] + back)).value == Collect(front).value + (Collect([o]).value + Collect(back).value)
    ensures Collect(front + back).value == Collect(front).value + Collect(back).value
  {
    CollectAppend(front, [o] + back);
    CollectAppend([o], back);
    CollectAppend(front, back);
  }

  lemma MapAppend<A, B>(x: seq<A>, y: seq<A>, f: A -> B)
    ensures Map(x + y, f) == Map(x, f) + Map(y, f)
  {
  }

  /** Mapping commutes with reordering. */
  lemma {:induction false} MapMultiset<A, B>(a: seq<A>, b: seq<A>, f: A -> B)
    requires multiset(a) == multiset(b)
    ensures multiset(Map(a, f)) == multiset(Map(b, f))
    decreases |a|
  {
    if a != [] {
      var init, x := a[..|a| - 1], a[|a| - 1];
      var front, back := PickMatch(a, b);
      assert a == init + [x];
      MapMultiset(init, front + back, f);
      MapAppend(init, [x], f);
      MapAppend(front, [x] + back, f);
      MapAppend([x], back, f);
      MapAppend(front, back, f);
      BagShuffle(Map(init, f), Map([x], f), Map(front, f), Map(back, f));
    }
  }

  // ---------------------------------------------------------------- the sums

  /** `res[file][event][pc] += freq`, creating the missing levels first. */
  function Add(res: PerfMap, s: Sample): (r: PerfMap)
    ensures s.file in r && s.event in r[s.file] && s.pc in r[s.file][s.event]
  {
    var byEvent := if s.file in res then res[s.file] else map[];
    var byPc := if s.event in byEvent then byEvent[s.event] else map[];
    var count := if s.pc in byPc then byPc[s.pc] else 0;
    res[s.file := byEvent[s.event := byPc[s.pc := count + s.freq]]]
  }

  /** The dict the loop builds from `ss`, one sample after another. */
  function Aggregate(ss: seq<Sample>): PerfMap {
    if ss == [] then map[] else Add(Aggregate(ss[..|ss| - 1]), ss[|ss| - 1])
  }

  /** The summed count of the samples of `ss` with this file, event and pc. */
  function Total(ss: seq<Sample>, file: string, event: string, pc: int): int {
    if ss == [] then 0
    else
      var s := ss[|ss| - 1];
      Total(ss[..|ss| - 1], file, event, pc) + (if s.file == file && s.event == event && s.pc == pc then s.freq else 0)
  }

  predicate HasFile(ss: seq<Sample>, file: string) {
    exists s :: s in ss && s.file == file
  }

  predicate HasEvent(ss: seq<Sample>, file: string, event: string) {
    exists s :: s in ss && s.file == file && s.event == event
  }

  predicate HasPc(ss: seq<Sample>, file: string, event: string, pc: int) {
    exists s :: s in ss && s.file == file && s.event == event && s.pc == pc
  }

  /** The result holds a file exactly when some sample names it. */
  lemma {:induction false} AggregateFile(ss: seq<Sample>, f: string)
    ensures f in Aggregate(ss) <==> HasFile(ss, f)
  {
    if ss != [] {
      var init, s := ss[..|ss| - 1], ss[|ss| - 1];
      AggregateFile(init, f);
      assert ss == init + [s];
      assert forall x :: x in ss <==> x in init || x == s;
    }
  }

  /** A file holds an event exactly when some sample names both. */
  lemma {:induction false} AggregateEvent(ss: seq<Sample>, f: string, e: string)
    requires f in Aggregate(ss)
    ensures e in Aggregate(ss)[f] <==> HasEvent(ss, f, e)
  {
    if ss != [] {
      var init, s := ss[..|ss| - 1], ss[|ss| - 1];
      assert ss == init + [s];
      assert forall x :: x in ss <==> x in init || x == s;
      if f in Aggregate(init) {
        AggregateEvent(init, f, e);
      } else {
        AggregateFile(init, f);
      }
    }
  }

  /** An event holds a pc exactly when some sample names all three. */
  lemma {:induction false} AggregatePc(ss: seq<Sample>, f: string, e: string, p: int)
    requires f in Aggregate(ss) && e in Aggregate(ss)[f]
    ensures p in Aggregate(ss)[f][e] <==> HasPc(ss, f, e, p)
  {
    if ss != [] {
      var init, s := ss[..|ss| - 1], ss[|ss| - 1];
      assert ss == init + [s];
      assert forall x :: x in ss <==> x in init || x == s;
      if f in Aggregate(init) && e in Aggregate(init)[f] {
        AggregatePc(init, f, e, p);
      } else if f in Aggregate(init) {
        AggregateEvent(init, f, e);
      } else {
        AggregateFile(init, f);
      }
    }
  }

  /** Each count is the summed count of the samples with its file, event and pc. */
  lemma {:induction false} AggregateCount(ss: seq<Sample>, f: string, e: string, p: int)
    requires f in Aggregate(ss) && e in Aggregate(ss)[f] && p in Aggregate(ss)[f][e]
    ensures Aggregate(ss)[f][e][p] == Total(ss, f, e, p)
  {
    var init, s := ss[..|ss| - 1], ss[|ss| - 1];
    var A := Aggregate(init);
    if f in A && e in A[f] && p in A[f][e] {
      AggregateCount(init, f, e, p);
    } else {
      assert s.file == f && s.event == e && s.pc == p;
      if f in A && e in A[f] {
        AggregatePc(init, f, e, p);
      } else if f in A {
        AggregateEvent(init, f, e);
      } else {
        AggregateFile(init, f);
      }
      TotalAbsent(init, f, e, p);
    }
  }

  lemma {:induction false} TotalAbsent(ss: seq<Sample>, file: string, event: string, pc: int)
    requires !HasPc(ss, file, event, pc)
    ensures Total(ss, file, event, pc) == 0
  {
    if ss != [] {
      var init := ss[..|ss| - 1];
      assert forall x :: x in init ==> x in ss;
      TotalAbsent(init, file, event, pc);
    }
  }

  // ---------------------------------------------------------------- line order

  lemma {:induction false} TotalAppend(a: seq<Sample>, b: seq<Sample>, file: string, event: string, pc: int)
    ensures Total(a + b, file, event, pc) == Total(a, file, event, pc) + Total(b, file, event, pc)
    decreases |b|
  {
    if b != [] {
      var init := b[..|b| - 1];
      assert (a + b)[..|a + b| - 1] == a + init;
      assert (a + b)[|a + b| - 1] == b[|b| - 1];
      TotalAppend(a, init, file, event, pc);
    } else {
      assert a + b == a;
    }
  }

  /** The sums depend on the multiset of samples only. */
  lemma {:induction false} TotalPermutation(a: seq<Sample>, b: seq<Sample>, file: string, event: string, pc: int)
    requires multiset(a) == multiset(b)
    ensures Total(a, file, event, pc) == Total(b, file, event, pc)
    decreases |a|
  {
    if a != [] {
      var init, s := a[..|a| - 1], a[|a| - 1];
      var front, back := PickMatch(a, b);
      TotalPermutation(init, front + back, file, event, pc);
      assert a == init + [s];
      TotalAppend(init, [s], file, event, pc);
      TotalAppend(front, [s] + back, file, event, pc);
      TotalAppend([s], back, file, event, pc);
      TotalAppend(front, back, file, event, pc);
    }
  }

  /** Reordering the samples leaves the result unchanged. */
  lemma AggregatePermutation(a: seq<Sample>, b: seq<Sample>)
    requires multiset(a) == multiset(b)
    ensures Aggregate(a) == Aggregate(b)
  {
    var A: PerfMap, B: PerfMap := Aggregate(a), Aggregate(b);
    assert forall x :: x in a <==> x in b by {
      forall x ensures x in a <==> x in b {
        assert x in a <==> x in multiset(a);
        assert x in b <==> x in multiset(b);
      }
    }
    forall f ensures f in A <==> f in B {
      AggregateFile(a, f);
      AggregateFile(b, f);
    }
    forall f | f in A ensures A[f] == B[f] {
      forall e ensures e in A[f] <==> e in B[f] {
        AggregateEvent(a, f, e);
        AggregateEvent(b, f, e);
      }
      forall e | e in A[f] ensures A[f][e] == B[f][e] {
        forall p ensures p in A[f][e] <==> p in B[f][e] {
          AggregatePc(a, f, e, p);
          AggregatePc(b, f, e, p);
        }
        forall p | p in A[f][e] ensures A[f][e][p] == B[f][e][p] {
          AggregateCount(a, f, e, p);
          AggregateCount(b, f, e, p);
          TotalPermutation(a, b, f, e, p);
        }
      }
    }
  }

  /** Reordered outcomes: the same verdict, and the same dict when none is an exception. */
  lemma OutcomePermutation(a: seq<Outcome>, b: seq<Outcome>)
    requires multiset(a) == multiset(b)
    ensures Collect(a).Ok? <==> Collect(b).Ok?
    ensures Collect(a).Ok? ==> Aggregate(Collect(a).value) == Aggregate(Collect(b).value)
  {
    CollectOk(a);
    CollectOk(b);
    assert forall x :: x in a <==> x in b by {
      forall x ensures x in a <==> x in b {
        assert x in a <==> x in multiset(a);
        assert x in b <==> x in multiset(b);
      }
    }
    if Collect(a).Ok? {
      CollectMultiset(a, b);
      AggregatePermutation(Collect(a).value, Collect(b).value);
    }
  }

  /** Reordering the lines changes neither whether some line raises nor, if none does, the result. */
  lemma LinePermutation(a: seq<string>, b: seq<string>)
    requires multiset(a) == multiset(b)
    ensures Samples(a).Ok? <==> Samples(b).Ok?
    ensures Samples(a).Ok? ==> Aggregate(Samples(a).value) == Aggregate(Samples(b).value)
  {
    MapMultiset(a, b, ParseLine);
    OutcomePermutation(Map(a, ParseLine), Map(b, ParseLine));
  }

  // ---------------------------------------------------------------- the loop

  /** The outcome at position `i` extends the prefix read so far. */
  lemma CollectStep(os: seq<Outcome>, i: nat)
    requires i < |os| && Collect(os[..i]).Ok?
    ensures os[i].Err? ==> Collect(os) == Err(os[i].error)
    ensures os[i] == Ok(None) ==> Collect(os[..i + 1]) == Collect(os[..i])
    ensures os[i].Ok? && os[i].value.Some? ==>
              Collect(os[..i + 1]) == Ok(Collect(os[..i]).value + [os[i].value.value])
  {
    assert os[..i + 1][..i] == os[..i];
    if os[i].Err? {
      CollectErrExtends(os, i + 1);
    }
  }

  lemma AggregateSnoc(ss: seq<Sample>, s: Sample)
    ensures Aggregate(ss + [s]) == Add(Aggregate(ss), s)
  {
    assert (ss + [s])[..|ss|] == ss;
  }

  /** One sample into the dict, level by level as the loop body does it. */
  method Accumulate(res: PerfMap, s: Sample) returns (r: PerfMap)
    ensures r == Add(res, s)
  {
    ghost var byEvent := if s.file in res then res[s.file] else map[];
    ghost var byPc := if s.event in byEvent then byEvent[s.event] else map[];
    ghost var count := if s.pc in byPc then byPc[s.pc] else 0;
    r := res;
    if s.file !in r {
      r := r[s.file := map[]];
    } else {
      assert r == r[s.file := r[s.file]];
    }
    assert r == res[s.file := byEvent];
    if s.event !in r[s.file] {
      r := r[s.file := r[s.file][s.event := map[]]];
    } else {
      assert r[s.file] == r[s.file][s.event := r[s.file][s.event]];
    }
    assert r == res[s.file := byEvent[s.event := byPc]];
    assert r[s.file] == byEvent[s.event := byPc] && r[s.file][s.event] == byPc;
    if s.pc !in r[s.file][s.event] {
      r := r[s.file := r[s.file][s.event := r[s.file][s.event][s.pc := 0]]];
      assert byEvent[s.event := byPc][s.event := byPc[s.pc := 0]] == byEvent[s.event := byPc[s.pc := 0]];
    } else {
      assert byPc[s.pc := count] == byPc;
    }
    assert r == res[s.file := byEvent[s.event := byPc[s.pc := count]]];
    assert r[s.file][s.event][s.pc] == count;
    ghost var r0 := r;
    ghost var total := byPc[s.pc := count + s.freq];
    r := r[s.file := r[s.file][s.event := r[s.file][s.event][s.pc := r[s.file][s.event][s.pc] + s.freq]]];
    assert byPc[s.pc := count][s.pc := count + s.freq] == total;
    assert r == r0[s.file := r0[s.file][s.event := total]];
    assert r0[s.file][s.event := total] == byEvent[s.event := total];
    assert r0[s.file := byEvent[s.event := total]] == res[s.file := byEvent[s.event := total]];
  }

  /**
   * `extract_perf_from_file` after `perf script` has run: the nested dict of summed counts,
   * or the exception of the first line that raises.
   */
  method ExtractPerf(lines: seq<string>) returns (r: Result<PerfMap, PerfError>)
    ensures Samples(lines).Err? ==> r == Err(Samples(lines).error)
    ensures Samples(lines).Ok? ==> r == Ok(Aggregate(Samples(lines).value))
  {
    ghost var os := Map(lines, ParseLine);
    var res: PerfMap := map[];
    for i := 0 to |lines|
      invariant Collect(os[..i]).Ok?
      invariant res == Aggregate(Collect(os[..i]).value)
    {
      var parsed := ParseLine(lines[i]);
      assert os[i] == parsed;
      CollectStep(os, i);
      if parsed.Err? {
        return Err(parsed.error);
      }
      if parsed.value.Some? {
        AggregateSnoc(Collect(os[..i]).value, parsed.value.value);
        res := Accumulate(res, parsed.value.value);
      }
    }
    assert os[..|lines|] == os;
    return Ok(res);
  }
}
