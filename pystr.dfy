/**
 * The pieces of Python's `str` behaviour that the parsers of this project rely on:
 * `isspace`, `strip`, `find`, `split(sep)`, `split()`, `sep.join`, `str(int)` and
 * `int(s, base)` for bases 10 and 16; and Python's indexing and slicing of
 * sequences with negative indexes.
 */
module PyStr {
  import opened Wrappers

  /** `c.isspace()`: the characters Python treats as whitespace (also regex `\s`). */
  predicate IsSpace(c: char) {
    c == ' ' || '\t' <= c <= '\r' || '\U{1C}' <= c <= '\U{1F}' || c == '\U{85}' || c == '\U{A0}'
    || c == '\U{1680}' || '\U{2000}' <= c <= '\U{200A}' || c == '\U{2028}' || c == '\U{2029}'
    || c == '\U{202F}' || c == '\U{205F}' || c == '\U{3000}'
  }

  predicate AllSpace(s: string) {
    forall i :: 0 <= i < |s| ==> IsSpace(s[i])
  }

  predicate NoSpace(s: string) {
    forall i :: 0 <= i < |s| ==> !IsSpace(s[i])
  }

  /** `s.lstrip()` */
  function LStrip(s: string): (r: string)
    ensures |r| <= |s|
    ensures r != [] ==> !IsSpace(r[0])
  {
    if s != [] && IsSpace(s[0]) then LStrip(s[1..]) else s
  }

  /** `lstrip` keeps a suffix and removes only whitespace. */
  lemma {:induction false} LStripShape(s: string)
    ensures var r := LStrip(s); r == s[|s| - |r|..] && AllSpace(s[..|s| - |r|])
  {
    if s != [] && IsSpace(s[0]) {
      LStripShape(s[1..]);
      var r := LStrip(s[1..]);
      assert s[..|s| - |r|] == [s[0]] + s[1..][..|s| - 1 - |r|];
    }
  }

  /** `s.rstrip()` */
  function RStrip(s: string): (r: string)
    ensures |r| <= |s|
    ensures r != [] ==> !IsSpace(r[|r| - 1])
  {
    if s != [] && IsSpace(s[|s| - 1]) then RStrip(s[..|s| - 1]) else s
  }

  /** `rstrip` keeps a prefix and removes only whitespace. */
  lemma {:induction false} RStripShape(s: string)
    ensures var r := RStrip(s); r == s[..|r|] && AllSpace(s[|r|..])
  {
    if s != [] && IsSpace(s[|s| - 1]) {
      RStripShape(s[..|s| - 1]);
      var r := RStrip(s[..|s| - 1]);
      assert s[|r|..] == s[..|s| - 1][|r|..] + [s[|s| - 1]];
    }
  }

  /** `s.strip()` */
  function Strip(s: string): (r: string)
    ensures |r| <= |s|
    ensures r != [] ==> !IsSpace(r[0]) && !IsSpace(r[|r| - 1])
  {
    RStripShape(LStrip(s));
    RStrip(LStrip(s))
  }

  /** What `strip` removes is whitespace on both sides of the result. */
  lemma StripShape(s: string)
    ensures var r, k := Strip(s), |s| - |LStrip(s)|;
      k + |r| <= |s| && s[k..k + |r|] == r && AllSpace(s[..k]) && AllSpace(s[k + |r|..])
  {
    LStripShape(s);
    RStripShape(LStrip(s));
    StripParts(s, LStrip(s), Strip(s), |s| - |LStrip(s)|);
  }

  /** A suffix `l` of `s` after whitespace, and a prefix `r` of `l` before whitespace, sit in `s` between the two. */
  lemma StripParts(s: string, l: string, r: string, k: nat)
    requires k <= |s| && l == s[k..] && AllSpace(s[..k]) && |r| <= |l| && r == l[..|r|] && AllSpace(l[|r|..])
    ensures k + |r| <= |s| && s[k..k + |r|] == r && AllSpace(s[..k]) && AllSpace(s[k + |r|..])
  {
    assert s[k + |r|..] == l[|r|..];
  }

  lemma StripNoSpace(s: string)
    requires NoSpace(s)
    ensures Strip(s) == s
  {
    if s != [] {
      assert !IsSpace(s[0]) && !IsSpace(s[|s| - 1]);
    }
  }

  /** `s.find(c)`: the first index of `c`, or -1. */
  function Find(s: string, c: char): (r: int)
    ensures -1 <= r < |s|
    ensures r == -1 <==> c !in s
    ensures r >= 0 ==> s[r] == c && c !in s[..r]
  {
    if s == [] then -1
    else if s[0] == c then 0
    else
      var k := Find(s[1..], c);
      if k < 0 then -1
      else
        assert s[..k + 1] == [s[0]] + s[1..][..k];
        k + 1
  }

  /** `sep.join(xs)` */
  function Join(xs: seq<string>, sep: char): string {
    if xs == [] then ""
    else if |xs| == 1 then xs[0]
    else xs[0] + [sep] + Join(xs[1..], sep)
  }

  /** A join of two fields or more: the first two, then the join of the rest after one more separator. */
  lemma JoinTwo(xs: seq<string>, sep: char)
    requires |xs| >= 2
    ensures Join(xs, sep) == xs[0] + [sep] + xs[1] + (if |xs| > 2 then [sep] + Join(xs[2..], sep) else [])
  {
    JoinCons(xs, sep);
    if |xs| > 2 {
      JoinCons(xs[1..], sep);
      assert xs[1..][1..] == xs[2..];
    } else {
      assert xs[1..] == [xs[1]];
    }
  }

  /** The first field of `s.split(sep)` is the text before the first `sep`. */
  lemma SplitFirst(a: string, sep: char, b: string)
    requires sep !in a
    ensures Split(a + [sep] + b, sep)[0] == a
  {
    var s := a + [sep] + b;
    assert s[|a|] == sep;
    assert s[..|a|] == a;
    assert Find(s, sep) == |a|;
  }

  /** A text without `sep` is its own only field. */
  lemma SplitNone(a: string, sep: char)
    requires sep !in a
    ensures Split(a, sep) == [a]
  {
  }

  /** `s.split(sep)` with a one-character separator: at least one field, no field holds `sep`. */
  function Split(s: string, sep: char): (r: seq<string>)
    ensures |r| >= 1
    ensures forall i :: 0 <= i < |r| ==> sep !in r[i]
    ensures Join(r, sep) == s
    decreases |s|
  {
    var k := Find(s, sep);
    if k < 0 then [s]
    else
      var rest := Split(s[k + 1..], sep);
      assert s == s[..k] + [sep] + s[k + 1..];
      [s[..k]] + rest
  }

  /** Splitting the join of fields that avoid the separator gives the fields back. */
  lemma {:induction false} SplitJoin(xs: seq<string>, sep: char)
    requires |xs| >= 1
    requires forall i :: 0 <= i < |xs| ==> sep !in xs[i]
    ensures Split(Join(xs, sep), sep) == xs
  {
    if |xs| == 1 {
      assert Find(xs[0], sep) == -1;
    } else {
      var s := Join(xs, sep);
      var tail := Join(xs[1..], sep);
      assert s == xs[0] + [sep] + tail;
      assert s[..|xs[0]|] == xs[0];
      assert s[|xs[0]|] == sep;
      assert Find(s, sep) == |xs[0]|;
      assert s[|xs[0]| + 1..] == tail;
      SplitJoin(xs[1..], sep);
    }
  }

  /** The index of the first whitespace character of `s`, or `|s|`. */
  function FirstSpace(s: string): (k: nat)
    ensures k <= |s| && NoSpace(s[..k])
    ensures k < |s| ==> IsSpace(s[k])
  {
    if s == [] || IsSpace(s[0]) then 0
    else
      var k := FirstSpace(s[1..]);
      assert s[..k + 1] == [s[0]] + s[1..][..k];
      k + 1
  }

  /** `s.split()`: the maximal runs of non-whitespace characters, in order. */
  function SplitWhitespace(s: string): (r: seq<string>)
    ensures forall i :: 0 <= i < |r| ==> r[i] != [] && NoSpace(r[i])
    decreases |s|
  {
    var t := LStrip(s);
    if t == [] then []
    else
      var k := FirstSpace(t);
      [t[..k]] + SplitWhitespace(t[k..])
  }

  /** `" ".join(xs)` */
  function JoinSpaced(xs: seq<string>): string {
    Join(xs, ' ')
  }

  /** `s.split()` gives back non-empty whitespace-free fields joined by single spaces. */
  lemma {:induction false} SplitWhitespaceJoin(xs: seq<string>)
    requires forall i :: 0 <= i < |xs| ==> xs[i] != [] && NoSpace(xs[i])
    ensures SplitWhitespace(JoinSpaced(xs)) == xs
  {
    if xs == [] {
      assert SplitWhitespace("") == [];
    } else if |xs| == 1 {
      SplitWhitespaceOne(xs[0]);
    } else {
      SplitWhitespaceJoin(xs[1..]);
      SplitWhitespaceJoinStep(xs);
    }
  }

  lemma SplitWhitespaceJoinStep(xs: seq<string>)
    requires |xs| >= 2 && xs[0] != [] && NoSpace(xs[0]) && xs[1] != []
    requires SplitWhitespace(JoinSpaced(xs[1..])) == xs[1..]
    ensures SplitWhitespace(JoinSpaced(xs)) == xs
  {
    var tail := JoinSpaced(xs[1..]);
    JoinSpacedStart(xs[1..]);
    calc {
      SplitWhitespace(JoinSpaced(xs));
    == { JoinCons(xs, ' '); }
      SplitWhitespace(xs[0] + ([' '] + tail));
    == { SplitWhitespaceField(xs[0], [' '] + tail); }
      [xs[0]] + SplitWhitespace([' '] + tail);
    == { SplitWhitespaceSpace(tail); }
      [xs[0]] + xs[1..];
    }
    assert [xs[0]] + xs[1..] == xs;
  }

  lemma SplitWhitespaceOne(w: string)
    requires w != [] && NoSpace(w)
    ensures SplitWhitespace(w) == [w]
  {
    SplitWhitespaceField(w, "");
    assert w + "" == w;
    assert SplitWhitespace("") == [];
  }

  lemma JoinCons(xs: seq<string>, sep: char)
    requires |xs| >= 2
    ensures Join(xs, sep) == xs[0] + ([sep] + Join(xs[1..], sep))
  {
    var t := Join(xs[1..], sep);
    assert Join(xs, sep) == xs[0] + [sep] + t;
    assert xs[0] + [sep] + t == xs[0] + ([sep] + t);
  }

  lemma JoinSpacedStart(xs: seq<string>)
    requires xs != [] && xs[0] != []
    ensures JoinSpaced(xs) != [] && JoinSpaced(xs)[0] == xs[0][0]
  {
  }

  /** A leading field is split off whole. */
  lemma SplitWhitespaceField(w: string, rest: string)
    requires w != [] && NoSpace(w)
    requires rest == [] || IsSpace(rest[0])
    ensures SplitWhitespace(w + rest) == [w] + SplitWhitespace(rest)
  {
    var s := w + rest;
    LStripNonSpace(s);
    FirstSpaceOf(w, rest);
    assert s[|w|..] == rest;
  }

  /** A leading space changes nothing. */
  lemma SplitWhitespaceSpace(t: string)
    requires t != [] && !IsSpace(t[0])
    ensures SplitWhitespace([' '] + t) == SplitWhitespace(t)
  {
    assert ([' '] + t)[1..] == t;
    LStripNonSpace(t);
  }

  lemma LStripNonSpace(s: string)
    requires s != [] && !IsSpace(s[0])
    ensures LStrip(s) == s
  {
  }

  lemma FirstSpaceOf(w: string, rest: string)
    requires w != [] && NoSpace(w)
    requires rest == [] || IsSpace(rest[0])
    ensures FirstSpace(w + rest) == |w| && (w + rest)[..|w|] == w
  {
    var s := w + rest;
    assert s[0] == w[0] && !IsSpace(s[0]);
    if |w| > 1 {
      assert s[1..] == w[1..] + rest;
      FirstSpaceOf(w[1..], rest);
    } else {
      assert s[1..] == rest;
    }
    assert s[..|w|] == w;
  }

  // ---------------------------------------------------------------- integers

  /** `str(d)` for one decimal digit */
  function DigitChar(d: nat): (c: char)
    requires d < 10
    ensures '0' <= c <= '9' && c as int - '0' as int == d
  {
    (d + '0' as int) as char
  }

  /** `str(n)` for a non-negative integer: decimal, no leading zeros. */
  function NatToStr(n: nat): (r: string)
    ensures r != []
    ensures forall i :: 0 <= i < |r| ==> '0' <= r[i] <= '9'
    ensures |r| > 1 ==> r[0] != '0'
  {
    if n < 10 then [DigitChar(n)]
    else NatToStr(n / 10) + [DigitChar(n % 10)]
  }

  /** `str(n)` */
  function IntToStr(n: int): string {
    if n < 0 then "-" + NatToStr(-n) else NatToStr(n)
  }

  /** The value of a digit in bases up to 16, or -1 when `c` is no hex digit. */
  function DigitValue(c: char): int {
    if '0' <= c <= '9' then c as int - '0' as int
    else if 'a' <= c <= 'f' then c as int - 'a' as int + 10
    else if 'A' <= c <= 'F' then c as int - 'A' as int + 10
    else -1
  }

  predicate IsDigit(c: char, base: nat) {
    0 <= DigitValue(c) < base
  }

  predicate AllDigits(s: string, base: nat) {
    forall i :: 0 <= i < |s| ==> IsDigit(s[i], base)
  }

  /** The value of a digit string, most significant digit first. */
  function DigitsValue(ds: string, base: nat): nat
    requires AllDigits(ds, base)
  {
    if ds == [] then 0
    else DigitsValue(ds[..|ds| - 1], base) * base + DigitValue(ds[|ds| - 1])
  }

  /**
   * Digits in the given base separated by single underscores, the body
   * that Python's `int(s, base)` accepts after the sign and prefix.
   */
  predicate WellFormedDigits(s: string, base: nat) {
    && s != []
    && s[0] != '_' && s[|s| - 1] != '_'
    && (forall i :: 0 <= i < |s| ==> s[i] == '_' || IsDigit(s[i], base))
    && (forall i :: 0 <= i < |s| - 1 ==> !(s[i] == '_' && s[i + 1] == '_'))
  }

  function RemoveUnderscores(s: string): (r: string)
    ensures forall i :: 0 <= i < |r| ==> r[i] != '_'
    ensures (forall i :: 0 <= i < |s| ==> s[i] != '_') ==> r == s
  {
    if s == [] then []
    else (if s[0] == '_' then [] else [s[0]]) + RemoveUnderscores(s[1..])
  }

  lemma RemoveUnderscoresDigits(s: string, base: nat)
    requires forall i :: 0 <= i < |s| ==> s[i] == '_' || IsDigit(s[i], base)
    ensures AllDigits(RemoveUnderscores(s), base)
  {
    if s != [] {
      RemoveUnderscoresDigits(s[1..], base);
    }
  }

  /** Splits an optional `+`/`-` off a stripped literal: (negative, rest). */
  function SignOf(t: string): (bool, string) {
    if t != [] && (t[0] == '-' || t[0] == '+') then (t[0] == '-', t[1..]) else (false, t)
  }

  /** Drops a `0x`/`0X` prefix (and one underscore after it) in base 16. */
  function DropPrefix(body: string, base: nat): string {
    if base == 16 && |body| >= 2 && body[0] == '0' && (body[1] == 'x' || body[1] == 'X') then
      var rest := body[2..];
      if rest != [] && rest[0] == '_' then rest[1..] else rest
    else body
  }

  /** The magnitude of a digit body, or `None` when it is malformed. */
  function ParseDigits(digits: string, base: nat): Option<nat> {
    if WellFormedDigits(digits, base) then
      RemoveUnderscoresDigits(digits, base);
      Some(DigitsValue(RemoveUnderscores(digits), base))
    else None
  }

  /**
   * `int(s, base)` for base 10 or 16: `None` where Python raises `ValueError`.
   * Surrounding whitespace, a sign, a `0x` prefix (base 16) and single
   * underscores between digits are accepted, as in Python.
   */
  function ParseInt(s: string, base: nat): Option<int>
    requires base == 10 || base == 16
  {
    var (negative, body) := SignOf(Strip(s));
    match ParseDigits(DropPrefix(body, base), base)
    case None => None
    case Some(m) => Some(if negative then -(m as int) else m as int)
  }

  lemma {:induction false} NatToStrValue(n: nat)
    ensures AllDigits(NatToStr(n), 10) && DigitsValue(NatToStr(n), 10) == n
  {
    if n >= 10 {
      NatToStrValue(n / 10);
      var s := NatToStr(n);
      assert s[..|s| - 1] == NatToStr(n / 10);
    }
  }

  lemma ParseDigitsNatToStr(n: nat)
    ensures ParseDigits(NatToStr(n), 10) == Some(n)
  {
    var s := NatToStr(n);
    NatToStrValue(n);
    assert forall i :: 0 <= i < |s| ==> s[i] != '_';
    assert WellFormedDigits(s, 10);
  }

  /** Round trip: `int(str(n)) == n`. */
  lemma ParseIntToStr(n: int)
    ensures ParseInt(IntToStr(n), 10) == Some(n)
  {
    var m := if n < 0 then -n else n;
    ParseDigitsNatToStr(m);
    assert DropPrefix(NatToStr(m), 10) == NatToStr(m);
    IntToStrParts(n);
  }

  /** `str(n)` is one non-empty field of no whitespace. */
  lemma IntToStrPlain(n: int)
    ensures IntToStr(n) != [] && NoSpace(IntToStr(n))
  {
    var digits := NatToStr(if n < 0 then -n else n);
    forall i | 0 <= i < |digits| ensures !IsSpace(digits[i]) {
      assert '0' <= digits[i] <= '9';
    }
    if n < 0 {
      var s := IntToStr(n);
      forall i | 0 <= i < |s| ensures !IsSpace(s[i]) {
        if i > 0 { assert s[i] == digits[i - 1]; }
      }
    }
  }

  lemma IntToStrParts(n: int)
    ensures Strip(IntToStr(n)) == IntToStr(n)
    ensures SignOf(IntToStr(n)) == (n < 0, NatToStr(if n < 0 then -n else n))
  {
    var m := if n < 0 then -n else n;
    var digits := NatToStr(m);
    var s := IntToStr(n);
    assert NoSpace(digits) by {
      forall i | 0 <= i < |digits| ensures !IsSpace(digits[i]) {
        assert '0' <= digits[i] <= '9';
      }
    }
    if n < 0 {
      assert s == ['-'] + digits;
      assert NoSpace(s) by {
        forall i | 0 <= i < |s| ensures !IsSpace(s[i]) {
          if i > 0 { assert s[i] == digits[i - 1]; }
        }
      }
      assert s[1..] == digits;
    }
    StripNoSpace(s);
  }

  // ---------------------------------------------------------------- indexing

  /** `xs[i]`: a negative `i` counts from the end; `None` where Python raises `IndexError`. */
  function PyIndex<T>(xs: seq<T>, i: int): (r: Option<T>)
    ensures r.Some? <==> -|xs| <= i < |xs|
    ensures r.Some? ==> r.value in xs
  {
    if 0 <= i < |xs| then Some(xs[i])
    else if -|xs| <= i < 0 then Some(xs[|xs| + i])
    else None
  }

  /** `s[:-1]`: all but the last element (nothing left of a one-element or empty `s`). */
  function DropLast<T>(s: seq<T>): (r: seq<T>)
    ensures |r| == if |s| > 0 then |s| - 1 else 0
    ensures r == s[..|r|]
  {
    if |s| > 0 then s[..|s| - 1] else []
  }

  /** `s[1:-1]`: without its first and last element (empty when `s` is shorter than 2). */
  /** `s[:-1]` of a non-empty sequence, with the last element put back, is `s`. */
  lemma DropLastLast<T>(s: seq<T>)
    ensures s != [] ==> s == DropLast(s) + [s[|s| - 1]]
  {
    if s != [] {
      assert s == s[..|s| - 1] + [s[|s| - 1]];
    }
  }

  function Inner<T>(s: seq<T>): (r: seq<T>)
    ensures |s| >= 2 ==> |r| == |s| - 2 && s == [s[0]] + r + [s[|s| - 1]]
    ensures |s| < 2 ==> r == []
  {
    if |s| >= 2 then s[1..|s| - 1] else []
  }
}
