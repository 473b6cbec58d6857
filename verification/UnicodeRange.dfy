/** Font subsets: the partition of a font's code points into three groups, the run-length
    printer for CSS `unicode-range`, and a parser for what it prints. */
module UnicodeRange {
  import opened Wrappers
  import opened Pigeonhole

  type CodePoint = nat

  const MAX_CODE_POINT: nat := 0x10FFFF

  // ---------- The three groups ----------

  predicate Latin(cp: CodePoint) {
    cp <= 0x24F || 0x1E00 <= cp <= 0x1EFF || 0x2000 <= cp <= 0x206F || 0x20A0 <= cp <= 0x20CF
    || 0x2100 <= cp <= 0x214F || cp == 0xFEFF || cp == 0xFFFD
  }

  predicate Europe(cp: CodePoint) {
    0x370 <= cp <= 0x52F || 0x1F00 <= cp <= 0x1FFF || 0x2DE0 <= cp <= 0x2DFF || 0xA640 <= cp <= 0xA69F
  }

  datatype Groups = Groups(latin: set<CodePoint>, europe: set<CodePoint>, other: set<CodePoint>)

  function Partitions(cps: set<CodePoint>): Groups {
    Groups(set cp | cp in cps && Latin(cp),
           set cp | cp in cps && !Latin(cp) && Europe(cp),
           set cp | cp in cps && !Latin(cp) && !Europe(cp))
  }

  // ---------- Runs of consecutive code points ----------

  datatype Run = Run(lo: CodePoint, hi: CodePoint)

  predicate InRun(cp: CodePoint, r: Run) {
    r.lo <= cp <= r.hi
  }

  ghost predicate CoveredBy(cp: CodePoint, runs: seq<Run>) {
    exists i :: 0 <= i < |runs| && InRun(cp, runs[i])
  }

  /** The runs are non-empty, ascending, and no two touch. */
  ghost predicate Separated(runs: seq<Run>) {
    && (forall i :: 0 <= i < |runs| ==> runs[i].lo <= runs[i].hi)
    && (forall i, j :: 0 <= i < j < |runs| ==> runs[i].hi + 1 < runs[j].lo)
  }

  ghost predicate Ascending(s: seq<CodePoint>) {
    forall i, j :: 0 <= i < j < |s| ==> s[i] < s[j]
  }

  predicate IsLeast(m: CodePoint, s: set<CodePoint>) {
    m in s && forall x :: x in s ==> m <= x
  }

  lemma {:induction false} LeastExists(s: set<CodePoint>)
    requires s != {}
    ensures exists m :: IsLeast(m, s)
  {
    var x :| x in s;
    if s == {x} {
      assert IsLeast(x, s);
    } else {
      LeastExists(s - {x});
      var y :| IsLeast(y, s - {x});
      var m := if x <= y then x else y;
      forall z | z in s ensures m <= z {
        assert z == x || z in s - {x};
      }
      assert IsLeast(m, s);
    }
  }

  function Least(s: set<CodePoint>): (m: CodePoint)
    requires s != {}
    ensures IsLeast(m, s)
  {
    LeastExists(s);
    var m :| IsLeast(m, s);
    m
  }

  /** The members of a set in ascending order. */
  function Sorted(s: set<CodePoint>): (q: seq<CodePoint>)
    ensures Ascending(q)
    ensures forall x :: x in q <==> x in s
  {
    if s == {} then []
    else
      var m := Least(s);
      var rest := Sorted(s - {m});
      assert forall i :: 0 <= i < |rest| ==> rest[i] in rest;
      [m] + rest
  }

  /** One more code point either extends the last run or starts a new one. */
  function Extend(runs: seq<Run>, cp: CodePoint): seq<Run> {
    if runs != [] && runs[|runs| - 1].hi + 1 == cp
    then runs[..|runs| - 1] + [Run(runs[|runs| - 1].lo, cp)]
    else runs + [Run(cp, cp)]
  }

  /** The maximal runs of an ascending list. */
  function Runs(s: seq<CodePoint>): seq<Run> {
    if s == [] then [] else Extend(Runs(s[..|s| - 1]), s[|s| - 1])
  }

  ghost predicate EndsBefore(runs: seq<Run>, cp: CodePoint) {
    runs != [] ==> runs[|runs| - 1].hi < cp
  }

  lemma ExtendSeparated(runs: seq<Run>, cp: CodePoint)
    requires Separated(runs) && EndsBefore(runs, cp)
    ensures Separated(Extend(runs, cp))
    ensures Extend(runs, cp) != [] && Extend(runs, cp)[|Extend(runs, cp)| - 1].hi == cp
  {
    var after := Extend(runs, cp);
    forall i, j | 0 <= i < j < |after| ensures after[i].hi + 1 < after[j].lo {
      assert after[i] == runs[i];
      assert i < |runs| - 1 ==> runs[i].hi + 1 < runs[|runs| - 1].lo;
    }
  }

  lemma ExtendCovers(runs: seq<Run>, cp: CodePoint, x: CodePoint)
    requires Separated(runs) && EndsBefore(runs, cp)
    ensures CoveredBy(x, Extend(runs, cp)) <==> x == cp || CoveredBy(x, runs)
  {
    var after := Extend(runs, cp);
    if i :| 0 <= i < |runs| && InRun(x, runs[i]) {
      assert InRun(x, after[i]);
    }
    assert InRun(cp, after[|after| - 1]);
    if i :| 0 <= i < |after| && InRun(x, after[i]) {
      assert x != cp && i < |runs| ==> InRun(x, runs[i]);
    }
  }

  lemma {:induction false} RunsAreMaximal(s: seq<CodePoint>)
    requires Ascending(s)
    ensures Separated(Runs(s))
    ensures s != [] ==> Runs(s) != [] && Runs(s)[|Runs(s)| - 1].hi == s[|s| - 1]
    ensures forall cp :: CoveredBy(cp, Runs(s)) <==> cp in s
  {
    hide Extend;
    if s != [] {
      var before, cp := s[..|s| - 1], s[|s| - 1];
      RunsAreMaximal(before);
      assert EndsBefore(Runs(before), cp) by {
        assert before != [] ==> before[|before| - 1] == s[|s| - 2];
      }
      ExtendSeparated(Runs(before), cp);
      forall x ensures CoveredBy(x, Runs(s)) <==> x in s {
        ExtendCovers(Runs(before), cp, x);
        assert s == before + [cp];
      }
    }
  }

  /** No list of ranges covering the same code points is shorter. */
  lemma FewestRanges(runs: seq<Run>, others: seq<Run>)
    requires Separated(runs)
    requires forall cp :: CoveredBy(cp, others) <==> CoveredBy(cp, runs)
    ensures |runs| <= |others|
  {
    var chosen := ChooseRanges(runs, others, |runs|);
    NoRepeatsFits(chosen, Positions(|others|));
  }

  /** Distinct runs start in distinct ranges, or a range would span the gap between them. */
  lemma {:induction false} ChooseRanges(runs: seq<Run>, others: seq<Run>, n: nat) returns (chosen: seq<int>)
    requires Separated(runs) && n <= |runs|
    requires forall cp :: CoveredBy(cp, others) <==> CoveredBy(cp, runs)
    ensures |chosen| == n && NoRepeats(chosen)
    ensures forall x :: x in chosen ==> x in Positions(|others|)
    ensures forall i :: 0 <= i < n ==> 0 <= chosen[i] < |others| && InRun(runs[i].lo, others[chosen[i]])
  {
    if n == 0 {
      chosen := [];
    } else {
      var before := ChooseRanges(runs, others, n - 1);
      assert InRun(runs[n - 1].lo, runs[n - 1]);
      assert CoveredBy(runs[n - 1].lo, others);
      var c :| 0 <= c < |others| && InRun(runs[n - 1].lo, others[c]);
      forall i | 0 <= i < n - 1 ensures before[i] != c {
        if before[i] == c {
          RangeSpansGap(runs, others, i, n - 1, c);
          GapIsUncovered(runs, i, n - 1);
        }
      }
      chosen := before + [c];
    }
  }

  lemma RangeSpansGap(runs: seq<Run>, others: seq<Run>, i: int, j: int, c: int)
    requires Separated(runs) && 0 <= i < j < |runs| && 0 <= c < |others|
    requires InRun(runs[i].lo, others[c]) && InRun(runs[j].lo, others[c])
    ensures CoveredBy(runs[i].hi + 1, others)
  {
    assert InRun(runs[i].hi + 1, others[c]);
  }

  lemma GapIsUncovered(runs: seq<Run>, i: int, j: int)
    requires Separated(runs) && 0 <= i < j < |runs|
    ensures !CoveredBy(runs[i].hi + 1, runs)
  {
    forall k | 0 <= k < |runs| ensures !InRun(runs[i].hi + 1, runs[k]) {
      if k < i {
        assert runs[k].hi + 1 < runs[i].lo;
      } else if k > i {
        assert runs[i].hi + 1 < runs[k].lo;
      }
    }
  }

  // ---------- Printing ----------

  function HexDigit(d: nat): char
    requires d < 16
  {
    if d < 10 then '0' + d as char else 'A' + (d - 10) as char
  }

  /** A code point in upper-case hexadecimal, without padding. */
  function Hex(n: nat): string {
    if n < 16 then [HexDigit(n)] else Hex(n / 16) + [HexDigit(n % 16)]
  }

  function RenderRun(r: Run): string {
    "U+" + Hex(r.lo) + (if r.lo != r.hi then "-" + Hex(r.hi) else "")
  }

  /** The printed ranges, separated by commas. */
  function Join(parts: seq<string>): string {
    if parts == [] then ""
    else if |parts| == 1 then parts[0]
    else parts[0] + "," + Join(parts[1..])
  }

  function RenderAll(runs: seq<Run>): seq<string> {
    seq(|runs|, i requires 0 <= i < |runs| => RenderRun(runs[i]))
  }

  function Render(runs: seq<Run>): string {
    Join(RenderAll(runs))
  }

  lemma RunsOfPrefix(cps: seq<CodePoint>, k: nat)
    requires k < |cps|
    ensures Runs(cps[..k + 1]) == Extend(Runs(cps[..k]), cps[k])
  {
    assert cps[..k + 1][..k] == cps[..k];
  }

  lemma ExtendLast(closed: seq<Run>, last: Run, cp: CodePoint)
    ensures Extend(closed + [last], cp) ==
              if last.hi + 1 == cp then closed + [Run(last.lo, cp)] else closed + [last] + [Run(cp, cp)]
  {
    assert (closed + [last])[..|closed|] == closed;
  }

  lemma RenderAllAppend(closed: seq<Run>, last: Run)
    ensures RenderAll(closed + [last]) == RenderAll(closed) + [RenderRun(last)]
  {
  }

  /** Walks the sorted code points, closing a run whenever the next one does not extend it; the
      caller skips empty groups. */
  method PrintRanges(values: set<CodePoint>) returns (text: string)
    requires values != {}
    ensures text == Render(Runs(Sorted(values)))
  {
    var cps := Sorted(values);
    var x :| x in values;
    assert x in cps;
    var start, last := cps[0], cps[0];
    var ranges: seq<string> := [];
    ghost var closed: seq<Run> := [];
    RunsOfPrefix(cps, 0);
    for k := 1 to |cps|
      invariant Runs(cps[..k]) == closed + [Run(start, last)]
      invariant ranges == RenderAll(closed)
    {
      var cp := cps[k];
      RunsOfPrefix(cps, k);
      ExtendLast(closed, Run(start, last), cp);
      if cp == last + 1 {
        last := cp;
      } else {
        RenderAllAppend(closed, Run(start, last));
        ranges := ranges + [RenderRun(Run(start, last))];
        closed := closed + [Run(start, last)];
        start, last := cp, cp;
      }
    }
    RenderAllAppend(closed, Run(start, last));
    ranges := ranges + [RenderRun(Run(start, last))];
    assert cps[..|cps|] == cps;
    text := Join(ranges);
  }

  // ---------- Parsing (CSS Fonts Module Level 3, section 4.5) ----------

  function DigitValue(c: char): Option<nat> {
    if '0' <= c <= '9' then Some((c - '0') as nat)
    else if 'A' <= c <= 'F' then Some((c - 'A') as nat + 10)
    else if 'a' <= c <= 'f' then Some((c - 'a') as nat + 10)
    else None
  }

  function HexValue(s: string): Option<nat> {
    if s == "" then Some(0)
    else
      match (HexValue(s[..|s| - 1]), DigitValue(s[|s| - 1]))
      case (Some(high), Some(low)) => Some(16 * high + low)
      case _ => None
  }

  /** One to six hexadecimal digits naming a code point. */
  function ParseCodePoint(s: string): Option<CodePoint> {
    if !(1 <= |s| <= 6) then None
    else
      match HexValue(s)
      case Some(n) => if n <= MAX_CODE_POINT then Some(n) else None
      case None => None
  }

  /** The position of the first `c`, or the length if there is none. */
  function Find(s: string, c: char): (i: nat)
    ensures i <= |s|
    ensures forall k :: 0 <= k < i ==> s[k] != c
    ensures i < |s| ==> s[i] == c
  {
    if s == "" || s[0] == c then 0 else 1 + Find(s[1..], c)
  }

  /** `U+` and a code point, or two ascending ones with a hyphen between. */
  function ParseRun(s: string): Option<Run> {
    if !(|s| >= 2 && (s[0] == 'U' || s[0] == 'u') && s[1] == '+') then None
    else
      var body := s[2..];
      var dash := Find(body, '-');
      if dash == |body| then
        match ParseCodePoint(body)
        case Some(cp) => Some(Run(cp, cp))
        case None => None
      else
        match (ParseCodePoint(body[..dash]), ParseCodePoint(body[dash + 1..]))
        case (Some(lo), Some(hi)) => if lo <= hi then Some(Run(lo, hi)) else None
        case _ => None
  }

  /** A comma-separated list of ranges; one bad range makes the whole descriptor invalid. */
  function Parse(s: string): Option<seq<Run>>
    decreases |s|
  {
    var comma := Find(s, ',');
    match ParseRun(s[..comma])
    case None => None
    case Some(r) =>
      if comma == |s| then Some([r])
      else
        match Parse(s[comma + 1..])
        case None => None
        case Some(rest) => Some([r] + rest)
  }

  // ---------- Printing and parsing ----------

  lemma DigitRoundTrip(d: nat)
    requires d < 16
    ensures DigitValue(HexDigit(d)) == Some(d)
    ensures HexDigit(d) != ',' && HexDigit(d) != '-'
  {
  }

  lemma {:induction false} HexRoundTrip(n: nat)
    ensures HexValue(Hex(n)) == Some(n)
    ensures |Hex(n)| >= 1
    ensures forall i :: 0 <= i < |Hex(n)| ==> Hex(n)[i] != ',' && Hex(n)[i] != '-'
  {
    DigitRoundTrip(n % 16);
    if n < 16 {
      assert Hex(n)[..0] == "";
    } else {
      HexRoundTrip(n / 16);
      assert Hex(n)[..|Hex(n)| - 1] == Hex(n / 16);
    }
  }

  function Power16(k: nat): nat {
    if k == 0 then 1 else 16 * Power16(k - 1)
  }

  lemma {:induction false} HexLength(n: nat, k: nat)
    requires k >= 1 && n < Power16(k)
    ensures |Hex(n)| <= k
  {
    if n >= 16 {
      HexLength(n / 16, k - 1);
    }
  }

  lemma CodePointRoundTrip(cp: CodePoint)
    requires cp <= MAX_CODE_POINT
    ensures ParseCodePoint(Hex(cp)) == Some(cp)
  {
    HexRoundTrip(cp);
    assert Power16(2) == 256 && Power16(4) == 65536;
    assert Power16(6) == 16777216;
    HexLength(cp, 6);
  }

  lemma FindIn(a: string, c: char, b: string)
    requires forall i :: 0 <= i < |a| ==> a[i] != c
    ensures Find(a + [c] + b, c) == |a|
  {
    var s := a + [c] + b;
    assert s[|a|] == c;
    var i := Find(s, c);
    assert forall k :: 0 <= k < |a| ==> s[k] == a[k];
  }

  lemma FindNone(a: string, c: char)
    requires forall i :: 0 <= i < |a| ==> a[i] != c
    ensures Find(a, c) == |a|
  {
  }

  ghost predicate Printable(r: Run) {
    r.lo <= r.hi <= MAX_CODE_POINT
  }

  lemma NoCommaInRun(r: Run)
    ensures forall i :: 0 <= i < |RenderRun(r)| ==> RenderRun(r)[i] != ','
  {
    HexRoundTrip(r.lo);
    HexRoundTrip(r.hi);
  }

  lemma SingleRoundTrip(cp: CodePoint)
    requires cp <= MAX_CODE_POINT
    ensures ParseRun("U+" + Hex(cp)) == Some(Run(cp, cp))
  {
    HexRoundTrip(cp);
    CodePointRoundTrip(cp);
    FindNone(Hex(cp), '-');
    assert ("U+" + Hex(cp))[2..] == Hex(cp);
  }

  lemma PairRoundTrip(lo: CodePoint, hi: CodePoint)
    requires lo <= hi <= MAX_CODE_POINT
    ensures ParseRun("U+" + (Hex(lo) + ['-'] + Hex(hi))) == Some(Run(lo, hi))
  {
    HexRoundTrip(lo);
    CodePointRoundTrip(lo);
    CodePointRoundTrip(hi);
    var body := Hex(lo) + ['-'] + Hex(hi);
    FindIn(Hex(lo), '-', Hex(hi));
    assert ("U+" + body)[2..] == body;
    assert body[..|Hex(lo)|] == Hex(lo);
    assert body[|Hex(lo)| + 1..] == Hex(hi);
  }

  lemma RunRoundTrip(r: Run)
    requires Printable(r)
    ensures ParseRun(RenderRun(r)) == Some(r)
  {
    if r.lo == r.hi {
      assert RenderRun(r) == "U+" + Hex(r.lo);
      SingleRoundTrip(r.lo);
    } else {
      assert RenderRun(r) == "U+" + (Hex(r.lo) + ['-'] + Hex(r.hi));
      PairRoundTrip(r.lo, r.hi);
    }
  }

  ghost predicate NoComma(s: string) {
    forall i :: 0 <= i < |s| ==> s[i] != ','
  }

  lemma ParseLast(first: string, r: Run)
    requires NoComma(first) && ParseRun(first) == Some(r)
    ensures Parse(first) == Some([r])
  {
    FindNone(first, ',');
    assert first[..|first|] == first;
  }

  lemma ParseCons(first: string, r: Run, rest: string, runs: seq<Run>)
    requires NoComma(first) && ParseRun(first) == Some(r) && Parse(rest) == Some(runs)
    ensures Parse(first + [','] + rest) == Some([r] + runs)
  {
    var text := first + [','] + rest;
    FindIn(first, ',', rest);
    assert text[..|first|] == first;
    assert text[|first| + 1..] == rest;
  }

  lemma RenderCons(runs: seq<Run>)
    requires |runs| > 1
    ensures Render(runs) == RenderRun(runs[0]) + [','] + Render(runs[1..])
  {
    assert RenderAll(runs)[1..] == RenderAll(runs[1..]);
  }

  /** Parsing what was printed gives back the same ranges. */
  lemma {:induction false} RenderRoundTrip(runs: seq<Run>)
    requires runs != [] && forall i :: 0 <= i < |runs| ==> Printable(runs[i])
    ensures Parse(Render(runs)) == Some(runs)
  {
    hide Printable, Parse;
    RunRoundTrip(runs[0]);
    NoCommaInRun(runs[0]);
    if |runs| == 1 {
      ParseLast(RenderRun(runs[0]), runs[0]);
      assert runs == [runs[0]];
    } else {
      RenderRoundTrip(runs[1..]);
      RenderCons(runs);
      ParseCons(RenderRun(runs[0]), runs[0], Render(runs[1..]), runs[1..]);
      assert runs == [runs[0]] + runs[1..];
    }
  }

  // ---------- What is printed for a set, and for a font's three groups ----------

  /** Read back, the text printed for a set is that set, in separated ascending ranges, and in as
      few ranges as any other way of writing it. */
  lemma PrintedRangesAreTheSet(values: set<CodePoint>, others: seq<Run>)
    requires values != {} && forall cp :: cp in values ==> cp <= MAX_CODE_POINT
    ensures var parsed := Parse(Render(Runs(Sorted(values))));
            && parsed.Some? && Separated(parsed.value)
            && (forall cp :: CoveredBy(cp, parsed.value) <==> cp in values)
            && ((forall cp :: CoveredBy(cp, others) <==> cp in values) ==> |parsed.value| <= |others|)
  {
    var sorted := Sorted(values);
    var runs := Runs(sorted);
    RunsAreMaximal(sorted);
    assert sorted != [] by {
      var x :| x in values;
      assert x in sorted;
    }
    forall i | 0 <= i < |runs| ensures Printable(runs[i]) {
      assert InRun(runs[i].hi, runs[i]);
      assert CoveredBy(runs[i].hi, runs);
      assert runs[i].hi in sorted;
    }
    RenderRoundTrip(runs);
    if forall cp :: CoveredBy(cp, others) <==> cp in values {
      FewestRanges(runs, others);
    }
  }

  ghost function Group(cps: set<CodePoint>, k: nat): set<CodePoint>
    requires k < 3
  {
    var g := Partitions(cps);
    if k == 0 then g.latin else if k == 1 then g.europe else g.other
  }

  /** The code points a browser assigns to the k-th subset of a font; nothing for an empty group. */
  ghost predicate Declared(cps: set<CodePoint>, k: nat, cp: CodePoint)
    requires k < 3
  {
    && Group(cps, k) != {}
    && Parse(Render(Runs(Sorted(Group(cps, k))))).Some?
    && CoveredBy(cp, Parse(Render(Runs(Sorted(Group(cps, k))))).value)
  }

  lemma DeclaredIsGroup(cps: set<CodePoint>, k: nat, cp: CodePoint)
    requires k < 3 && forall c :: c in cps ==> c <= MAX_CODE_POINT
    ensures Declared(cps, k, cp) <==> cp in Group(cps, k)
  {
    if Group(cps, k) != {} {
      PrintedRangesAreTheSet(Group(cps, k), []);
    }
  }

  /** Every code point of a font is declared by exactly one of the printed descriptors, and
      nothing else is declared by any. */
  lemma EachCodePointDeclaredOnce(cps: set<CodePoint>, cp: CodePoint)
    requires forall c :: c in cps ==> c <= MAX_CODE_POINT
    ensures cp in cps <==> Declared(cps, 0, cp) || Declared(cps, 1, cp) || Declared(cps, 2, cp)
    ensures !(Declared(cps, 0, cp) && Declared(cps, 1, cp))
    ensures !(Declared(cps, 0, cp) && Declared(cps, 2, cp))
    ensures !(Declared(cps, 1, cp) && Declared(cps, 2, cp))
  {
    DeclaredIsGroup(cps, 0, cp);
    DeclaredIsGroup(cps, 1, cp);
    DeclaredIsGroup(cps, 2, cp);
  }

  // ---------- Which blocks each descriptor takes ----------

  /** Basic Latin to Latin Extended-B, Latin Extended Additional, general punctuation, currency signs,
      letterlike symbols, the byte order mark and the replacement character. */
  const LATIN_BLOCKS := [
    Run(0x0, 0x24F), Run(0x1E00, 0x1EFF), Run(0x2000, 0x206F), Run(0x20A0, 0x20CF), Run(0x2100, 0x214F),
    Run(0xFEFF, 0xFEFF), Run(0xFFFD, 0xFFFD)]

  /** Greek to Cyrillic Supplement, Greek Extended, and the two Cyrillic extensions. */
  const EUROPE_BLOCKS := [Run(0x370, 0x52F), Run(0x1F00, 0x1FFF), Run(0x2DE0, 0x2DFF), Run(0xA640, 0xA69F)]

  lemma BlocksMeaning(cp: CodePoint)
    ensures Latin(cp) <==> CoveredBy(cp, LATIN_BLOCKS)
    ensures Europe(cp) <==> CoveredBy(cp, EUROPE_BLOCKS)
    ensures !(CoveredBy(cp, LATIN_BLOCKS) && CoveredBy(cp, EUROPE_BLOCKS))
  {
    if Latin(cp) {
      assert InRun(cp, LATIN_BLOCKS[0]) || InRun(cp, LATIN_BLOCKS[1]) || InRun(cp, LATIN_BLOCKS[2])
          || InRun(cp, LATIN_BLOCKS[3]) || InRun(cp, LATIN_BLOCKS[4]) || InRun(cp, LATIN_BLOCKS[5])
          || InRun(cp, LATIN_BLOCKS[6]);
    }
    if Europe(cp) {
      assert InRun(cp, EUROPE_BLOCKS[0]) || InRun(cp, EUROPE_BLOCKS[1]) || InRun(cp, EUROPE_BLOCKS[2])
          || InRun(cp, EUROPE_BLOCKS[3]);
    }
  }

  /** The first descriptor declares the font's code points in the Latin blocks, the second those in the
      other European ones, the third the rest. */
  lemma DescriptorsByBlock(cps: set<CodePoint>, cp: CodePoint)
    requires forall x :: x in cps ==> x <= MAX_CODE_POINT
    ensures Declared(cps, 0, cp) <==> cp in cps && CoveredBy(cp, LATIN_BLOCKS)
    ensures Declared(cps, 1, cp) <==> cp in cps && CoveredBy(cp, EUROPE_BLOCKS)
    ensures Declared(cps, 2, cp) <==> cp in cps && !CoveredBy(cp, LATIN_BLOCKS) && !CoveredBy(cp, EUROPE_BLOCKS)
  {
    BlocksMeaning(cp);
    DeclaredIsGroup(cps, 0, cp);
    DeclaredIsGroup(cps, 1, cp);
    DeclaredIsGroup(cps, 2, cp);
  }

  /** What is printed for printable ASCII and the euro sign. */
  lemma RenderExample()
    ensures Render([Run(0x20, 0x7E), Run(0x20AC, 0x20AC)]) == "U+20-7E,U+20AC"
  {
    var parts := RenderAll([Run(0x20, 0x7E), Run(0x20AC, 0x20AC)]);
    assert Hex(0x20) == "20" && Hex(0x7E) == "7E";
    assert Hex(0x20AC) == "20AC" by {
      assert Hex(0x20A) == "20A";
    }
    assert parts[0] == "U+20-7E" && parts[1] == "U+20AC";
    assert parts[1..] == ["U+20AC"];
  }

  /** The reader takes small letters as well as capitals, and no more than six digits. */
  lemma DigitExamples(s: string)
    ensures ParseCodePoint("ac") == Some(0xAC) && ParseCodePoint("fa") == Some(0xFA)
    ensures |s| > 6 ==> ParseCodePoint(s) == None
  {
    assert "ac"[..1] == "a" && "fa"[..1] == "f" && "a"[..0] == "" && "f"[..0] == "";
  }

  /** It takes ranges in order, under either letter, and nothing without its prefix. */
  lemma RangeExamples()
    ensures ParseRun("u+2-1") == None && ParseRun("u+1-2") == Some(Run(1, 2)) && ParseRun("x+1") == None
  {
    var down, up := "2-1", "1-2";
    assert "u+2-1"[2..] == down && "u+1-2"[2..] == up;
    assert down[1..] == "-1" && up[1..] == "-2" && Find("-1", '-') == 0 && Find("-2", '-') == 0;
    assert down[..1] == "2" && down[2..] == "1" && up[..1] == "1" && up[2..] == "2";
    assert ParseCodePoint("1") == Some(1) && ParseCodePoint("2") == Some(2) by {
      assert "1"[..0] == "" && "2"[..0] == "";
    }
  }

  /** The last code point there is parses, and the next number does not. */
  lemma LastCodePointExample()
    ensures ParseCodePoint("10FFFF") == Some(0x10FFFF)
    ensures ParseCodePoint("110000") == None
  {
    assert HexValue("10FFFF") == Some(0x10FFFF) by {
      assert HexValue("10") == Some(0x10) by { assert "10"[..1] == "1" && "1"[..0] == ""; }
      assert "10FFFF"[..5] == "10FFF" && "10FFF"[..4] == "10FF" && "10FF"[..3] == "10F" && "10F"[..2] == "10";
      assert HexValue("10F") == Some(0x10F);
      assert HexValue("10FF") == Some(0x10FF);
    }
    assert HexValue("110000") == Some(0x110000) by {
      assert HexValue("11") == Some(0x11) by { assert "11"[..1] == "1" && "1"[..0] == ""; }
      assert "110000"[..5] == "11000" && "11000"[..4] == "1100" && "1100"[..3] == "110" && "110"[..2] == "11";
      assert HexValue("110") == Some(0x110);
      assert HexValue("1100") == Some(0x1100);
    }
  }
}
