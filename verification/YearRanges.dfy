/** Writing a set of years and reading it back, and why no shorter list of years and ranges will do. */
module YearRanges {
  import opened Wrappers
  import opened Collections
  import opened Text
  import opened CopyrightYears

  // ---------- The runs of a sorted list ----------

  /** Runs are not empty and at least one year is missing between two of them. */
  ghost predicate Separated(runs: seq<Span>) {
    && (forall i :: 0 <= i < |runs| ==> runs[i].first <= runs[i].last)
    && (forall i, j :: 0 <= i < j < |runs| ==> runs[i].last + 1 < runs[j].first)
  }

  ghost predicate Covered(runs: seq<Span>, y: int) {
    exists i :: 0 <= i < |runs| && runs[i].first <= y <= runs[i].last
  }

  lemma CoveredExtend(runs: seq<Span>, y: int, z: int)
    requires Separated(runs)
    ensures Covered(Extend(runs, y), z) <==> Covered(runs, z) || z == y
  {
    var all := Extend(runs, y);
    if Covered(runs, z) {
      var i :| 0 <= i < |runs| && runs[i].first <= z <= runs[i].last;
      assert all[i].first <= z <= all[i].last;
    }
    if z == y {
      assert all[|all| - 1].first <= z <= all[|all| - 1].last;
    }
    if Covered(all, z) {
      var i :| 0 <= i < |all| && all[i].first <= z <= all[i].last;
      assert z != y ==> i < |runs| && runs[i].first <= z <= runs[i].last;
    }
  }

  lemma SeparatedExtend(runs: seq<Span>, y: int)
    requires Separated(runs) && (runs != [] ==> runs[|runs| - 1].last < y)
    ensures Separated(Extend(runs, y))
  {
    var all := Extend(runs, y);
    forall i, j | 0 <= i < j < |all| ensures all[i].last + 1 < all[j].first {
      assert i < |runs|;
      assert runs[i].last <= runs[|runs| - 1].last;
    }
  }

  lemma {:induction false} RunsFacts(years: seq<int>)
    requires StrictlyAscending(years)
    ensures Separated(Runs(years))
    ensures forall y :: y in years <==> Covered(Runs(years), y)
    ensures years != [] ==> Runs(years)[|Runs(years)| - 1].last == years[|years| - 1]
  {
    if years != [] {
      var n := |years| - 1;
      var before, y := years[..n], years[n];
      RunsFacts(before);
      assert years == before + [y];
      SeparatedExtend(Runs(before), y);
      forall z ensures z in years <==> Covered(Runs(years), z) {
        CoveredExtend(Runs(before), y, z);
      }
    }
  }

  // ---------- Reading one written piece ----------

  /** A range is readable when both ends have four digits. */
  predicate Readable(s: Span) {
    s.first == s.last || (1000 <= s.first && s.last <= 9999)
  }

  lemma SingleRead(y: int)
    ensures ReadPiece(Format(y)) == Some(Span(y, y))
  {
    var t := Format(y);
    FormatFacts(y);
    StripNothing(t);
    if y < 0 {
      assert !IsDigit(t[0]);
    } else {
      DecimalFacts(y);
      assert MatchRange(t).None? by {
        if FourDigits(t) { AfterDigits(t[4..]); }
      }
    }
  }

  lemma AfterDigits(rest: string)
    requires AllDigits(rest)
    ensures StripLeft(rest) == rest && (rest != [] ==> rest[0] != '-')
  {
  }

  lemma TakeFour(a: nat, b: nat, c: nat, d: nat)
    requires a < 10 && b < 10 && c < 10 && d < 10
    ensures var s := [Digit(a), Digit(b), Digit(c), Digit(d)];
            FourDigits(s) && TakeYear(s) == Some((1000 * a + 100 * b + 10 * c + d, ""))
  {
    var s := [Digit(a), Digit(b), Digit(c), Digit(d)];
    assert s[4..] == "";
  }

  lemma FourDigitDecimal(n: nat)
    requires 1000 <= n <= 9999
    ensures |Decimal(n)| == 4 && FourDigits(Decimal(n))
    ensures TakeYear(Decimal(n)) == Some((n, ""))
  {
    var k := n / 10;
    var h := k / 10;
    var t := h / 10;
    var b, c, d := h % 10, k % 10, n % 10;
    assert Decimal(t) == [Digit(t)];
    assert Decimal(h) == Decimal(t) + [Digit(b)];
    assert Decimal(k) == Decimal(h) + [Digit(c)];
    assert Decimal(n) == Decimal(k) + [Digit(d)];
    assert Decimal(n) == [Digit(t), Digit(b), Digit(c), Digit(d)];
    TakeFour(t, b, c, d);
  }

  lemma RangeRead(s: Span)
    requires 1000 <= s.first < s.last <= 9999
    ensures ReadPiece(SpanText(s)) == Some(s)
  {
    var a, b := Decimal(s.first), Decimal(s.last);
    assert SpanText(s) == a + ("-" + b);
    SpanStripped(s);
    MatchTwo(s.first, s.last);
  }

  lemma SpanStripped(s: Span)
    ensures Strip(SpanText(s)) == SpanText(s)
  {
    FormatFacts(s.first);
    FormatFacts(s.last);
    StripNothing(SpanText(s));
  }

  lemma MatchTwo(m: nat, n: nat)
    requires 1000 <= m <= 9999 && 1000 <= n <= 9999
    ensures MatchRange(Decimal(m) + ("-" + Decimal(n))) == Some(Span(m, n))
  {
    var b := Decimal(n);
    var dash := "-" + b;
    TakeYearBefore(m, dash);
    FourDigitDecimal(n);
    assert StripLeft(dash) == dash && dash[1..] == b;
    assert StripLeft(b) == b;
  }

  lemma TakeYearBefore(n: nat, rest: string)
    requires 1000 <= n <= 9999
    ensures TakeYear(Decimal(n) + rest) == Some((n, rest))
  {
    var a := Decimal(n);
    FourDigitDecimal(n);
    assert (a + rest)[4..] == rest;
  }

  lemma {:induction false} DigitCount(n: nat)
    ensures n < 10 <==> |Decimal(n)| == 1
    ensures n < 100 <==> |Decimal(n)| <= 2
    ensures n < 1000 <==> |Decimal(n)| <= 3
    ensures n < 10000 <==> |Decimal(n)| <= 4
  {
    if n >= 10 {
      DigitCount(n / 10);
    }
  }

  lemma {:induction false} DigitsOnly(s: string)
    requires ParseDigits(s).Some?
    ensures forall i :: 0 <= i < |s| ==> s[i] != '-'
  {
    if |s| > 1 {
      var front := if s[|s| - 2] == '_' then s[..|s| - 2] else s[..|s| - 1];
      DigitsOnly(front);
      assert forall i :: 0 <= i < |front| ==> s[i] == front[i];
    }
  }

  /** A written range is never taken for a single number. */
  lemma RangeIsNoNumber(s: Span)
    requires s.first < s.last
    ensures ParseInt(SpanText(s)).None?
  {
    var a := Format(s.first);
    var t := SpanText(s);
    SpanStripped(s);
    assert a != [] by { FormatFacts(s.first); }
    assert t[|a|] == '-';
    NoNumberWithDash(t, |a|);
  }

  lemma NoNumberWithDash(t: string, i: nat)
    requires 0 < i < |t| && t[i] == '-' && Strip(t) == t
    ensures ParseInt(t).None?
  {
    var u := t[1..];
    assert u[i - 1] == '-';
    assert ParseDigits(t).None? by {
      if ParseDigits(t).Some? { DigitsOnly(t); }
    }
    assert ParseDigits(u).None? by {
      if ParseDigits(u).Some? { DigitsOnly(u); }
    }
  }

  lemma OtherStart(s: Span)
    requires s.first < s.last && !(1000 <= s.first <= 9999)
    ensures MatchRange(SpanText(s)).None?
  {
    var t := SpanText(s);
    var n := if s.first < 0 then -s.first else s.first;
    var digits := Decimal(n);
    DecimalFacts(n);
    DigitCount(n);
    if s.first < 0 {
      assert t[0] == '-';
    } else {
      assert t == digits + "-" + Format(s.last);
      assert t[|digits|] == '-';
      if |digits| > 4 {
        assert t[4..][0] == digits[4];
      }
    }
  }

  lemma MatchStarts(n: nat, rest: string)
    requires 1000 <= n <= 9999
    ensures match MatchRange(Decimal(n) + rest)
            case None => true
            case Some(r) => r.first == n && r.last <= 9999
  {
    TakeYearBefore(n, rest);
  }

  /** A written range is read as a range only when its first year has four digits, and then as one that
      starts there and ends at 9999 or earlier. */
  lemma RangeReadAtMost(s: Span)
    requires s.first < s.last
    ensures match ReadPiece(SpanText(s))
            case None => true
            case Some(r) => r.first == s.first && 1000 <= s.first && r.last <= 9999
  {
    var t := SpanText(s);
    SpanStripped(s);
    RangeIsNoNumber(s);
    if !(1000 <= s.first <= 9999) {
      OtherStart(s);
    } else {
      var rest := "-" + Format(s.last);
      assert t == Decimal(s.first) + rest;
      MatchStarts(s.first, rest);
    }
  }

  // ---------- Blanks ----------

  lemma {:induction false} StripLeftOf(s: string, t: string)
    ensures StripLeft(s + t) == if StripLeft(s) == [] then StripLeft(t) else StripLeft(s) + t
    ensures AllSpace(s) ==> StripLeft(s) == []
  {
    if s == [] {
      assert s + t == t;
    } else {
      assert (s + t)[1..] == s[1..] + t;
      if IsSpace(s[0]) {
        StripLeftOf(s[1..], t);
      }
    }
  }

  lemma {:induction false} StripRightOf(s: string, t: string)
    ensures StripRight(s + t) == if StripRight(t) == [] then StripRight(s) else s + StripRight(t)
    ensures AllSpace(t) ==> StripRight(t) == []
  {
    if t == [] {
      assert s + t == s;
    } else {
      var front := t[..|t| - 1];
      assert (s + t)[..|s + t| - 1] == s + front;
      if IsSpace(t[|t| - 1]) {
        StripRightOf(s, front);
      }
    }
  }

  /** Blanks around a piece do not change what it stands for. */
  lemma PaddedPiece(a: string, piece: string, b: string)
    requires AllSpace(a) && AllSpace(b)
    ensures ReadPiece(a + piece + b) == ReadPiece(piece)
  {
    assert a + piece + b == a + (piece + b);
    StripLeftOf(a, piece + b);
    StripLeftOf(piece, b);
    StripLeftOf(b, "");
    assert b + "" == b;
    StripRightOf(StripLeft(piece), b);
  }

  lemma TakeYearReads(x: string, rest: string)
    requires |x| == 4 && AllDigits(x)
    ensures ParseDigits(x).Some? && TakeYear(x + rest) == Some((ParseDigits(x).value, rest))
  {
    assert (x + rest)[4..] == rest;
    var p, q, r := x[..3], x[..2], x[..1];
    assert p[..2] == q && q[..1] == r;
    assert IsDigit(x[0]) && IsDigit(x[1]) && IsDigit(x[2]) && IsDigit(x[3]);
    assert ParseDigits(r) == Some(DigitValue(x[0]));
    assert ParseDigits(q) == Some(10 * DigitValue(x[0]) + DigitValue(x[1]));
    assert ParseDigits(p) == Some(100 * DigitValue(x[0]) + 10 * DigitValue(x[1]) + DigitValue(x[2]));
  }

  /** The text starts with a range: four digits, a dash with or without blanks around it, and four digits. */
  ghost predicate IsRange(s: string, x: string, a: string, b: string, y: string, tail: string) {
    && s == x + (a + ("-" + (b + (y + tail))))
    && |x| == 4 && AllDigits(x) && |y| == 4 && AllDigits(y)
    && AllSpace(a) && AllSpace(b)
  }

  lemma StartsAfterBlanks(a: string, t: string)
    requires AllSpace(a) && t != [] && !IsSpace(t[0])
    ensures StripLeft(a + t) == t
  {
    StripLeftOf(a, t);
  }

  /** Then it is read as that range, whatever follows. */
  lemma RangeMatches(s: string, x: string, a: string, b: string, y: string, tail: string)
    requires IsRange(s, x, a, b, y, tail)
    ensures ParseDigits(x).Some? && ParseDigits(y).Some?
    ensures MatchRange(s) == Some(Span(ParseDigits(x).value, ParseDigits(y).value))
  {
    var year := y + tail;
    var dash := "-" + (b + year);
    TakeYearReads(x, a + dash);
    StartsAfterBlanks(a, dash);
    assert dash[1..] == b + year;
    assert IsDigit(y[0]);
    StartsAfterBlanks(b, year);
    TakeYearReads(y, tail);
  }

  /** And nothing else is read as a range. */
  lemma MatchedIsRange(s: string) returns (x: string, a: string, b: string, y: string, tail: string)
    requires MatchRange(s).Some?
    ensures IsRange(s, x, a, b, y, tail)
  {
    x := s[..4];
    var rest := s[4..];
    a := StripLeftMeans(rest);
    var dash := StripLeft(rest);
    b := StripLeftMeans(dash[1..]);
    var year := StripLeft(dash[1..]);
    y, tail := year[..4], year[4..];
    assert s == x + rest && year == y + tail && dash == "-" + dash[1..];
  }

  /** A piece that is a range, with blanks around it, stands for that range. */
  lemma SpacedRange(piece: string, x: string, a: string, b: string, y: string, tail: string)
    requires IsRange(piece, x, a, b, y, tail)
    ensures ParseDigits(x).Some? && ParseDigits(y).Some?
    ensures ReadPiece(piece) == Some(Span(ParseDigits(x).value, ParseDigits(y).value))
  {
    var front, kept := x + a + "-" + b + y, StripRight(tail);
    assert piece == front + tail;
    assert IsDigit(x[0]) && IsDigit(y[3]);
    StripKeepsFront(front, tail);
    assert front + kept == x + (a + ("-" + (b + (y + kept))));
    RangeMatches(front + kept, x, a, b, y, kept);
  }

  lemma StripKeepsFront(front: string, tail: string)
    requires front != [] && !IsSpace(front[0]) && !IsSpace(front[|front| - 1])
    ensures Strip(front + tail) == front + StripRight(tail)
  {
    assert (front + tail)[0] == front[0];
    StripRightOf(front, tail);
    assert StripRight(front) == front;
    assert front + [] == front;
  }

  // ---------- Reading everything ----------

  lemma {:induction false} PieceCounts(pieces: seq<string>, i: nat)
    requires i < |pieces|
    ensures PieceYears(pieces[i]) <= AllYears(pieces)
    decreases |pieces|
  {
    var n := |pieces| - 1;
    if i < n {
      PieceCounts(pieces[..n], i);
    }
  }

  lemma {:induction false} YearFromPiece(pieces: seq<string>, y: int) returns (i: nat)
    requires y in AllYears(pieces)
    ensures i < |pieces| && y in PieceYears(pieces[i])
  {
    var n := |pieces| - 1;
    if y in PieceYears(pieces[n]) {
      i := n;
    } else {
      i := YearFromPiece(pieces[..n], y);
    }
  }

  lemma SpanHasNoComma(s: Span)
    ensures Free(SpanText(s), ',')
  {
    FormatHasNoComma(s.first);
    FormatHasNoComma(s.last);
    FreeConcat(Format(s.first), "-", ',');
    FreeConcat(Format(s.first) + "-", Format(s.last), ',');
  }

  lemma FormatHasNoComma(i: int)
    ensures Free(Format(i), ',')
  {
    FormatFacts(i);
  }

  lemma FreeConcat(a: string, b: string, c: char)
    requires Free(a, c) && Free(b, c)
    ensures Free(a + b, c)
  {
  }

  lemma SpansSplit(spans: seq<Span>)
    requires spans != []
    ensures Split(Join(SpanTexts(spans), ','), ',') == SpanTexts(spans)
  {
    var texts := SpanTexts(spans);
    forall i | 0 <= i < |texts| ensures Free(texts[i], ',') {
      SpanHasNoComma(spans[i]);
    }
    SplitJoin(texts, ',');
  }

  lemma DateTextSplits(years: seq<int>)
    requires years != []
    ensures Split(DateText(years), ',') == SpanTexts(Runs(years))
  {
    SpansSplit(Runs(years));
  }

  lemma ReadableRead(s: Span)
    requires s.first <= s.last && Readable(s)
    ensures PieceYears(SpanText(s)) == Years(s)
  {
    if s.first == s.last {
      SingleRead(s.first);
    } else {
      RangeRead(s);
    }
  }

  lemma SpansRead(runs: seq<Span>, y: int)
    requires forall i :: 0 <= i < |runs| ==> runs[i].first <= runs[i].last && Readable(runs[i])
    ensures y in AllYears(SpanTexts(runs)) <==> Covered(runs, y)
  {
    var texts := SpanTexts(runs);
    if y in AllYears(texts) {
      var i := YearFromPiece(texts, y);
      ReadableRead(runs[i]);
    }
    if Covered(runs, y) {
      var i :| 0 <= i < |runs| && runs[i].first <= y <= runs[i].last;
      ReadableRead(runs[i]);
      PieceCounts(texts, i);
    }
  }

  lemma ReadableRoundTrip(years: seq<int>)
    requires StrictlyAscending(years)
    requires forall i :: 0 <= i < |Runs(years)| ==> Readable(Runs(years)[i])
    ensures AllYears(SpanTexts(Runs(years))) == Elements(years)
  {
    var runs := Runs(years);
    RunsFacts(years);
    forall y ensures y in AllYears(SpanTexts(runs)) <==> y in Elements(years) {
      SpansRead(runs, y);
    }
  }

  /** An end of an unreadable run is not read back from any piece. */
  lemma NotInPiece(runs: seq<Span>, k: nat, lost: int, i: nat)
    requires Separated(runs) && k < |runs| && i < |runs| && !Readable(runs[k])
    requires lost == if runs[k].first < 1000 then runs[k].first else runs[k].last
    ensures lost !in PieceYears(SpanText(runs[i]))
  {
    var r := runs[i];
    if r.first == r.last {
      SingleRead(r.first);
      assert i < k || k < i;
    } else {
      RangeReadAtMost(r);
    }
  }

  lemma NotInAnyPiece(pieces: seq<string>, y: int)
    requires forall i :: 0 <= i < |pieces| ==> y !in PieceYears(pieces[i])
    ensures y !in AllYears(pieces)
  {
    if y in AllYears(pieces) {
      var i := YearFromPiece(pieces, y);
      assert false;
    }
  }

  /** So writing and reading back loses it. */
  lemma UnreadableIsLost(years: seq<int>, k: nat)
    requires StrictlyAscending(years) && k < |Runs(years)| && !Readable(Runs(years)[k])
    ensures AllYears(SpanTexts(Runs(years))) != Elements(years)
  {
    var runs := Runs(years);
    RunsFacts(years);
    var s := runs[k];
    var lost := if s.first < 1000 then s.first else s.last;
    assert Covered(runs, lost);
    assert lost in Elements(years);
    forall i | 0 <= i < |runs| ensures lost !in PieceYears(SpanTexts(runs)[i]) {
      NotInPiece(runs, k, lost, i);
    }
    NotInAnyPiece(SpanTexts(runs), lost);
  }

  /** No two neighbouring years of the set reach outside the four-digit years. */
  predicate NeighboursHaveFourDigits(years: seq<int>) {
    forall y :: y in years && y + 1 in years ==> 1000 <= y && y + 1 <= 9999
  }

  lemma NeighboursReadable(years: seq<int>)
    requires StrictlyAscending(years)
    ensures NeighboursHaveFourDigits(years) <==> forall i :: 0 <= i < |Runs(years)| ==> Readable(Runs(years)[i])
  {
    var runs := Runs(years);
    RunsFacts(years);
    if NeighboursHaveFourDigits(years) {
      forall i | 0 <= i < |runs| ensures Readable(runs[i]) {
        RunReadable(years, i);
      }
    }
    if forall i :: 0 <= i < |runs| ==> Readable(runs[i]) {
      forall y | y in years && y + 1 in years ensures 1000 <= y && y + 1 <= 9999 {
        assert Covered(runs, y) && Covered(runs, y + 1);
        var i := SameRun(runs, y);
        assert Readable(runs[i]);
      }
    }
  }

  lemma RunReadable(years: seq<int>, i: nat)
    requires StrictlyAscending(years) && NeighboursHaveFourDigits(years) && i < |Runs(years)|
    ensures Readable(Runs(years)[i])
  {
    var runs := Runs(years);
    RunsFacts(years);
    var s := runs[i];
    if s.first < s.last {
      assert Covered(runs, s.first) && Covered(runs, s.first + 1);
      var y := s.last - 1;
      assert Covered(runs, y) && Covered(runs, y + 1);
    }
  }

  lemma SameRun(runs: seq<Span>, y: int) returns (i: nat)
    requires Separated(runs) && Covered(runs, y) && Covered(runs, y + 1)
    ensures i < |runs| && runs[i].first <= y && y + 1 <= runs[i].last
  {
    i :| 0 <= i < |runs| && runs[i].first <= y <= runs[i].last;
    var j :| 0 <= j < |runs| && runs[j].first <= y + 1 <= runs[j].last;
    assert i == j;
  }

  /** Reading back what was written gives the same years exactly when no two neighbouring years reach
      outside 1000 to 9999. */
  lemma RoundTripIff(years: seq<int>)
    requires StrictlyAscending(years) && years != []
    ensures AllYears(Split(DateText(years), ',')) == Elements(years) <==> NeighboursHaveFourDigits(years)
  {
    NeighboursReadable(years);
    DateTextSplits(years);
    if NeighboursHaveFourDigits(years) {
      ReadableRoundTrip(years);
    } else {
      var k :| 0 <= k < |Runs(years)| && !Readable(Runs(years)[k]);
      UnreadableIsLost(years, k);
    }
  }

  // ---------- No shorter list ----------

  /** The first years of all spans that the pieces denote. */
  function Firsts(pieces: seq<string>): set<int> {
    if pieces == [] then {}
    else
      Firsts(pieces[..|pieces| - 1]) +
      (match ReadPiece(pieces[|pieces| - 1]) case None => {} case Some(s) => {s.first})
  }

  lemma {:induction false} FirstsFacts(pieces: seq<string>)
    ensures |Firsts(pieces)| <= |pieces|
    ensures forall i :: 0 <= i < |pieces| && ReadPiece(pieces[i]).Some? ==> ReadPiece(pieces[i]).value.first in Firsts(pieces)
  {
    if pieces != [] {
      var n := |pieces| - 1;
      FirstsFacts(pieces[..n]);
      assert forall i :: 0 <= i < n ==> pieces[..n][i] == pieces[i];
    }
  }

  function RunFirsts(runs: seq<Span>): (s: seq<int>)
    ensures |s| == |runs| && forall i :: 0 <= i < |runs| ==> s[i] == runs[i].first
  {
    if runs == [] then [] else RunFirsts(runs[..|runs| - 1]) + [runs[|runs| - 1].first]
  }

  /** A year whose predecessor is missing can only be given by a piece that starts with it. */
  lemma FirstNeedsPiece(pieces: seq<string>, y: int)
    requires y in AllYears(pieces) && y - 1 !in AllYears(pieces)
    ensures y in Firsts(pieces)
  {
    var i := YearFromPiece(pieces, y);
    PieceCounts(pieces, i);
    FirstsFacts(pieces);
    var s := ReadPiece(pieces[i]).value;
    assert y - 1 !in PieceYears(pieces[i]);
    assert s.first == y;
  }

  lemma RunStarts(years: seq<int>, k: nat)
    requires StrictlyAscending(years) && k < |Runs(years)|
    ensures Runs(years)[k].first in years && Runs(years)[k].first - 1 !in years
  {
    var runs := Runs(years);
    var y := runs[k].first;
    RunsFacts(years);
    assert Covered(runs, y);
    assert !Covered(runs, y - 1) by {
      forall j | 0 <= j < |runs| ensures !(runs[j].first <= y - 1 <= runs[j].last) {
        assert j < k ==> runs[j].last + 1 < runs[k].first;
      }
    }
  }

  lemma RunsNeedPieces(pieces: seq<string>, years: seq<int>)
    requires StrictlyAscending(years) && AllYears(pieces) == Elements(years)
    ensures |Runs(years)| <= |pieces|
  {
    var runs := Runs(years);
    var firsts := RunFirsts(runs);
    RunsFacts(years);
    FirstsFacts(pieces);
    forall y | y in Elements(firsts) ensures y in Firsts(pieces) {
      var k :| 0 <= k < |firsts| && firsts[k] == y;
      RunStarts(years, k);
      FirstNeedsPiece(pieces, y);
    }
    DistinctFits(firsts, Firsts(pieces));
  }

  /** No comma-separated list that is read as these years has fewer pieces than `datestr` writes. */
  lemma NoFewerPieces(text: string, years: seq<int>)
    requires StrictlyAscending(years) && years != [] && AllYears(Split(text, ',')) == Elements(years)
    ensures |Split(DateText(years), ',')| <= |Split(text, ',')|
  {
    DateTextSplits(years);
    RunsNeedPieces(Split(text, ','), years);
  }
}
