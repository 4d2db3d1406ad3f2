/** Lists of copyright years: `process_dates` and `datestr` (gem5/util/find_copyrights.py:112-132, 195-220). */
module CopyrightYears {
  import opened Wrappers
  import opened Collections
  import opened Sorting
  import opened Text

  datatype Span = Span(first: int, last: int)

  function Years(s: Span): (r: set<int>)
    ensures forall y :: y in r <==> s.first <= y <= s.last
    decreases s.last - s.first
  {
    if s.first > s.last then {} else Years(Span(s.first, s.last - 1)) + {s.last}
  }

  // ---------- Reading ----------

  ghost predicate FourDigits(s: string) {
    |s| >= 4 && IsDigit(s[0]) && IsDigit(s[1]) && IsDigit(s[2]) && IsDigit(s[3])
  }

  function DigitValue(c: char): nat
    requires IsDigit(c)
  {
    c as int - '0' as int
  }

  /** Four digits at the front, and what follows them. */
  function TakeYear(s: string): (r: Option<(nat, string)>)
    ensures r.Some? <==> FourDigits(s)
    ensures r.Some? ==> r.value.0 <= 9999 && r.value.1 == s[4..]
  {
    if |s| >= 4 && IsDigit(s[0]) && IsDigit(s[1]) && IsDigit(s[2]) && IsDigit(s[3]) then
      Some((1000 * DigitValue(s[0]) + 100 * DigitValue(s[1]) + 10 * DigitValue(s[2]) + DigitValue(s[3]), s[4..]))
    else None
  }

  /** A match of `([0-9]{4})\s*-\s*([0-9]{4})` at the front of the text. */
  function MatchRange(s: string): Option<Span> {
    match TakeYear(s)
    case None => None
    case Some((first, rest)) =>
      var dash := StripLeft(rest);
      if dash == [] || dash[0] != '-' then None
      else
        match TakeYear(StripLeft(dash[1..]))
        case None => None
        case Some((last, _)) => Some(Span(first, last))
  }

  /** What one piece between commas stands for, if anything. */
  function ReadPiece(piece: string): Option<Span> {
    var date := Strip(piece);
    match MatchRange(date)
    case Some(range) => Some(range)
    case None =>
      match ParseInt(date)
      case None => None
      case Some(y) => Some(Span(y, y))
  }

  function PieceYears(piece: string): set<int> {
    match ReadPiece(piece)
    case None => {}
    case Some(s) => Years(s)
  }

  function AllYears(pieces: seq<string>): set<int> {
    if pieces == [] then {} else AllYears(pieces[..|pieces| - 1]) + PieceYears(pieces[|pieces| - 1])
  }

  /** Lines 123-124. */
  method AddRange(output: set<int>, s: Span) returns (more: set<int>)
    ensures more == output + Years(s)
  {
    more := output;
    var i := s.first;
    while i <= s.last
      invariant s.first <= i && forall y :: y in more <==> y in output || s.first <= y < i
      invariant i <= s.last + 1 || i == s.first
      decreases s.last - i
    {
      more := more + {i};
      i := i + 1;
    }
  }

  /** `process_dates` */
  method ProcessDates(dates: string) returns (output: set<int>)
    ensures output == AllYears(Split(dates, ','))
  {
    var pieces := Split(dates, ',');
    output := {};
    for k := 0 to |pieces|
      invariant output == AllYears(pieces[..k])
    {
      assert pieces[..k + 1][..k] == pieces[..k];
      var s := ReadPiece(pieces[k]);
      if s.Some? {
        output := AddRange(output, s.value);
      }
    }
    assert pieces[..|pieces|] == pieces;
  }

  // ---------- Writing ----------

  function SpanText(s: Span): string {
    if s.first == s.last then Format(s.first) else Format(s.first) + "-" + Format(s.last)
  }

  function SpanTexts(spans: seq<Span>): (texts: seq<string>)
    ensures |texts| == |spans| && forall i :: 0 <= i < |spans| ==> texts[i] == SpanText(spans[i])
  {
    if spans == [] then [] else SpanTexts(spans[..|spans| - 1]) + [SpanText(spans[|spans| - 1])]
  }

  /** One more year: it lengthens the last run or starts a new one. */
  function Extend(runs: seq<Span>, y: int): (more: seq<Span>)
    ensures more != []
  {
    if runs != [] && y == runs[|runs| - 1].last + 1 then
      runs[..|runs| - 1] + [Span(runs[|runs| - 1].first, y)]
    else runs + [Span(y, y)]
  }

  /** The maximal runs of consecutive years in a sorted list. */
  function Runs(years: seq<int>): (runs: seq<Span>)
    ensures years != [] ==> runs != []
  {
    if years == [] then [] else Extend(Runs(years[..|years| - 1]), years[|years| - 1])
  }

  function DateText(years: seq<int>): string
    requires years != []
  {
    Join(SpanTexts(Runs(years)), ',')
  }

  function IntOrder(): (int, int) -> bool {
    (a: int, b: int) => a <= b
  }

  ghost predicate StrictlyAscending(s: seq<int>) {
    forall i, j :: 0 <= i < j < |s| ==> s[i] < s[j]
  }

  /** The state of the loop after the first `k` years: all runs but the last are written, the last is open. */
  ghost predicate Writing(years: seq<int>, k: nat, first: int, second: int, output: seq<string>) {
    k <= |years| &&
    var runs := Runs(years[..k]);
    runs != [] && runs[|runs| - 1] == Span(first, second) && output == SpanTexts(runs[..|runs| - 1])
  }

  lemma WritingStarts(years: seq<int>)
    requires years != []
    ensures Writing(years, 1, years[0], years[0], [])
  {
    assert years[..1][..0] == [];
  }

  lemma WritingStep(years: seq<int>, k: nat, first: int, second: int, output: seq<string>)
    requires Writing(years, k, first, second, output) && k < |years|
    ensures if years[k] == second + 1 then Writing(years, k + 1, first, years[k], output)
            else Writing(years, k + 1, years[k], years[k], output + [SpanText(Span(first, second))])
  {
    var runs := Runs(years[..k]);
    assert years[..k + 1][..k] == years[..k];
    if years[k] != second + 1 {
      var more := runs + [Span(years[k], years[k])];
      assert more[..|more| - 1] == runs;
    }
  }

  lemma WritingEnds(years: seq<int>, first: int, second: int, output: seq<string>)
    requires Writing(years, |years|, first, second, output)
    ensures output + [SpanText(Span(first, second))] == SpanTexts(Runs(years))
  {
    assert years[..|years|] == years;
  }

  /** `datestr`; the empty set is an IndexError. */
  method Datestr(dates: set<int>) returns (r: Option<string>)
    ensures r.None? <==> dates == {}
    ensures r.Some? ==> exists years :: StrictlyAscending(years) && Elements(years) == dates && years != [] && r.value == DateText(years)
  {
    var list := Visit(dates);
    var years := Sort(IntOrder(), list);
    SortedYears(list);
    if years == [] {
      return None;
    }
    assert years[0] in Elements(years);
    var output: seq<string> := [];
    var first := years[0];
    var second := first;
    var k := 1;
    WritingStarts(years);
    while k < |years|
      invariant 1 <= k <= |years| && Writing(years, k, first, second, output)
    {
      var next := years[k];
      WritingStep(years, k, first, second, output);
      if next == second + 1 {
        second := next;
      } else {
        output := output + [SpanText(Span(first, second))];
        first := next;
        second := next;
      }
      k := k + 1;
    }
    WritingEnds(years, first, second, output);
    output := output + [SpanText(Span(first, second))];
    return Some(Join(output, ','));
  }

  lemma SortedYears(list: seq<int>)
    requires Distinct(list)
    ensures var years := Sort(IntOrder(), list); StrictlyAscending(years) && Elements(years) == Elements(list)
  {
    var years := Sort(IntOrder(), list);
    SortSorted(IntOrder(), list);
    forall x ensures x in Elements(years) <==> x in Elements(list) {
      assert x in multiset(years) <==> x in multiset(list);
    }
    forall i, j | 0 <= i < j < |years| ensures years[i] < years[j] {
      assert IntOrder()(years[i], years[j]);
      MultiplicityOne(list, years[i]);
      if years[i] == years[j] {
        Twice(years, i, j);
      }
    }
  }
}
