/** One instruction on the timeline: `print_inst` (gem5/util/o3-pipeview.py:281-431) without colours. */
module PipeTimeline {
  import opened Wrappers
  import opened Arith
  import opened Sorting
  import opened Lexicographic

  type Stage = k: nat | k < 8

  datatype Event = Event(phase: nat, stage: Stage, tick: nat)
  datatype Mark = Mark(col: nat, letter: char)
  datatype Error = IndexError

  const DISPATCH: nat := 3
  const ISSUE: nat := 4
  const RETIRE: nat := 6

  function Name(k: Stage): string {
    match k
    case 0 => "fetch"
    case 1 => "decode"
    case 2 => "rename"
    case 3 => "dispatch"
    case 4 => "issue"
    case 5 => "complete"
    case 6 => "retire"
    case 7 => "store"
  }

  function Letter(k: Stage): char {
    match k
    case 0 => 'f'
    case 1 => 'd'
    case 2 => 'n'
    case 3 => 'p'
    case 4 => 'i'
    case 5 => 'c'
    case 6 => 'r'
    case 7 => 's'
  }

  /** Ticks per stage, from fetch to retire; the eighth, store, only with store completions. */
  predicate Record(ticks: seq<nat>) {
    |ticks| == 7 || |ticks| == 8
  }

  function Latest(ticks: seq<nat>): (m: nat)
    requires ticks != []
    ensures m in ticks && forall k :: 0 <= k < |ticks| ==> ticks[k] <= m
  {
    if |ticks| == 1 then ticks[0]
    else
      var m := Latest(ticks[..|ticks| - 1]);
      assert forall k :: 0 <= k < |ticks| - 1 ==> ticks[k] == ticks[..|ticks| - 1][k];
      if m < ticks[|ticks| - 1] then ticks[|ticks| - 1] else m
  }

  /** The scale of the drawing: columns per row and ticks per column. */
  datatype Scale = Scale(width: nat, cycle: nat) {
    predicate Valid() { width > 0 && cycle > 0 }

    function TimeWidth(): (w: nat)
      requires Valid()
      ensures w > 0
    {
      Positive(width, cycle);
      width * cycle
    }
  }

  lemma Positive(a: int, b: int)
    requires a > 0 && b > 0
    ensures a * b > 0
  {
  }

  function BaseTick(ticks: seq<nat>, s: Scale): int
    requires Record(ticks) && s.Valid()
  {
    ticks[0] / s.TimeWidth() * s.TimeWidth()
  }

  predicate Compact(ticks: seq<nat>, s: Scale)
    requires Record(ticks) && s.Valid()
  {
    Latest(ticks) - ticks[0] < s.TimeWidth()
  }

  function NumLines(ticks: seq<nat>, s: Scale): int
    requires Record(ticks) && s.Valid()
  {
    if Compact(ticks, s) then 1 else (Latest(ticks) - BaseTick(ticks, s)) / s.TimeWidth() + 1
  }

  function StartTick(ticks: seq<nat>, s: Scale, i: int): int
    requires Record(ticks) && s.Valid()
  {
    BaseTick(ticks, s) + i * s.TimeWidth()
  }

  function EndTick(ticks: seq<nat>, s: Scale, i: int): int
    requires Record(ticks) && s.Valid()
  {
    StartTick(ticks, s, i) + s.TimeWidth() + (if NumLines(ticks, s) == 1 then ticks[0] - BaseTick(ticks, s) else 0)
  }

  predicate InRow(ticks: seq<nat>, s: Scale, i: int, tick: int)
    requires Record(ticks) && s.Valid()
  {
    tick != 0 && StartTick(ticks, s, i) <= tick < EndTick(ticks, s, i)
  }

  /** The events of row `i` among the first `n` stages, in stage order. */
  function EventsBelow(ticks: seq<nat>, s: Scale, i: int, n: nat): seq<Event>
    requires Record(ticks) && s.Valid() && n <= |ticks|
  {
    if n == 0 then []
    else EventsBelow(ticks, s, i, n - 1) +
         (if InRow(ticks, s, i, ticks[n - 1]) then [Event(ticks[n - 1] % s.TimeWidth(), n - 1, ticks[n - 1])] else [])
  }

  /** The tuple order of `events.sort()`: by phase, then stage name, then tick. */
  function EventOrder(): (Event, Event) -> bool {
    (a: Event, b: Event) =>
      if a.phase != b.phase then a.phase < b.phase
      else if a.stage != b.stage then StrLe(Name(a.stage), Name(b.stage))
      else a.tick <= b.tick
  }

  lemma StageNamesDiffer(a: Stage, b: Stage)
    requires StrLe(Name(a), Name(b)) && StrLe(Name(b), Name(a))
    ensures a == b
  {
    StrLeAntisymmetric(Name(a), Name(b));
  }

  lemma EventOrderOrders()
    ensures TotalPreorder(EventOrder())
  {
    var le := EventOrder();
    forall a, b ensures le(a, b) || le(b, a) {
      StrLeTotal(Name(a.stage), Name(b.stage));
    }
    forall a, b, c | le(a, b) && le(b, c) ensures le(a, c) {
      if a.phase == b.phase == c.phase && a.stage != b.stage && b.stage != c.stage {
        StrLeTransitive(Name(a.stage), Name(b.stage), Name(c.stage));
        if a.stage == c.stage {
          StageNamesDiffer(a.stage, b.stage);
        }
      }
    }
  }

  function RowEvents(ticks: seq<nat>, s: Scale, i: int): seq<Event>
    requires Record(ticks) && s.Valid()
  {
    Sort(EventOrder(), EventsBelow(ticks, s, i, |ticks|))
  }

  // ---------- What a row should show ----------

  /** Dispatch is not drawn when issue happens in the same tick. */
  predicate Skipped(ticks: seq<nat>, stage: Stage)
    requires Record(ticks)
  {
    stage == DISPATCH && ticks[DISPATCH] == ticks[ISSUE]
  }

  function Marks(ticks: seq<nat>, s: Scale, events: seq<Event>): seq<Mark>
    requires Record(ticks) && s.Valid()
  {
    if events == [] then []
    else
      var e := events[|events| - 1];
      Marks(ticks, s, events[..|events| - 1]) +
      (if Skipped(ticks, e.stage) then [] else [Mark(e.phase / s.cycle, Letter(e.stage))])
  }

  function Letters(marks: seq<Mark>, c: int): string {
    if marks == [] then ""
    else Letters(marks[..|marks| - 1], c) + (if marks[|marks| - 1].col == c then [marks[|marks| - 1].letter] else "")
  }

  /** One column: the letters of the stages that fall into it, or a dot. */
  function Cell(dot: char, marks: seq<Mark>, c: int): string {
    if Letters(marks, c) == "" then [dot] else Letters(marks, c)
  }

  function Cells(dot: char, marks: seq<Mark>, n: nat): string {
    if n == 0 then "" else Cells(dot, marks, n - 1) + Cell(dot, marks, n - 1)
  }

  function Dots(dot: char, n: int): string {
    if n <= 0 then "" else Dots(dot, n - 1) + [dot]
  }

  function Dot(ticks: seq<nat>): char
    requires Record(ticks)
  {
    if ticks[RETIRE] == 0 then '=' else '.'
  }

  function Row(ticks: seq<nat>, s: Scale, i: int): string
    requires Record(ticks) && s.Valid()
  {
    Cells(Dot(ticks), Marks(ticks, s, RowEvents(ticks, s, i)), s.width)
  }

  // ---------- Drawing ----------

  lemma {:induction false} LettersBeyond(marks: seq<Mark>, c: int)
    requires forall k :: 0 <= k < |marks| ==> marks[k].col != c
    ensures Letters(marks, c) == ""
  {
    if marks != [] {
      LettersBeyond(marks[..|marks| - 1], c);
    }
  }

  lemma DotsBehind(text: string, dot: char, n: nat)
    requires n > 0
    ensures text + Dots(dot, n) == text + Dots(dot, n - 1) + [dot]
  {
  }

  lemma {:induction false} CellsExtend(dot: char, marks: seq<Mark>, p: nat, n: nat)
    requires p <= n && Within(marks, p)
    ensures Cells(dot, marks, n) == Cells(dot, marks, p) + Dots(dot, n - p)
  {
    if p < n {
      var m := n - 1;
      CellsExtend(dot, marks, p, m);
      LettersBeyond(marks, m);
      DotsBehind(Cells(dot, marks, p), dot, n - p);
    } else {
      assert Cells(dot, marks, p) + "" == Cells(dot, marks, p);
    }
  }

  lemma LettersAppend(marks: seq<Mark>, m: Mark, c: int)
    ensures Letters(marks + [m], c) == Letters(marks, c) + (if m.col == c then [m.letter] else "")
  {
    var all := marks + [m];
    assert all[..|all| - 1] == marks;
  }

  lemma {:induction false} CellsIgnoreLater(dot: char, marks: seq<Mark>, m: Mark, n: nat)
    requires n <= m.col
    ensures Cells(dot, marks + [m], n) == Cells(dot, marks, n)
  {
    if n > 0 {
      var c := n - 1;
      CellsIgnoreLater(dot, marks, m, c);
      LettersAppend(marks, m, c);
    }
  }

  /** A letter in a fresh column: fill up with dots, then write it. */
  lemma DrawFresh(dot: char, marks: seq<Mark>, m: Mark, pos: nat)
    requires Within(marks, pos) && m.col >= pos
    ensures Cells(dot, marks + [m], m.col + 1) == Cells(dot, marks, pos) + Dots(dot, m.col - pos) + [m.letter]
  {
    CellsIgnoreLater(dot, marks, m, m.col);
    CellsExtend(dot, marks, pos, m.col);
    LettersBeyond(marks, m.col);
    LettersAppend(marks, m, m.col);
  }

  /** A letter in the column drawn last goes right behind it. */
  lemma DrawShared(dot: char, marks: seq<Mark>, m: Mark)
    requires marks != [] && marks[|marks| - 1].col == m.col
    ensures Cells(dot, marks + [m], m.col + 1) == Cells(dot, marks, m.col + 1) + [m.letter]
  {
    CellsIgnoreLater(dot, marks, m, m.col);
    LettersAppend(marks, m, m.col);
    assert Letters(marks, m.col) != "";
  }

  ghost predicate Rising(events: seq<Event>) {
    forall i, j :: 0 <= i < j < |events| ==> events[i].phase <= events[j].phase
  }

  ghost predicate Phased(events: seq<Event>, timeWidth: nat) {
    && Rising(events)
    && (forall i :: 0 <= i < |events| ==> events[i].phase < timeWidth)
  }

  datatype Pen = Pen(text: string, pos: int)

  /** Where the pen is after writing the marks one by one. */
  function Draw(dot: char, marks: seq<Mark>): Pen {
    if marks == [] then Pen("", 0)
    else
      var pen, m := Draw(dot, marks[..|marks| - 1]), marks[|marks| - 1];
      Pen(pen.text + Dots(dot, m.col - pen.pos) + [m.letter], m.col + 1)
  }

  /** No mark stands left of the one before. */
  ghost predicate Ordered(marks: seq<Mark>) {
    |marks| < 2 || (marks[|marks| - 2].col <= marks[|marks| - 1].col && Ordered(marks[..|marks| - 1]))
  }

  /** The column behind the last mark. */
  function End(marks: seq<Mark>): nat {
    if marks == [] then 0 else marks[|marks| - 1].col + 1
  }

  ghost predicate Within(marks: seq<Mark>, width: nat) {
    forall k :: 0 <= k < |marks| ==> marks[k].col < width
  }

  lemma {:induction false} OrderedWithin(marks: seq<Mark>)
    requires Ordered(marks)
    ensures Within(marks, End(marks))
  {
    if |marks| >= 2 {
      var before := marks[..|marks| - 1];
      OrderedWithin(before);
      forall k | 0 <= k < |marks| ensures marks[k].col < End(marks) {
        assert k < |before| ==> before[k] == marks[k];
      }
    }
  }

  lemma DrawStep(dot: char, marks: seq<Mark>, m: Mark)
    ensures Draw(dot, marks + [m]) ==
            var pen := Draw(dot, marks); Pen(pen.text + Dots(dot, m.col - pen.pos) + [m.letter], m.col + 1)
  {
    var all := marks + [m];
    assert all[..|all| - 1] == marks;
  }

  /** One more mark, at or behind the last column. */
  lemma DrawOne(dot: char, marks: seq<Mark>, m: Mark)
    requires Ordered(marks) && End(marks) <= m.col + 1
    ensures Cells(dot, marks + [m], m.col + 1) ==
            Cells(dot, marks, End(marks)) + Dots(dot, m.col - End(marks)) + [m.letter]
  {
    if End(marks) <= m.col {
      OrderedWithin(marks);
      DrawFresh(dot, marks, m, End(marks));
    } else {
      DrawShared(dot, marks, m);
      var text := Cells(dot, marks, End(marks));
      assert text + "" == text;
    }
  }

  /** The pen has written the columns up to the last mark. */
  ghost predicate Drawn(dot: char, marks: seq<Mark>) {
    Draw(dot, marks) == Pen(Cells(dot, marks, End(marks)), End(marks))
  }

  lemma DrawOneMore(dot: char, marks: seq<Mark>, m: Mark, all: seq<Mark>)
    requires Ordered(marks) && End(marks) <= m.col + 1 && Drawn(dot, marks) && all == marks + [m]
    ensures Drawn(dot, all)
  {
    DrawStep(dot, marks, m);
    DrawOne(dot, marks, m);
  }

  lemma {:induction false} DrawIsCells(dot: char, marks: seq<Mark>)
    requires Ordered(marks)
    ensures Drawn(dot, marks)
  {
    if marks != [] {
      var before, m := marks[..|marks| - 1], marks[|marks| - 1];
      DrawIsCells(dot, before);
      assert marks == before + [m];
      DrawOneMore(dot, before, m, marks);
    }
  }

  lemma MarksStep(ticks: seq<nat>, s: Scale, events: seq<Event>, k: nat)
    requires Record(ticks) && s.Valid() && k < |events|
    ensures var before := Marks(ticks, s, events[..k]);
            Marks(ticks, s, events[..k + 1]) ==
            if Skipped(ticks, events[k].stage) then before
            else before + [Mark(events[k].phase / s.cycle, Letter(events[k].stage))]
  {
    assert events[..k + 1] == events[..k] + [events[k]];
    MarksAppend(ticks, s, events[..k], events[k]);
  }

  lemma PhasedPrefix(events: seq<Event>, n: nat, timeWidth: nat)
    requires Phased(events, timeWidth) && n < |events|
    ensures Phased(events[..n], timeWidth) && events[n].phase < timeWidth
    ensures n > 0 ==> events[..n][n - 1].phase <= events[n].phase
  {
  }

  lemma MarksAppend(ticks: seq<nat>, s: Scale, before: seq<Event>, e: Event)
    requires Record(ticks) && s.Valid()
    ensures Marks(ticks, s, before + [e]) ==
            Marks(ticks, s, before) + (if Skipped(ticks, e.stage) then [] else [Mark(e.phase / s.cycle, Letter(e.stage))])
  {
    var events := before + [e];
    assert events[..|events| - 1] == before;
  }

  /** Ordered, and not reaching beyond the columns `end` and `width`. */
  ghost predicate Tidy(marks: seq<Mark>, end: nat, width: nat) {
    Ordered(marks) && Within(marks, width) && End(marks) <= end
  }

  lemma TidyAppend(marks: seq<Mark>, m: Mark, width: nat)
    requires Tidy(marks, m.col + 1, width) && m.col < width
    ensures Tidy(marks + [m], m.col + 1, width)
  {
    var all := marks + [m];
    assert all[..|all| - 1] == marks;
  }

  lemma TidyStep(marks: seq<Mark>, after: seq<Mark>, m: Mark, skipped: bool, end: nat, width: nat)
    requires Tidy(marks, end, width) && end <= m.col + 1 <= width
    requires after == marks + (if skipped then [] else [m])
    ensures Tidy(after, m.col + 1, width)
  {
    if skipped {
      assert after == marks;
    } else {
      TidyAppend(marks, m, width);
    }
  }

  ghost function LastColumn(s: Scale, events: seq<Event>): nat
    requires s.Valid()
  {
    if events == [] then 0 else DivMonotone(0, events[|events| - 1].phase, s.cycle); events[|events| - 1].phase / s.cycle + 1
  }

  lemma LastColumnGrows(s: Scale, before: seq<Event>, e: Event)
    requires s.Valid() && (before != [] ==> before[|before| - 1].phase <= e.phase)
    ensures LastColumn(s, before) <= e.phase / s.cycle + 1
  {
    DivMonotone(0, e.phase, s.cycle);
    if before != [] {
      DivMonotone(before[|before| - 1].phase, e.phase, s.cycle);
    }
  }

  lemma {:induction false} MarksOrdered(ticks: seq<nat>, s: Scale, events: seq<Event>)
    requires Record(ticks) && s.Valid() && Phased(events, s.TimeWidth())
    ensures Tidy(Marks(ticks, s, events), LastColumn(s, events), s.width)
  {
    if events != [] {
      var n := |events| - 1;
      var before, e := events[..n], events[n];
      PhasedPrefix(events, n, s.TimeWidth());
      MarksOrdered(ticks, s, before);
      ColumnFits(s, e.phase);
      LastColumnGrows(s, before, e);
      var m := Mark(e.phase / s.cycle, Letter(e.stage));
      MarksAppend(ticks, s, before, e);
      TidyStep(Marks(ticks, s, before), Marks(ticks, s, before + [e]), m, Skipped(ticks, e.stage), LastColumn(s, before), s.width);
      assert events == before + [e];
    }
  }

  lemma MarksFit(ticks: seq<nat>, s: Scale, events: seq<Event>)
    requires Record(ticks) && s.Valid() && Phased(events, s.TimeWidth())
    ensures Ordered(Marks(ticks, s, events)) && Within(Marks(ticks, s, events), s.width)
  {
    MarksOrdered(ticks, s, events);
  }

  /** The drawing after the first `k` events. */
  ghost function PenAfter(ticks: seq<nat>, s: Scale, events: seq<Event>, k: nat): Pen
    requires Record(ticks) && s.Valid() && k <= |events|
  {
    Draw(Dot(ticks), Marks(ticks, s, events[..k]))
  }

  lemma PenStep(ticks: seq<nat>, s: Scale, events: seq<Event>, k: nat)
    requires Record(ticks) && s.Valid() && k < |events|
    ensures var pen, col := PenAfter(ticks, s, events, k), events[k].phase / s.cycle;
            PenAfter(ticks, s, events, k + 1) ==
            if Skipped(ticks, events[k].stage) then pen
            else Pen(pen.text + Dots(Dot(ticks), col - pen.pos) + [Letter(events[k].stage)], col + 1)
  {
    MarksStep(ticks, s, events, k);
    var before, after := Marks(ticks, s, events[..k]), Marks(ticks, s, events[..k + 1]);
    if !Skipped(ticks, events[k].stage) {
      assert after[..|after| - 1] == before;
    }
  }

  /** The loop over the sorted events, lines 389-408, without the colours. */
  method DrawEvents(ticks: seq<nat>, s: Scale, events: seq<Event>) returns (text: string, pos: int)
    requires Record(ticks) && s.Valid()
    ensures Pen(text, pos) == Draw(Dot(ticks), Marks(ticks, s, events))
  {
    var dot := Dot(ticks);
    text, pos := "", 0;
    for k := 0 to |events|
      invariant Pen(text, pos) == PenAfter(ticks, s, events, k)
    {
      var event := events[k];
      PenStep(ticks, s, events, k);
      if !Skipped(ticks, event.stage) {
        var col := event.phase / s.cycle;
        text := text + Dots(dot, col - pos) + [Letter(event.stage)];
        pos := col + 1;
      }
    }
    assert events[..|events|] == events;
  }

  lemma FillUp(dot: char, marks: seq<Mark>, width: nat)
    requires Ordered(marks) && Within(marks, width)
    ensures var pen := Draw(dot, marks); pen.text + Dots(dot, width - pen.pos) == Cells(dot, marks, width)
  {
    DrawIsCells(dot, marks);
    OrderedWithin(marks);
    CellsExtend(dot, marks, End(marks), width);
  }

  lemma DrawFillsRow(dot: char, ticks: seq<nat>, s: Scale, events: seq<Event>)
    requires Record(ticks) && s.Valid() && Phased(events, s.TimeWidth())
    ensures var marks := Marks(ticks, s, events);
            var pen := Draw(dot, marks);
            pen.text + Dots(dot, s.width - pen.pos) == Cells(dot, marks, s.width)
  {
    MarksFit(ticks, s, events);
    FillUp(dot, Marks(ticks, s, events), s.width);
  }

  /** The text between the brackets of one row, lines 389-411. */
  method DrawRow(ticks: seq<nat>, s: Scale, events: seq<Event>) returns (text: string)
    requires Record(ticks) && s.Valid() && Phased(events, s.TimeWidth())
    ensures text == Cells(Dot(ticks), Marks(ticks, s, events), s.width)
  {
    var pos;
    text, pos := DrawEvents(ticks, s, events);
    DrawFillsRow(Dot(ticks), ticks, s, events);
    text := text + Dots(Dot(ticks), s.width - pos);
  }

  lemma ColumnFits(s: Scale, phase: nat)
    requires s.Valid() && phase < s.TimeWidth()
    ensures 0 <= phase / s.cycle < s.width
  {
    DivBound(phase, s.width, s.cycle);
    DivMonotone(0, phase, s.cycle);
  }

  /** `e` is the event of its stage, and that stage lies in row `i`. */
  ghost predicate Happens(ticks: seq<nat>, s: Scale, i: int, e: Event)
    requires Record(ticks) && s.Valid()
  {
    && e.stage < |ticks|
    && InRow(ticks, s, i, ticks[e.stage])
    && e == Event(ticks[e.stage] % s.TimeWidth(), e.stage, ticks[e.stage])
  }

  lemma {:induction false} EventsBelowMember(ticks: seq<nat>, s: Scale, i: int, n: nat, e: Event)
    requires Record(ticks) && s.Valid() && n <= |ticks|
    ensures e in EventsBelow(ticks, s, i, n) <==> e.stage < n && Happens(ticks, s, i, e)
  {
    if n > 0 {
      var k := n - 1;
      EventsBelowMember(ticks, s, i, k, e);
      assert Event(ticks[k] % s.TimeWidth(), k, ticks[k]) == e <==>
             e.stage == k && e == Event(ticks[e.stage] % s.TimeWidth(), e.stage, ticks[e.stage]);
    }
  }

  lemma SortedEvents(raw: seq<Event>)
    ensures Rising(Sort(EventOrder(), raw))
  {
    EventOrderOrders();
    SortSorted(EventOrder(), raw);
    var events := Sort(EventOrder(), raw);
    forall i, j | 0 <= i < j < |events| ensures events[i].phase <= events[j].phase {
      assert EventOrder()(events[i], events[j]);
    }
  }

  lemma SortedMember(raw: seq<Event>, e: Event)
    ensures e in Sort(EventOrder(), raw) <==> e in raw
  {
    SortPermutes(EventOrder(), raw);
    assert e in multiset(Sort(EventOrder(), raw)) <==> e in multiset(raw);
  }

  /** The events of a row are its stages. */
  lemma RowEventsMember(ticks: seq<nat>, s: Scale, i: int, e: Event)
    requires Record(ticks) && s.Valid()
    ensures e in RowEvents(ticks, s, i) <==> Happens(ticks, s, i, e)
  {
    EventsBelowMember(ticks, s, i, |ticks|, e);
    SortedMember(EventsBelow(ticks, s, i, |ticks|), e);
  }

  /** They are drawn in the order of their position on the row. */
  lemma RowEventsPhased(ticks: seq<nat>, s: Scale, i: int)
    requires Record(ticks) && s.Valid()
    ensures Phased(RowEvents(ticks, s, i), s.TimeWidth())
  {
    var events := RowEvents(ticks, s, i);
    SortedEvents(EventsBelow(ticks, s, i, |ticks|));
    forall k | 0 <= k < |events| ensures events[k].phase < s.TimeWidth() {
      assert events[k] in events;
      RowEventsMember(ticks, s, i, events[k]);
    }
  }

  /** Lines 374-387. */
  method CollectEvents(ticks: seq<nat>, s: Scale, i: int) returns (events: seq<Event>)
    requires Record(ticks) && s.Valid()
    ensures events == RowEvents(ticks, s, i)
  {
    events := [];
    var start, end := StartTick(ticks, s, i), EndTick(ticks, s, i);
    for k := 0 to |ticks|
      invariant events == EventsBelow(ticks, s, i, k)
    {
      var tick := ticks[k];
      if tick != 0 {
        if start <= tick < end {
          events := events + [Event(tick % s.TimeWidth(), k, tick)];
        }
      }
    }
    events := Sort(EventOrder(), events);
  }

  /** The rows from the first on, each with the tick it starts at. */
  ghost predicate AreRows(ticks: seq<nat>, s: Scale, rows: seq<(string, int)>)
    requires Record(ticks) && s.Valid()
  {
    forall i :: 0 <= i < |rows| ==> rows[i] == (Row(ticks, s, i), StartTick(ticks, s, i))
  }

  lemma RowsGrow(ticks: seq<nat>, s: Scale, rows: seq<(string, int)>, text: string)
    requires Record(ticks) && s.Valid() && AreRows(ticks, s, rows) && text == Row(ticks, s, |rows|)
    ensures AreRows(ticks, s, rows + [(text, StartTick(ticks, s, |rows|))])
  {
  }

  /** `print_inst`: the rows drawn for an instruction, each with the tick printed behind it. */
  method PrintInst(ticks: seq<nat>, s: Scale) returns (r: Result<seq<(string, int)>, Error>)
    requires Record(ticks) && s.Valid()
    ensures r.Err? <==> Compact(ticks, s) && RowEvents(ticks, s, 0) == []
    ensures r.Ok? ==> |r.value| == NumLines(ticks, s) && AreRows(ticks, s, r.value)
  {
    OneLineIffCompact(ticks, s);
    var n := NumLines(ticks, s);
    var rows: seq<(string, int)> := [];
    for i := 0 to n
      invariant |rows| == i && AreRows(ticks, s, rows)
      invariant i > 0 && n == 1 ==> RowEvents(ticks, s, 0) != []
    {
      var events := CollectEvents(ticks, s, i);
      if n == 1 && events == [] {
        return Err(IndexError);
      }
      RowEventsPhased(ticks, s, i);
      var text := DrawRow(ticks, s, events);
      RowsGrow(ticks, s, rows, text);
      rows := rows + [(text, StartTick(ticks, s, i))];
    }
    return Ok(rows);
  }

  // ---------- Where the stages end up ----------

  /** There is one row exactly in the compact form. */
  lemma OneLineIffCompact(ticks: seq<nat>, s: Scale)
    requires Record(ticks) && s.Valid()
    ensures NumLines(ticks, s) == 1 <==> Compact(ticks, s)
    ensures NumLines(ticks, s) >= 1
  {
    var w, base := s.TimeWidth(), BaseTick(ticks, s);
    DivRange(ticks[0], w);
    if !Compact(ticks, s) {
      DivBound(Latest(ticks) - base, 1, w);
    }
  }

  function RowOf(ticks: seq<nat>, s: Scale, tick: int): int
    requires Record(ticks) && s.Valid()
  {
    if Compact(ticks, s) then 0 else (tick - BaseTick(ticks, s)) / s.TimeWidth()
  }

  /** A stage at or after fetch falls in exactly one of the rows. */
  lemma ExactlyOneRow(ticks: seq<nat>, s: Scale, k: nat, i: int)
    requires Record(ticks) && s.Valid() && k < |ticks| && ticks[k] != 0 && ticks[k] >= ticks[0]
    ensures 0 <= i < NumLines(ticks, s) && InRow(ticks, s, i, ticks[k]) <==> i == RowOf(ticks, s, ticks[k])
  {
    var w, base, t := s.TimeWidth(), BaseTick(ticks, s), ticks[k];
    OneLineIffCompact(ticks, s);
    DivRange(ticks[0], w);
    if Compact(ticks, s) {
      if i == 0 {
        assert StartTick(ticks, s, 0) == base;
      }
    } else {
      DivUnique(t - base, w, i);
      DivMonotone(0, t - base, w);
      DivMonotone(t - base, Latest(ticks) - base, w);
      assert (i + 1) * w == i * w + w;
    }
  }

  /** With a fetch tick there is always something to draw, so printing never fails. */
  lemma FetchedNeverFails(ticks: seq<nat>, s: Scale)
    requires Record(ticks) && s.Valid() && ticks[0] > 0
    ensures !(Compact(ticks, s) && RowEvents(ticks, s, 0) == [])
  {
    if Compact(ticks, s) {
      ExactlyOneRow(ticks, s, 0, 0);
      RowEventsMember(ticks, s, 0, Event(ticks[0] % s.TimeWidth(), 0, ticks[0]));
    }
  }

  ghost predicate Writes(ticks: seq<nat>, s: Scale, e: Event, c: int, ch: char)
    requires Record(ticks) && s.Valid()
  {
    !Skipped(ticks, e.stage) && e.phase / s.cycle == c && Letter(e.stage) == ch
  }

  lemma {:induction false} LettersFacts(ticks: seq<nat>, s: Scale, events: seq<Event>, c: int, ch: char)
    requires Record(ticks) && s.Valid()
    ensures ch in Letters(Marks(ticks, s, events), c) <==> exists e :: e in events && Writes(ticks, s, e, c, ch)
  {
    if events != [] {
      var n := |events| - 1;
      var before, e := events[..n], events[n];
      LettersFacts(ticks, s, before, c, ch);
      assert events == before + [e];
      var marks, all := Marks(ticks, s, before), Marks(ticks, s, events);
      if Skipped(ticks, e.stage) {
        assert all == marks;
      } else {
        assert all[..|marks|] == marks;
      }
      assert ch in Letters(all, c) <==> ch in Letters(marks, c) || Writes(ticks, s, e, c, ch);
    }
  }

  lemma StageLetters()
    ensures forall k: Stage :: Letter(k) == "fdnpicrs"[k]
  {
  }

  /** The tick falls into row `i`, in numbers: rows of `w` ticks follow each other from the last multiple of
      `w` before fetch; a compact instruction has a single row that reaches a full `w` beyond fetch. */
  lemma RowMeans(ticks: seq<nat>, s: Scale, i: int, tick: int, w: nat)
    requires Record(ticks) && s.Valid() && w == s.width * s.cycle && w > 0
    ensures var base := ticks[0] / w * w;
            var oneRow := forall k :: 0 <= k < |ticks| ==> ticks[k] - ticks[0] < w;
            InRow(ticks, s, i, tick) <==>
              tick != 0 && base + i * w <= tick < base + i * w + w + (if oneRow then ticks[0] - base else 0)
  {
    OneLineIffCompact(ticks, s);
    CompactIff(ticks, s, w);
  }

  lemma CompactIff(ticks: seq<nat>, s: Scale, w: nat)
    requires Record(ticks) && s.Valid() && w == s.width * s.cycle
    ensures Compact(ticks, s) <==> forall k :: 0 <= k < |ticks| ==> ticks[k] - ticks[0] < w
  {
    var k :| 0 <= k < |ticks| && ticks[k] == Latest(ticks);
  }

  /** A longer instruction has as many rows as it takes to reach its last stage, and no more. */
  lemma RowsReachLatest(ticks: seq<nat>, s: Scale, w: nat, n: int)
    requires Record(ticks) && s.Valid() && w == s.width * s.cycle && w > 0
    requires n == NumLines(ticks, s) && exists k :: 0 <= k < |ticks| && ticks[k] - ticks[0] >= w
    ensures forall k :: 0 <= k < |ticks| ==> ticks[k] < ticks[0] / w * w + n * w
    ensures exists k :: 0 <= k < |ticks| && ticks[k] >= ticks[0] / w * w + (n - 1) * w
  {
    CompactIff(ticks, s, w);
    var base := ticks[0] / w * w;
    DivUnique(Latest(ticks) - base, w, n - 1);
    var k :| 0 <= k < |ticks| && ticks[k] == Latest(ticks);
  }

  lemma {:induction false} NoLetters(ticks: seq<nat>, s: Scale, events: seq<Event>, c: int)
    requires Record(ticks) && s.Valid()
    requires forall e :: e in events ==> Skipped(ticks, e.stage) || e.phase / s.cycle != c
    ensures Letters(Marks(ticks, s, events), c) == ""
  {
    if events != [] {
      var n := |events| - 1;
      var before, e := events[..n], events[n];
      NoLetters(ticks, s, before, c);
      assert e in events && events == before + [e];
      MarksAppend(ticks, s, before, e);
      var marks := Marks(ticks, s, before);
      if Skipped(ticks, e.stage) {
        assert marks + [] == marks;
      } else {
        LettersAppend(marks, Mark(e.phase / s.cycle, Letter(e.stage)), c);
      }
    }
  }

  /** A column into which no drawn stage falls shows one dot: `=` for an instruction that never retired,
      `.` otherwise. */
  lemma DotPlacement(ticks: seq<nat>, s: Scale, i: int, c: int)
    requires Record(ticks) && s.Valid()
    requires forall k: Stage :: k < |ticks| && InRow(ticks, s, i, ticks[k]) && !(k == 3 && ticks[3] == ticks[4]) ==>
               ticks[k] % s.TimeWidth() / s.cycle != c
    ensures Cell(Dot(ticks), Marks(ticks, s, RowEvents(ticks, s, i)), c) == if ticks[6] == 0 then "=" else "."
  {
    var events := RowEvents(ticks, s, i);
    forall e | e in events ensures Skipped(ticks, e.stage) || e.phase / s.cycle != c {
      RowEventsMember(ticks, s, i, e);
    }
    NoLetters(ticks, s, events, c);
  }

  /** Stages are drawn by their place on the row and, in the same place, by their names. */
  lemma DrawingOrder(ticks: seq<nat>, s: Scale, i: int, j: nat, k: nat)
    requires Record(ticks) && s.Valid() && j < k < |RowEvents(ticks, s, i)|
    ensures var a, b := RowEvents(ticks, s, i)[j], RowEvents(ticks, s, i)[k];
            var names := ["fetch", "decode", "rename", "dispatch", "issue", "complete", "retire", "store"];
            a.phase < b.phase || (a.phase == b.phase && StrLe(names[a.stage], names[b.stage]))
  {
    var events := RowEvents(ticks, s, i);
    EventOrderOrders();
    SortSorted(EventOrder(), EventsBelow(ticks, s, i, |ticks|));
    assert EventOrder()(events[j], events[k]);
    StageNames();
    StrLeReflexive(Name(events[j].stage));
  }

  lemma StageNames()
    ensures forall k: Stage ::
              Name(k) == ["fetch", "decode", "rename", "dispatch", "issue", "complete", "retire", "store"][k]
  {
  }

  /** Column `c` of row `i` shows a letter exactly when a drawn stage with that letter lies in the row
      and its tick, taken modulo the row, falls into that cycle. */
  lemma LetterPlacement(ticks: seq<nat>, s: Scale, i: int, c: int, ch: char)
    requires Record(ticks) && s.Valid()
    ensures ch in Letters(Marks(ticks, s, RowEvents(ticks, s, i)), c) <==>
            exists k: Stage :: k < |ticks| && InRow(ticks, s, i, ticks[k]) && !(k == 3 && ticks[3] == ticks[4]) &&
                               ticks[k] % s.TimeWidth() / s.cycle == c && "fdnpicrs"[k] == ch
  {
    StageLetters();
    var events := RowEvents(ticks, s, i);
    LettersFacts(ticks, s, events, c, ch);
    if e :| e in events && Writes(ticks, s, e, c, ch) {
      RowEventsMember(ticks, s, i, e);
    }
    if k: Stage :| k < |ticks| && InRow(ticks, s, i, ticks[k]) && !(k == 3 && ticks[3] == ticks[4]) &&
                   ticks[k] % s.TimeWidth() / s.cycle == c && "fdnpicrs"[k] == ch
    {
      var e := Event(ticks[k] % s.TimeWidth(), k, ticks[k]);
      RowEventsMember(ticks, s, i, e);
      assert Writes(ticks, s, e, c, ch);
    }
  }

  /** How many marks share their column with the one drawn before. */
  function Shared(marks: seq<Mark>): nat {
    if |marks| < 2 then 0
    else Shared(marks[..|marks| - 1]) + (if marks[|marks| - 1].col == marks[|marks| - 2].col then 1 else 0)
  }

  lemma {:induction false} DotsLength(dot: char, n: int)
    ensures |Dots(dot, n)| == if n <= 0 then 0 else n
  {
    if n > 0 {
      DotsLength(dot, n - 1);
    }
  }

  lemma {:induction false} DrawLength(dot: char, marks: seq<Mark>)
    requires Ordered(marks)
    ensures Draw(dot, marks).pos == End(marks)
    ensures |Draw(dot, marks).text| == Draw(dot, marks).pos + Shared(marks)
  {
    if marks != [] {
      var before, m := marks[..|marks| - 1], marks[|marks| - 1];
      DrawLength(dot, before);
      DotsLength(dot, m.col - Draw(dot, before).pos);
    }
  }

  lemma FilledLength(dot: char, marks: seq<Mark>, width: nat)
    requires Ordered(marks) && Within(marks, width)
    ensures |Cells(dot, marks, width)| == width + Shared(marks)
  {
    FillUp(dot, marks, width);
    DrawLength(dot, marks);
    OrderedWithin(marks);
    assert End(marks) <= width;
    PenLength(dot, Draw(dot, marks), width, Shared(marks), Cells(dot, marks, width));
  }

  lemma PenLength(dot: char, pen: Pen, width: nat, shared: nat, cells: string)
    requires pen.pos <= width && |pen.text| == pen.pos + shared && pen.text + Dots(dot, width - pen.pos) == cells
    ensures |cells| == width + shared
  {
    DotsLength(dot, width - pen.pos);
  }

  lemma CellsLength(dot: char, ticks: seq<nat>, s: Scale, events: seq<Event>)
    requires Record(ticks) && s.Valid() && Phased(events, s.TimeWidth())
    ensures |Cells(dot, Marks(ticks, s, events), s.width)| == s.width + Shared(Marks(ticks, s, events))
  {
    MarksFit(ticks, s, events);
    FilledLength(dot, Marks(ticks, s, events), s.width);
  }

  /** A row is as long as the timeline plus one for each letter that shares a column with the one before. */
  lemma RowLength(ticks: seq<nat>, s: Scale, i: int)
    requires Record(ticks) && s.Valid()
    ensures |Row(ticks, s, i)| == s.width + Shared(Marks(ticks, s, RowEvents(ticks, s, i)))
  {
    RowEventsPhased(ticks, s, i);
    CellsLength(Dot(ticks), ticks, s, RowEvents(ticks, s, i));
  }
}
