/** Which dependency records survive printing and parsing. */
module DepTraceCodec {
  import opened Wrappers
  import opened Text
  import opened DepTrace

  /** The record that parsing is expected to give: defaults filled in. */
  function Filled(r: Record): Record {
    r.(seqNum := Some(Or(r.seqNum, 0)), pc := Some(Or(r.pc, 0)), weight := Some(Or(r.weight, 1)),
       compDelay := Some(Or(r.compDelay, 0)))
  }

  /** A memory access with all its memory fields or a computation with none, and nothing the text cannot hold. */
  predicate Faithful(r: Record) {
    && r.vAddr.None? && r.asid.None?
    && (if r.kind == LOAD || r.kind == STORE then r.pAddr.Some? && r.size.Some? && r.flags.Some?
        else r.kind == COMP && r.pAddr.None? && r.size.None? && r.flags.None?)
  }

  // ---------- The text as lists of fields ----------

  ghost predicate Clean(s: string) {
    NoSpace(s) && Free(s, ',') && Free(s, ':')
  }

  lemma DecimalClean(n: nat)
    ensures Clean(Decimal(n)) && Decimal(n) != []
  {
    DecimalFacts(n);
    DigitsAreClean(Decimal(n), ',');
    DigitsAreClean(Decimal(n), ':');
  }

  function Optional(f: Option<nat>): seq<string> {
    if f.Some? then [Decimal(f.value)] else []
  }

  function InfoFields(r: Record): seq<string> {
    [Decimal(Or(r.seqNum, 0)), Decimal(Or(r.pc, 0)), Decimal(Or(r.weight, 1)), TypeName(r.kind)] +
    Optional(r.pAddr) + Optional(r.size) + Optional(r.flags) + [Decimal(Or(r.compDelay, 0))]
  }

  lemma {:induction false} JoinAppend(parts: seq<string>, last: string, sep: char)
    requires |parts| >= 1
    ensures Join(parts + [last], sep) == Join(parts, sep) + [sep] + last
  {
    if |parts| == 1 {
      assert (parts + [last])[1..] == [last];
    } else {
      assert (parts + [last])[1..] == parts[1..] + [last];
      JoinAppend(parts[1..], last, sep);
    }
  }

  lemma JoinOptional(parts: seq<string>, f: Option<nat>)
    requires |parts| >= 1
    ensures Join(parts + Optional(f), ',') == Join(parts, ',') + OptionalText(f)
  {
    if f.Some? {
      JoinAppend(parts, Decimal(f.value), ',');
    } else {
      assert parts + [] == parts;
    }
  }

  lemma JoinFour(a: string, b: string, c: string, d: string)
    ensures Join([a, b, c, d], ',') == a + "," + b + "," + c + "," + d
  {
    JoinAppend([a], b, ',');
    JoinAppend([a, b], c, ',');
    JoinAppend([a, b, c], d, ',');
    assert [a] + [b] == [a, b] && [a, b] + [c] == [a, b, c] && [a, b, c] + [d] == [a, b, c, d];
  }

  lemma InfoIsJoined(r: Record)
    ensures InfoText(r) == Join(InfoFields(r), ',')
  {
    var a, b, c, d := Decimal(Or(r.seqNum, 0)), Decimal(Or(r.pc, 0)), Decimal(Or(r.weight, 1)), TypeName(r.kind);
    var four := [a, b, c, d];
    JoinFour(a, b, c, d);
    JoinOptional(four, r.pAddr);
    JoinOptional(four + Optional(r.pAddr), r.size);
    JoinOptional(four + Optional(r.pAddr) + Optional(r.size), r.flags);
    JoinAppend(four + Optional(r.pAddr) + Optional(r.size) + Optional(r.flags), Decimal(Or(r.compDelay, 0)), ',');
  }

  lemma InfoFieldsClean(r: Record)
    ensures forall i :: 0 <= i < |InfoFields(r)| ==> Clean(InfoFields(r)[i])
  {
    DecimalClean(Or(r.seqNum, 0));
    DecimalClean(Or(r.pc, 0));
    DecimalClean(Or(r.weight, 1));
    DecimalClean(Or(r.compDelay, 0));
    DecimalClean(Or(r.pAddr, 0));
    DecimalClean(Or(r.size, 0));
    DecimalClean(Or(r.flags, 0));
    TypeNameClean(r.kind);
  }

  lemma TypeNameClean(k: RecordType)
    ensures Clean(TypeName(k))
  {
  }

  function Decimals(deps: seq<nat>): seq<string> {
    if deps == [] then [] else Decimals(deps[..|deps| - 1]) + [Decimal(deps[|deps| - 1])]
  }

  lemma {:induction false} DepsAreJoined(deps: seq<nat>)
    ensures DepText(deps) == Join([""] + Decimals(deps), ',')
    ensures forall i :: 0 <= i < |[""] + Decimals(deps)| ==> Clean(([""] + Decimals(deps))[i])
  {
    if deps == [] {
      assert [""] + [] == [""];
    } else {
      var before, d := deps[..|deps| - 1], deps[|deps| - 1];
      DepsAreJoined(before);
      DecimalClean(d);
      var parts := [""] + Decimals(before);
      assert [""] + Decimals(deps) == parts + [Decimal(d)];
      JoinAppend(parts, Decimal(d), ',');
    }
  }

  lemma JoinedFacts(parts: seq<string>)
    requires |parts| >= 1 && forall i :: 0 <= i < |parts| ==> Clean(parts[i])
    ensures Split(Join(parts, ','), ',') == parts
    ensures NoSpace(Join(parts, ',')) && Free(Join(parts, ','), ':')
  {
    SplitJoin(parts, ',');
    JoinFree(parts, ',', ':');
    JoinNoSpace(parts, ',');
  }

  // ---------- Reading the fields back ----------

  lemma FieldOfDecimal(info: seq<string>, i: nat, limit: nat, n: nat)
    requires i < |info| && info[i] == Decimal(n) && n < limit
    ensures Field(info, i, limit) == Ok(n)
  {
    ParseDecimal(n);
  }

  lemma DepsAppend(parts: seq<string>, deps: seq<nat>, n: nat)
    requires Deps(parts) == Ok(deps) && n < U64
    ensures Deps(parts + [Decimal(n)]) == Ok(deps + [n])
  {
    var more := parts + [Decimal(n)];
    assert more[..|more| - 1] == parts;
    DecimalClean(n);
    FieldOfDecimal(more, |more| - 1, U64, n);
  }

  lemma {:induction false} DepsOfDecimals(deps: seq<nat>)
    requires AllBelow(deps, U64)
    ensures Deps([""] + Decimals(deps)) == Ok(deps)
  {
    if deps == [] {
      assert [""] + [] == [""] && [""][..0] == [];
    } else {
      var n := |deps| - 1;
      var before := deps[..n];
      DepsOfDecimals(before);
      DepsAppend([""] + Decimals(before), before, deps[n]);
      assert [""] + Decimals(deps) == [""] + Decimals(before) + [Decimal(deps[n])];
      assert before + [deps[n]] == deps;
    }
  }

  lemma CompParsed(r: Record)
    requires Fits(r) && Faithful(r) && r.kind == COMP
    ensures ParseInfo(InfoFields(r)) == Ok(Filled(r).(robDep := [], regDep := []))
  {
    var info := InfoFields(r);
    assert |info| == 5;
    FieldOfDecimal(info, 0, U64, Or(r.seqNum, 0));
    FieldOfDecimal(info, 1, U64, Or(r.pc, 0));
    FieldOfDecimal(info, 2, U32, Or(r.weight, 1));
    FieldOfDecimal(info, 4, U64, Or(r.compDelay, 0));
    assert TypeOf(info[3]) == Ok(COMP);
  }

  lemma MemoryParsed(r: Record)
    requires Fits(r) && Faithful(r) && r.kind != COMP
    ensures ParseInfo(InfoFields(r)) == Ok(Filled(r).(robDep := [], regDep := []))
  {
    var info := InfoFields(r);
    assert |info| == 8;
    FieldOfDecimal(info, 0, U64, Or(r.seqNum, 0));
    FieldOfDecimal(info, 1, U64, Or(r.pc, 0));
    FieldOfDecimal(info, 2, U32, Or(r.weight, 1));
    FieldOfDecimal(info, 4, U64, r.pAddr.value);
    FieldOfDecimal(info, 5, U32, r.size.value);
    FieldOfDecimal(info, 6, U32, r.flags.value);
    FieldOfDecimal(info, 7, U64, Or(r.compDelay, 0));
    assert TypeOf(info[3]) == Ok(r.kind);
  }

  lemma DepTextFacts(deps: seq<nat>)
    ensures Split(DepText(deps), ',') == [""] + Decimals(deps)
    ensures NoSpace(DepText(deps)) && Free(DepText(deps), ':')
  {
    DepsAreJoined(deps);
    JoinedFacts([""] + Decimals(deps));
  }

  lemma InfoTextFacts(r: Record)
    ensures Split(InfoText(r), ',') == InfoFields(r)
    ensures NoSpace(InfoText(r)) && Free(InfoText(r), ':')
  {
    InfoIsJoined(r);
    InfoFieldsClean(r);
    JoinedFacts(InfoFields(r));
  }

  lemma LineNoSpace(r: Record)
    ensures NoSpace(Line(r)) && Line(r) != []
  {
    InfoTextFacts(r);
    DepTextFacts(r.robDep);
    DepTextFacts(r.regDep);
  }

  lemma LineSplits(r: Record)
    ensures Strip(Line(r) + "\n") == Line(r)
    ensures Split(Line(r), ':') == [InfoText(r), DepText(r.robDep), DepText(r.regDep)]
    ensures Strip(DepText(r.robDep)) == DepText(r.robDep)
  {
    InfoTextFacts(r);
    DepTextFacts(r.robDep);
    DepTextFacts(r.regDep);
    StripNothing(DepText(r.robDep));
    ThreeParts(InfoText(r), DepText(r.robDep), DepText(r.regDep));
    LineNoSpace(r);
    StripNewline(Line(r));
  }

  lemma ThreeParts(a: string, b: string, c: string)
    requires Free(a, ':') && Free(b, ':') && Free(c, ':')
    ensures Split(a + ":" + b + ":" + c, ':') == [a, b, c]
  {
    SplitPart(c, "", ':');
    SplitPart(b, c, ':');
    SplitPart(a, b + ":" + c, ':');
    assert a + ":" + b + ":" + c == a + [':'] + (b + [':'] + c);
  }

  /** A faithful record comes back with its defaults filled in, both dependency lists in order. */
  lemma FaithfulRoundTrip(r: Record)
    requires Fits(r) && Faithful(r)
    ensures Parse(Line(r) + "\n") == Ok(Filled(r))
  {
    LineSplits(r);
    InfoTextFacts(r);
    DepTextFacts(r.robDep);
    DepTextFacts(r.regDep);
    if r.kind == COMP { CompParsed(r); } else { MemoryParsed(r); }
    DepsOfDecimals(r.robDep);
    DepsOfDecimals(r.regDep);
  }

  lemma InfoIsFaithful(info: seq<string>)
    requires ParseInfo(info).Ok?
    ensures Faithful(ParseInfo(info).value)
  {
  }

  /** Whatever the parser accepts is faithful. */
  lemma ParsedIsFaithful(line: string)
    requires Parse(line).Ok?
    ensures Faithful(Parse(line).value)
  {
    InfoIsFaithful(Split(Split(Strip(line), ':')[0], ','));
  }

  /** Printing and parsing gives a record back exactly when it is faithful. */
  lemma RoundTripIff(r: Record)
    requires Fits(r)
    ensures Parse(Line(r) + "\n") == Ok(Filled(r)) <==> Faithful(r)
  {
    if Faithful(r) {
      FaithfulRoundTrip(r);
    } else if Parse(Line(r) + "\n") == Ok(Filled(r)) {
      ParsedIsFaithful(Line(r) + "\n");
    }
  }

  // ---------- Whole files ----------

  /** Iterating over a text file: each line with its newline. */
  function Lines(text: string): seq<string> {
    if text == [] then []
    else
      var n := LineEnd(text);
      [text[..n]] + Lines(text[n..])
  }

  function LineEnd(text: string): (n: nat)
    requires text != []
    ensures 0 < n <= |text|
  {
    if text[0] == '\n' || |text| == 1 then 1 else 1 + LineEnd(text[1..])
  }

  function PrintAll(records: seq<Record>): string {
    if records == [] then "" else Line(records[0]) + "\n" + PrintAll(records[1..])
  }

  function ParseAll(lines: seq<string>): Result<seq<Record>, ParseError> {
    if lines == [] then Ok([])
    else
      var r :- Parse(lines[0]);
      var rest :- ParseAll(lines[1..]);
      Ok([r] + rest)
  }

  function FilledAll(records: seq<Record>): seq<Record> {
    if records == [] then [] else [Filled(records[0])] + FilledAll(records[1..])
  }

  lemma {:induction false} FirstLine(line: string, rest: string)
    requires Free(line, '\n')
    ensures LineEnd(line + "\n" + rest) == |line| + 1
  {
    if line == [] {
      assert (line + "\n" + rest)[0] == '\n';
    } else {
      assert (line + "\n" + rest)[1..] == line[1..] + "\n" + rest;
      FirstLine(line[1..], rest);
    }
  }

  lemma LineHasNoNewline(r: Record)
    ensures Free(Line(r), '\n')
  {
    LineNoSpace(r);
  }

  /** A trace of faithful records survives printing and parsing as a whole. */
  lemma {:induction false} TraceRoundTrip(records: seq<Record>)
    requires forall i :: 0 <= i < |records| ==> Fits(records[i]) && Faithful(records[i])
    ensures ParseAll(Lines(PrintAll(records))) == Ok(FilledAll(records))
  {
    if records != [] {
      var r, rest := records[0], PrintAll(records[1..]);
      var text := Line(r) + "\n" + rest;
      LineHasNoNewline(r);
      FirstLine(Line(r), rest);
      assert text[..|Line(r)| + 1] == Line(r) + "\n" && text[|Line(r)| + 1..] == rest;
      FaithfulRoundTrip(r);
      TraceRoundTrip(records[1..]);
      assert Lines(text)[1..] == Lines(rest);
    }
  }
}
