/** The ASCII form of instruction dependency records: printed by gem5/util/decode_inst_dep_trace.py:164-215,
    parsed by gem5/util/encode_inst_dep_trace.py:157-208. */
module DepTrace {
  import opened Wrappers
  import opened Text

  datatype RecordType = INVALID | LOAD | STORE | COMP

  /** The message of gem5/src/proto/inst_dep_record.proto; an optional field may be absent. */
  datatype Record = Record(
    seqNum: Option<nat>, kind: RecordType, pAddr: Option<nat>, size: Option<nat>, flags: Option<nat>,
    robDep: seq<nat>, compDelay: Option<nat>, regDep: seq<nat>, weight: Option<nat>, pc: Option<nat>,
    vAddr: Option<nat>, asid: Option<nat>)

  datatype ParseError = ValueError | IndexError | UnsupportedType | InvalidType

  const U32: nat := 0x1_0000_0000
  const U64: nat := 0x1_0000_0000_0000_0000

  predicate Below(f: Option<nat>, limit: nat) {
    f.None? || f.value < limit
  }

  ghost predicate AllBelow(s: seq<nat>, limit: nat) {
    forall i :: 0 <= i < |s| ==> s[i] < limit
  }

  /** The widths that the message declares. */
  ghost predicate Fits(r: Record) {
    && Below(r.seqNum, U64) && Below(r.pAddr, U64) && Below(r.compDelay, U64) && Below(r.pc, U64) && Below(r.vAddr, U64)
    && Below(r.size, U32) && Below(r.flags, U32) && Below(r.weight, U32) && Below(r.asid, U32)
    && AllBelow(r.robDep, U64) && AllBelow(r.regDep, U64)
  }

  function Or(f: Option<nat>, default: nat): nat {
    if f.Some? then f.value else default
  }

  function TypeName(k: RecordType): string {
    match k
    case INVALID => "INVALID"
    case LOAD => "LOAD"
    case STORE => "STORE"
    case COMP => "COMP"
  }

  // ---------- Printing ----------

  function OptionalText(f: Option<nat>): string {
    if f.Some? then "," + Decimal(f.value) else ""
  }

  /** Everything in front of the first colon. */
  function InfoText(r: Record): string {
    Decimal(Or(r.seqNum, 0)) + "," + Decimal(Or(r.pc, 0)) + "," + Decimal(Or(r.weight, 1)) + "," + TypeName(r.kind) +
    OptionalText(r.pAddr) + OptionalText(r.size) + OptionalText(r.flags) + "," + Decimal(Or(r.compDelay, 0))
  }

  /** A dependency list: each number behind a comma. */
  function DepText(deps: seq<nat>): string {
    if deps == [] then "" else DepText(deps[..|deps| - 1]) + "," + Decimal(deps[|deps| - 1])
  }

  function Line(r: Record): string {
    InfoText(r) + ":" + DepText(r.robDep) + ":" + DepText(r.regDep)
  }

  method PrintDeps(deps: seq<nat>) returns (text: string)
    ensures text == DepText(deps)
  {
    text := "";
    for k := 0 to |deps|
      invariant text == DepText(deps[..k])
    {
      text := text + "," + Decimal(deps[k]);
      assert deps[..k + 1][..k] == deps[..k];
    }
    assert deps[..|deps|] == deps;
  }

  /** Lines 167-215 of the decoder: one record, written piece by piece. */
  method PrintRecord(r: Record) returns (text: string)
    ensures text == Line(r) + "\n"
  {
    text := Decimal(Or(r.seqNum, 0));
    text := text + "," + (if r.pc.Some? then Decimal(r.pc.value) else "0");
    text := text + "," + (if r.weight.Some? then Decimal(r.weight.value) else "1");
    text := text + "," + TypeName(r.kind);
    text := text + (if r.pAddr.Some? then "," + Decimal(r.pAddr.value) else "");
    text := text + (if r.size.Some? then "," + Decimal(r.size.value) else "");
    text := text + (if r.flags.Some? then "," + Decimal(r.flags.value) else "");
    text := text + "," + Decimal(Or(r.compDelay, 0));
    assert text == InfoText(r);
    var rob := PrintDeps(r.robDep);
    text := text + ":" + rob;
    var reg := PrintDeps(r.regDep);
    text := text + ":" + reg;
    text := text + "\n";
  }

  // ---------- Parsing ----------

  function Field(info: seq<string>, i: nat, limit: nat): Result<nat, ParseError> {
    if i >= |info| then Err(IndexError)
    else
      match ParseInt(info[i])
      case None => Err(ValueError)
      case Some(v) => if 0 <= v < limit then Ok(v) else Err(ValueError)
  }

  function TypeOf(name: string): Result<RecordType, ParseError> {
    if name == "LOAD" then Ok(LOAD)
    else if name == "STORE" then Ok(STORE)
    else if name == "COMP" then Ok(COMP)
    else if name == "INVALID" then Err(InvalidType)
    else Err(UnsupportedType)
  }

  /** The numbers among the parts; empty parts are skipped. */
  function Deps(parts: seq<string>): Result<seq<nat>, ParseError> {
    if parts == [] then Ok([])
    else
      var before :- Deps(parts[..|parts| - 1]);
      if parts[|parts| - 1] == "" then Ok(before)
      else
        var d :- Field(parts, |parts| - 1, U64);
        Ok(before + [d])
  }

  /** The fields in front of the first colon; the dependencies are filled in later. */
  function ParseInfo(info: seq<string>): Result<Record, ParseError> {
    var seqNum :- Field(info, 0, U64);
    var pc :- Field(info, 1, U64);
    var weight :- Field(info, 2, U32);
    if |info| < 4 then Err(IndexError)
    else
      var kind :- TypeOf(info[3]);
      if kind == COMP then
        var compDelay :- Field(info, 4, U64);
        Ok(Record(Some(seqNum), kind, None, None, None, [], Some(compDelay), [], Some(weight), Some(pc), None, None))
      else if |info| < 8 then Err(ValueError)
      else
        var pAddr :- Field(info, 4, U64);
        var size :- Field(info, 5, U32);
        var flags :- Field(info, 6, U32);
        var compDelay :- Field(info, 7, U64);
        Ok(Record(Some(seqNum), kind, Some(pAddr), Some(size), Some(flags), [], Some(compDelay), [],
                  Some(weight), Some(pc), None, None))
  }

  function Parse(line: string): Result<Record, ParseError> {
    var fields := Split(Strip(line), ':');
    if |fields| != 3 then Err(ValueError)
    else
      var r :- ParseInfo(Split(fields[0], ','));
      var rob :- Deps(Split(Strip(fields[1]), ','));
      var reg :- Deps(Split(fields[2], ','));
      Ok(r.(robDep := rob, regDep := reg))
  }

  method ParseDeps(parts: seq<string>) returns (r: Result<seq<nat>, ParseError>)
    ensures r == Deps(parts)
  {
    var deps: seq<nat> := [];
    for k := 0 to |parts|
      invariant Deps(parts[..k]) == Ok(deps)
    {
      assert parts[..k + 1][..k] == parts[..k];
      if parts[k] != "" {
        var d := Field(parts, k, U64);
        if d.Err? {
          DepsFail(parts, k + 1, |parts|, d.error);
          assert parts[..|parts|] == parts;
          return Err(d.error);
        }
        deps := deps + [d.value];
      }
    }
    assert parts[..|parts|] == parts;
    return Ok(deps);
  }

  lemma {:induction false} DepsFail(parts: seq<string>, j: nat, k: nat, e: ParseError)
    requires j <= k <= |parts| && Deps(parts[..j]) == Err(e)
    ensures Deps(parts[..k]) == Err(e)
  {
    if j < k {
      DepsFail(parts, j, k - 1, e);
      assert parts[..k][..k - 1] == parts[..k - 1];
    }
  }

  /** One line of the encoder's loop, lines 158-206. */
  method ParseRecord(line: string) returns (r: Result<Record, ParseError>)
    ensures r == Parse(line)
  {
    var fields := Split(Strip(line), ':');
    if |fields| != 3 {
      return Err(ValueError);
    }
    r := ParseInfo(Split(fields[0], ','));
    if r.Err? {
      return;
    }
    var rob := ParseDeps(Split(Strip(fields[1]), ','));
    if rob.Err? {
      return Err(rob.error);
    }
    var reg := ParseDeps(Split(fields[2], ','));
    if reg.Err? {
      return Err(reg.error);
    }
    r := Ok(r.value.(robDep := rob.value, regDep := reg.value));
  }
}
