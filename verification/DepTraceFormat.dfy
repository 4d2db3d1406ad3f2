/** The lines of a dependency trace, field by field (gem5/util/decode_inst_dep_trace.py:164-215 and
    gem5/util/encode_inst_dep_trace.py:157-208). */
module DepTraceFormat {
  import opened Wrappers
  import opened Text
  import opened DepTrace
  import opened DepTraceCodec
  import Sorting

  /** The text at place `i` is a decimal number, namely `v`. */
  predicate Reads(parts: seq<string>, i: nat, v: int) {
    i < |parts| && ParseInt(parts[i]) == Some(v)
  }

  function Count(f: Option<nat>): nat {
    if f.Some? then 1 else 0
  }

  // ---------- What is printed ----------

  lemma DecimalReads(parts: seq<string>, i: nat, n: nat)
    requires i < |parts| && parts[i] == Decimal(n)
    ensures Reads(parts, i, n)
  {
    ParseDecimal(n);
  }

  /** What stands in front of the first colon: sequence number, program counter and weight with their
      defaults, the type, the memory fields that are present, and the delay. */
  predicate IsInfo(info: seq<string>, r: Record) {
    && |info| == 5 + Count(r.pAddr) + Count(r.size) + Count(r.flags)
    && Reads(info, 0, if r.seqNum.Some? then r.seqNum.value else 0)
    && Reads(info, 1, if r.pc.Some? then r.pc.value else 0)
    && Reads(info, 2, if r.weight.Some? then r.weight.value else 1)
    && (r.pAddr.Some? ==> Reads(info, 4, r.pAddr.value))
    && (r.size.Some? ==> Reads(info, 4 + Count(r.pAddr), r.size.value))
    && (r.flags.Some? ==> Reads(info, 4 + Count(r.pAddr) + Count(r.size), r.flags.value))
    && Reads(info, |info| - 1, if r.compDelay.Some? then r.compDelay.value else 0)
  }

  lemma InfoFormat(r: Record)
    ensures IsInfo(Split(Split(Line(r), ':')[0], ','), r)
  {
    LineSplits(r);
    InfoTextFacts(r);
    NumberFormat(r, InfoFields(r));
    MemoryFormat(r, InfoFields(r));
  }

  lemma NumberFormat(r: Record, info: seq<string>)
    requires info == InfoFields(r)
    ensures Reads(info, 0, Or(r.seqNum, 0)) && Reads(info, 1, Or(r.pc, 0)) && Reads(info, 2, Or(r.weight, 1))
    ensures Reads(info, |info| - 1, Or(r.compDelay, 0))
  {
    DecimalReads(info, 0, Or(r.seqNum, 0));
    DecimalReads(info, 1, Or(r.pc, 0));
    DecimalReads(info, 2, Or(r.weight, 1));
    DecimalReads(info, |info| - 1, Or(r.compDelay, 0));
  }

  lemma MemoryFormat(r: Record, info: seq<string>)
    requires info == InfoFields(r)
    ensures r.pAddr.Some? ==> Reads(info, 4, r.pAddr.value)
    ensures r.size.Some? ==> Reads(info, 4 + Count(r.pAddr), r.size.value)
    ensures r.flags.Some? ==> Reads(info, 4 + Count(r.pAddr) + Count(r.size), r.flags.value)
  {
    if r.pAddr.Some? { DecimalReads(info, 4, r.pAddr.value); }
    if r.size.Some? { DecimalReads(info, 4 + Count(r.pAddr), r.size.value); }
    if r.flags.Some? { DecimalReads(info, 4 + Count(r.pAddr) + Count(r.size), r.flags.value); }
  }

  /** The fourth field names the type. */
  lemma TypeFormat(r: Record)
    ensures var info := Split(Split(Line(r), ':')[0], ',');
            && |info| >= 5
            && (info[3] == "INVALID" <==> r.kind == INVALID)
            && (info[3] == "LOAD" <==> r.kind == LOAD)
            && (info[3] == "STORE" <==> r.kind == STORE)
            && (info[3] == "COMP" <==> r.kind == COMP)
  {
    LineSplits(r);
    InfoTextFacts(r);
  }

  /** What stands behind the colons: an empty part and then one number per dependency, order
      dependencies first and register dependencies last. */
  lemma DepsFormat(r: Record)
    ensures var fields := Split(Line(r), ':');
            && |fields| == 3
            && IsDepList(fields[1], r.robDep)
            && IsDepList(fields[2], r.regDep)
  {
    LineSplits(r);
    DepTextFormat(r.robDep);
    DepTextFormat(r.regDep);
  }

  ghost predicate IsDepList(text: string, deps: seq<nat>) {
    var parts := Split(text, ',');
    && |parts| == |deps| + 1
    && parts[0] == ""
    && forall k :: 0 <= k < |deps| ==> Reads(parts, k + 1, deps[k])
  }

  lemma DepTextFormat(deps: seq<nat>)
    ensures IsDepList(DepText(deps), deps)
  {
    DepTextFacts(deps);
    forall k | 0 <= k < |deps|
      ensures Reads([""] + Decimals(deps), k + 1, deps[k])
    {
      DecimalsAt(deps, k);
      DecimalReads([""] + Decimals(deps), k + 1, deps[k]);
    }
    DecimalsLength(deps);
  }

  lemma {:induction false} DecimalsLength(deps: seq<nat>)
    ensures |Decimals(deps)| == |deps|
  {
    if deps != [] {
      DecimalsLength(deps[..|deps| - 1]);
    }
  }

  lemma {:induction false} DecimalsAt(deps: seq<nat>, k: nat)
    requires k < |deps|
    ensures k < |Decimals(deps)| && Decimals(deps)[k] == Decimal(deps[k])
    decreases |deps|
  {
    var n := |deps| - 1;
    DecimalsLength(deps[..n]);
    if k < n {
      DecimalsAt(deps[..n], k);
    }
  }

  // ---------- What is accepted ----------

  /** The text at place `i` is a number of the given width. */
  predicate IsNumber(parts: seq<string>, i: nat, limit: nat) {
    i < |parts| && ParseInt(parts[i]).Some? && 0 <= ParseInt(parts[i]).value < limit
  }

  lemma FieldIff(parts: seq<string>, i: nat, limit: nat)
    ensures Field(parts, i, limit).Ok? <==> IsNumber(parts, i, limit)
    ensures Field(parts, i, limit).Ok? ==> Reads(parts, i, Field(parts, i, limit).value)
  {
  }

  /** Every part that is not empty is a number. */
  ghost predicate NumbersOrEmpty(parts: seq<string>) {
    forall k :: 0 <= k < |parts| && parts[k] != "" ==> IsNumber(parts, k, 0x1_0000_0000_0000_0000)
  }

  lemma {:induction false} DepsIff(parts: seq<string>)
    ensures Deps(parts).Ok? <==> NumbersOrEmpty(parts)
  {
    if parts != [] {
      var n := |parts| - 1;
      var front := parts[..n];
      DepsIff(front);
      FieldIff(parts, n, U64);
      assert forall k :: 0 <= k < n ==> front[k] == parts[k] && IsNumber(front, k, U64) == IsNumber(parts, k, U64);
    }
  }

  /** The dependencies read are the non-empty parts, in order. */
  lemma {:induction false} DepsMean(parts: seq<string>)
    requires Deps(parts).Ok?
    ensures AreRead(Sorting.Filter(p => p != "", parts), Deps(parts).value)
  {
    if parts != [] {
      var n := |parts| - 1;
      DepsMean(parts[..n]);
      FieldIff(parts, n, U64);
    }
  }

  ghost predicate AreRead(texts: seq<string>, deps: seq<nat>) {
    |texts| == |deps| && forall k :: 0 <= k < |deps| ==> Reads(texts, k, deps[k])
  }

  /** The fields in front of the first colon that the encoder takes. */
  predicate InfoAccepted(info: seq<string>) {
    && IsNumber(info, 0, 0x1_0000_0000_0000_0000)
    && IsNumber(info, 1, 0x1_0000_0000_0000_0000)
    && IsNumber(info, 2, 0x1_0000_0000)
    && |info| >= 4
    && (|| (info[3] == "COMP" && IsNumber(info, 4, 0x1_0000_0000_0000_0000))
        || (&& (info[3] == "LOAD" || info[3] == "STORE")
            && IsNumber(info, 4, 0x1_0000_0000_0000_0000)
            && IsNumber(info, 5, 0x1_0000_0000)
            && IsNumber(info, 6, 0x1_0000_0000)
            && IsNumber(info, 7, 0x1_0000_0000_0000_0000)))
  }

  lemma InfoAcceptedIff(info: seq<string>)
    ensures ParseInfo(info).Ok? <==> InfoAccepted(info)
  {
    FieldIff(info, 0, U64);
    FieldIff(info, 1, U64);
    FieldIff(info, 2, U32);
    FieldIff(info, 4, U64);
    FieldIff(info, 5, U32);
    FieldIff(info, 6, U32);
    FieldIff(info, 7, U64);
  }

  /** A line is accepted exactly when it has three fields, the first names a type that the format supports with
      numbers in all its places, and the others are lists of numbers. */
  lemma AcceptedIff(line: string)
    ensures var fields := Split(Strip(line), ':');
            Parse(line).Ok? <==>
              |fields| == 3 && InfoAccepted(Split(fields[0], ',')) &&
              NumbersOrEmpty(Split(Strip(fields[1]), ',')) && NumbersOrEmpty(Split(fields[2], ','))
  {
    var fields := Split(Strip(line), ':');
    if |fields| == 3 {
      InfoAcceptedIff(Split(fields[0], ','));
      DepsIff(Split(Strip(fields[1]), ','));
      DepsIff(Split(fields[2], ','));
    }
  }

  /** Each field of a record is what the text says in its place. */
  ghost predicate FieldsRead(info: seq<string>, r: Record) {
    && r.seqNum.Some? && Reads(info, 0, r.seqNum.value)
    && r.pc.Some? && Reads(info, 1, r.pc.value)
    && r.weight.Some? && Reads(info, 2, r.weight.value)
    && |info| >= 5
    && (info[3] == "LOAD" <==> r.kind == LOAD)
    && (info[3] == "STORE" <==> r.kind == STORE)
    && (info[3] == "COMP" <==> r.kind == COMP)
    && r.compDelay.Some? && Reads(info, if r.kind == COMP then 4 else 7, r.compDelay.value)
    && (r.kind != COMP ==> r.pAddr.Some? && r.size.Some? && r.flags.Some? &&
                           Reads(info, 4, r.pAddr.value) && Reads(info, 5, r.size.value) && Reads(info, 6, r.flags.value))
    && (r.kind == COMP ==> r.pAddr.None? && r.size.None? && r.flags.None?)
  }

  lemma InfoFieldsRead(info: seq<string>)
    requires ParseInfo(info).Ok?
    ensures FieldsRead(info, ParseInfo(info).value)
  {
    FieldIff(info, 0, U64);
    FieldIff(info, 1, U64);
    FieldIff(info, 2, U32);
    FieldIff(info, 4, U64);
    FieldIff(info, 5, U32);
    FieldIff(info, 6, U32);
    FieldIff(info, 7, U64);
  }

  /** An accepted line gives the record that its text states, field by field, both lists in order. */
  lemma ParsedFields(line: string)
    requires Parse(line).Ok?
    ensures var fields, r := Split(Strip(line), ':'), Parse(line).value;
            && |fields| == 3
            && FieldsRead(Split(fields[0], ','), r)
            && AreRead(Sorting.Filter(p => p != "", Split(Strip(fields[1]), ',')), r.robDep)
            && AreRead(Sorting.Filter(p => p != "", Split(fields[2], ',')), r.regDep)
  {
    var fields := Split(Strip(line), ':');
    InfoFieldsRead(Split(fields[0], ','));
    DepsMean(Split(Strip(fields[1]), ','));
    DepsMean(Split(fields[2], ','));
  }
}
