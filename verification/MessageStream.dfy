/** Length-delimited messages in a file (gem5/util/protolib.py:131-168). A payload is an opaque string of
    bytes; which payloads `ParseFromString` accepts is a parameter. */
module MessageStream {
  import opened Bytes
  import opened Varint
  import opened VarintCodec

  type Payload = seq<byte>

  type Parser = Payload -> bool

  /** What a file yields next: a message and what follows it, an end to reading, or a payload that does not
      parse. */
  datatype Step =
    | Stop(rest: seq<byte>)
    | Message(payload: Payload, rest: seq<byte>)
    | Broken(rest: seq<byte>)

  function DecodeStep(bytes: seq<byte>, parses: Parser): Step {
    match Decode(bytes)
    case TooManyBytes => Stop(bytes[Consumed(bytes)..])
    case EndOfFile => Stop(bytes[Consumed(bytes)..])
    case Value(size, _) =>
      var body := bytes[Consumed(bytes)..];
      if size == 0 then Stop(body)
      else if size < 0 || |body| <= size then Parsed(body, [], parses)
      else Parsed(body[..size], body[size..], parses)
  }

  function Parsed(payload: Payload, rest: seq<byte>, parses: Parser): Step {
    if parses(payload) then Message(payload, rest) else Broken(rest)
  }

  lemma StepShrinks(bytes: seq<byte>, parses: Parser)
    requires DecodeStep(bytes, parses).Message?
    ensures |DecodeStep(bytes, parses).rest| < |bytes|
  {
  }

  /** Everything read until reading ends, and whether it ends with a payload that does not parse. */
  datatype Reading = Reading(messages: seq<Payload>, broken: bool)

  function Follow(front: seq<Payload>, r: Reading): Reading {
    Reading(front + r.messages, r.broken)
  }

  function DecodeAll(bytes: seq<byte>, parses: Parser): Reading
    decreases |bytes|
  {
    if bytes == [] then Reading([], false) else
    match DecodeStep(bytes, parses)
    case Stop(_) => Reading([], false)
    case Broken(_) => Reading([], true)
    case Message(payload, rest) =>
      StepShrinks(bytes, parses);
      Follow([payload], DecodeAll(rest, parses))
  }

  /** What `decodeMessage` answers: False, True with the message filled in, or an exception from the parser. */
  datatype Answer = False | True(payload: Payload) | DecodeError

  function AnswerOf(s: Step): Answer {
    match s
    case Stop(_) => False
    case Message(payload, _) => True(payload)
    case Broken(_) => DecodeError
  }

  /** `decodeMessage` */
  method DecodeMessage(file: InFile, parses: Parser) returns (r: Answer)
    requires file.Valid()
    modifies file
    ensures file.Valid()
    ensures r == AnswerOf(DecodeStep(old(file.Rest()), parses))
    ensures file.Rest() == DecodeStep(old(file.Rest()), parses).rest
  {
    var size := DecodeVarint32(file);
    if !size.Value? || size.value == 0 {
      return False;
    }
    var buf := file.Read(size.value);
    if !parses(buf) {
      return DecodeError;
    }
    return True(buf);
  }

  lemma EmptyStops(bytes: seq<byte>, parses: Parser)
    requires bytes == []
    ensures DecodeStep(bytes, parses).Stop?
  {
    StopsAtEnd(bytes);
  }

  lemma NoMessage(bytes: seq<byte>, parses: Parser, step: Step)
    requires DecodeStep(bytes, parses) == step && !step.Message?
    ensures DecodeAll(bytes, parses) == Reading([], step.Broken?)
  {
    if bytes == [] {
      EmptyStops(bytes, parses);
    }
  }

  lemma FirstThenRest(bytes: seq<byte>, parses: Parser, payload: Payload, rest: seq<byte>)
    requires DecodeStep(bytes, parses) == Message(payload, rest)
    ensures DecodeAll(bytes, parses) == Follow([payload], DecodeAll(rest, parses))
  {
    if bytes == [] {
      EmptyStops(bytes, parses);
    }
  }

  lemma FollowTwice(a: seq<Payload>, b: seq<Payload>, r: Reading)
    ensures Follow(a, Follow(b, r)) == Follow(a + b, r)
  {
    assert a + (b + r.messages) == a + b + r.messages;
  }

  /** The reading loop of the trace tools: messages until the first False, or until the parser fails. */
  method ReadMessages(file: InFile, parses: Parser) returns (r: Reading)
    requires file.Valid()
    modifies file
    ensures r == DecodeAll(old(file.Rest()), parses)
  {
    var messages: seq<Payload> := [];
    ghost var all := DecodeAll(file.Rest(), parses);
    ghost var bytes := file.Rest();
    var next := DecodeMessage(file, parses);
    assert Follow([], all) == all;
    while next.True?
      invariant file.Valid() && file.Rest() == DecodeStep(bytes, parses).rest
      invariant next == AnswerOf(DecodeStep(bytes, parses))
      invariant Follow(messages, DecodeAll(bytes, parses)) == all
      decreases |bytes|
    {
      StepShrinks(bytes, parses);
      FirstThenRest(bytes, parses, next.payload, file.Rest());
      FollowTwice(messages, [next.payload], DecodeAll(file.Rest(), parses));
      messages := messages + [next.payload];
      bytes := file.Rest();
      next := DecodeMessage(file, parses);
    }
    NoMessage(bytes, parses, DecodeStep(bytes, parses));
    assert messages + [] == messages;
    return Reading(messages, next.DecodeError?);
  }

  function Frame(payload: Payload): seq<byte> {
    Encode(|payload|) + payload
  }

  function EncodeAll(payloads: seq<Payload>): seq<byte> {
    if payloads == [] then [] else Frame(payloads[0]) + EncodeAll(payloads[1..])
  }

  /** Low groups of seven bits first, the high bit on all bytes but the last; the length stands in front. */
  lemma WireFormat()
    ensures Encode(300) == [172, 2]
    ensures EncodeAll([[7, 8], [9]]) == [2, 7, 8, 1, 9]
  {
    assert Encode(2) == [2] && Encode(1) == [1];
    assert [[7, 8], [9]][1..] == [[9]] && [[9]][1..] == [];
    assert EncodeAll([[9]]) == [1, 9];
  }

  /** `encodeMessage` */
  method EncodeMessage(out: OutFile, payload: Payload)
    modifies out
    ensures out.written == old(out.written) + Frame(payload)
  {
    EncodeVarint32(out, |payload|);
    out.Write(payload);
  }

  /** Payloads that come from messages: not too long for the header, and accepted by the parser. */
  ghost predicate Proper(payloads: seq<Payload>, parses: Parser) {
    forall i :: 0 <= i < |payloads| ==> |payloads[i]| < TWO32 && parses(payloads[i])
  }

  /** The payloads in front of the first empty one. */
  function BeforeEmpty(payloads: seq<Payload>): seq<Payload> {
    if payloads == [] || payloads[0] == [] then [] else [payloads[0]] + BeforeEmpty(payloads[1..])
  }

  lemma FrameStep(payload: Payload, rest: seq<byte>, parses: Parser)
    requires |payload| < TWO32
    ensures DecodeStep(Frame(payload) + rest, parses) == if payload == [] then Stop(rest) else Parsed(payload, rest, parses)
  {
    var e := Encode(|payload|);
    var bytes := Frame(payload) + rest;
    assert bytes == e + (payload + rest);
    RoundTripIff(|payload|, payload + rest);
    DecodeEncoded(|payload|, payload + rest);
    BaseValues();
    assert bytes[Consumed(bytes)..] == payload + rest;
    assert (payload + rest)[..|payload|] == payload && (payload + rest)[|payload|..] == rest;
    assert rest == [] ==> payload + rest == payload;
  }

  lemma DecodeFrame(p: Payload, rest: seq<byte>, parses: Parser)
    requires 0 < |p| < TWO32 && parses(p)
    ensures DecodeAll(Frame(p) + rest, parses) == Follow([p], DecodeAll(rest, parses))
  {
    FrameStep(p, rest, parses);
    FirstThenRest(Frame(p) + rest, parses, p, rest);
  }

  /** Messages written back to back are read back in order, up to the first empty one. */
  lemma {:induction false} MessagesRoundTrip(payloads: seq<Payload>, parses: Parser)
    requires Proper(payloads, parses)
    ensures DecodeAll(EncodeAll(payloads), parses) == Reading(BeforeEmpty(payloads), false)
  {
    if payloads != [] {
      var p, rest := payloads[0], payloads[1..];
      var bytes := EncodeAll(rest);
      MessagesRoundTrip(rest, parses);
      FrameStep(p, bytes, parses);
      if p == [] {
        NoMessage(Frame(p) + bytes, parses, Stop(bytes));
      } else {
        FirstThenRest(Frame(p) + bytes, parses, p, bytes);
      }
    }
  }

  lemma {:induction false} NothingEmpty(payloads: seq<Payload>)
    requires forall i :: 0 <= i < |payloads| ==> payloads[i] != []
    ensures BeforeEmpty(payloads) == payloads
  {
    if payloads != [] {
      NothingEmpty(payloads[1..]);
    }
  }

  // ---------- Files that end too early ----------

  lemma CutHeader(payload: Payload, k: nat, parses: Parser)
    requires |payload| < TWO32 && k < |Encode(|payload|)|
    ensures DecodeStep(Encode(|payload|)[..k], parses).Stop?
  {
    var e := Encode(|payload|);
    EncodeFacts(|payload|);
    BaseValues();
    if |e| > 5 { BaseMonotone(5, |e| - 1); }
    assert AllContinued(e[..k], k);
    StopsAtEnd(e[..k]);
  }

  lemma CutPayload(payload: Payload, k: nat, parses: Parser)
    requires 0 < |payload| < TWO32 && k < |payload|
    ensures DecodeStep(Encode(|payload|) + payload[..k], parses) == Parsed(payload[..k], [], parses)
  {
    var bytes := Encode(|payload|) + payload[..k];
    RoundTripIff(|payload|, payload[..k]);
    assert bytes[Consumed(bytes)..] == payload[..k];
  }

  /** What is read from the first `k` bytes of a frame: nothing when the cut is in the header, else the
      payload as far as it goes, if that parses. */
  function Partial(p: Payload, k: nat, parses: Parser): Reading
    requires k < |Frame(p)|
  {
    var header := |Encode(|p|)|;
    if k < header then Reading([], false)
    else if parses(p[..k - header]) then Reading([p[..k - header]], false)
    else Reading([], true)
  }

  lemma CutInFrame(p: Payload, k: nat, parses: Parser)
    requires 0 < |p| < TWO32 && k < |Frame(p)|
    ensures DecodeAll(Frame(p)[..k], parses) == Partial(p, k, parses)
  {
    var e, bytes := Encode(|p|), Frame(p)[..k];
    if k < |e| {
      assert bytes == e[..k];
      CutHeader(p, k, parses);
      LastStep(bytes, parses, DecodeStep(bytes, parses));
    } else {
      var short := p[..k - |e|];
      assert bytes == e + short;
      CutPayload(p, k - |e|, parses);
      LastStep(bytes, parses, Parsed(short, [], parses));
    }
  }

  lemma LastStep(bytes: seq<byte>, parses: Parser, step: Step)
    requires DecodeStep(bytes, parses) == step && (step.Message? ==> step.rest == [])
    ensures DecodeAll(bytes, parses) == Reading(if step.Message? then [step.payload] else [], step.Broken?)
  {
    if step.Message? {
      LastMessage(bytes, parses, step.payload);
    } else {
      NoMessage(bytes, parses, step);
    }
  }

  lemma LastMessage(bytes: seq<byte>, parses: Parser, payload: Payload)
    requires DecodeStep(bytes, parses) == Message(payload, [])
    ensures DecodeAll(bytes, parses) == Reading([payload], false)
  {
    FirstThenRest(bytes, parses, payload, []);
    assert Follow([payload], Reading([], false)) == Reading([payload], false);
  }

  lemma FirstFrame(front: seq<Payload>, rest: seq<byte>)
    requires front != []
    ensures EncodeAll(front) + rest == Frame(front[0]) + (EncodeAll(front[1..]) + rest)
  {
  }

  /** Complete messages are read whatever comes after them. */
  lemma {:induction false} DecodeFront(front: seq<Payload>, rest: seq<byte>, parses: Parser)
    requires Proper(front, parses) && forall i :: 0 <= i < |front| ==> front[i] != []
    ensures DecodeAll(EncodeAll(front) + rest, parses) == Follow(front, DecodeAll(rest, parses))
  {
    if front == [] {
      assert EncodeAll(front) + rest == rest;
      assert [] + DecodeAll(rest, parses).messages == DecodeAll(rest, parses).messages;
    } else {
      var p, later := front[0], front[1..];
      var after := EncodeAll(later) + rest;
      DecodeFront(later, rest, parses);
      DecodeFrame(p, after, parses);
      FollowTwice([p], later, DecodeAll(rest, parses));
      assert front == [p] + later;
      FirstFrame(front, rest);
    }
  }

  lemma {:induction false} EncodeConcat(a: seq<Payload>, b: seq<Payload>)
    ensures EncodeAll(a + b) == EncodeAll(a) + EncodeAll(b)
  {
    if a == [] {
      assert a + b == b;
    } else {
      assert (a + b)[1..] == a[1..] + b;
      EncodeConcat(a[1..], b);
    }
  }

  /** A place to cut a file: `over` bytes into the message behind the first `n`, or at the end. */
  ghost predicate CutAt(payloads: seq<Payload>, n: nat, over: nat) {
    n <= |payloads| && if n < |payloads| then over < |Frame(payloads[n])| else over == 0
  }

  /** Every number of bytes up to the length of the file is such a place. */
  lemma {:induction false} SomeCut(payloads: seq<Payload>, k: nat) returns (n: nat, over: nat)
    requires k <= |EncodeAll(payloads)|
    ensures CutAt(payloads, n, over) && k == |EncodeAll(payloads[..n])| + over
    decreases |payloads|
  {
    if payloads == [] || k < |Frame(payloads[0])| {
      n, over := 0, k;
      assert payloads[..0] == [];
    } else {
      var p, later := payloads[0], payloads[1..];
      var m;
      m, over := SomeCut(later, k - |Frame(p)|);
      n := m + 1;
      FrontLength(payloads, n);
    }
  }

  lemma FrontLength(payloads: seq<Payload>, n: nat)
    requires 0 < n <= |payloads|
    ensures |EncodeAll(payloads[..n])| == |Frame(payloads[0])| + |EncodeAll(payloads[1..][..n - 1])|
  {
    var front := payloads[..n];
    assert front[1..] == payloads[1..][..n - 1];
  }

  lemma CutBytes(payloads: seq<Payload>, n: nat, over: nat)
    requires CutAt(payloads, n, over)
    ensures |EncodeAll(payloads[..n])| + over <= |EncodeAll(payloads)|
    ensures EncodeAll(payloads)[..|EncodeAll(payloads[..n])| + over] ==
            EncodeAll(payloads[..n]) + (if n < |payloads| then Frame(payloads[n])[..over] else [])
  {
    var front, back := payloads[..n], payloads[n..];
    assert payloads == front + back;
    EncodeConcat(front, back);
    if n < |payloads| {
      assert EncodeAll(back) == Frame(payloads[n]) + EncodeAll(back[1..]);
    }
  }

  /** Behind the first empty message it does not matter where a file ends. */
  lemma CutBehindEmpty(payloads: seq<Payload>, parses: Parser, i: nat, k: nat)
    requires Proper(payloads, parses) && i < |payloads| && payloads[i] == [] && forall j :: 0 <= j < i ==> payloads[j] != []
    requires |EncodeAll(payloads[..i])| <= k <= |EncodeAll(payloads)|
    ensures DecodeAll(EncodeAll(payloads)[..k], parses) == Reading(payloads[..i], false)
  {
    var front, back := payloads[..i], payloads[i..];
    assert payloads == front + back;
    EncodeConcat(front, back);
    var bytes := EncodeAll(back)[..k - |EncodeAll(front)|];
    assert EncodeAll(payloads)[..k] == EncodeAll(front) + bytes;
    DecodeFront(front, bytes, parses);
    assert bytes != [] ==> bytes[0] == 0 by {
      assert EncodeAll(back) == [0] + EncodeAll(back[1..]);
    }
    ZeroEndsReading(bytes, parses);
    assert front + [] == front;
  }

  lemma ZeroEndsReading(bytes: seq<byte>, parses: Parser)
    requires bytes != [] ==> bytes[0] == 0
    ensures DecodeAll(bytes, parses) == Reading([], false)
  {
    if bytes != [] {
      var after := bytes[1..];
      assert bytes == Frame([]) + after;
      FrameStep([], after, parses);
      NoMessage(bytes, parses, Stop(after));
    }
  }

  /** Cutting a file off at any byte up to the first empty message: all complete messages are read, and after them what is left of the one
      that was cut. */
  lemma TruncatedFile(payloads: seq<Payload>, parses: Parser, n: nat, over: nat)
    requires Proper(payloads, parses) && CutAt(payloads, n, over)
    requires forall i :: 0 <= i <= n && i < |payloads| ==> payloads[i] != []
    ensures var k := |EncodeAll(payloads[..n])| + over;
            && k <= |EncodeAll(payloads)|
            && DecodeAll(EncodeAll(payloads)[..k], parses) ==
               Follow(payloads[..n], if n < |payloads| then Partial(payloads[n], over, parses) else Reading([], false))
  {
    CutBytes(payloads, n, over);
    if n < |payloads| {
      DecodeFront(payloads[..n], Frame(payloads[n])[..over], parses);
      CutInFrame(payloads[n], over, parses);
    } else {
      DecodeFront(payloads[..n], [], parses);
    }
  }
}
