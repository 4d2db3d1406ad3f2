/** Base 128 varints as read and written by gem5/util/protolib.py:100-159; the format is that of the
    section "Base 128 Varints" of the Protocol Buffers encoding guide. */
module Varint {
  import opened Arith
  import opened Bits
  import opened Bytes
  import opened Wrappers

  const TWO32: int := 0x1_0000_0000
  const TWO63: int := 0x8000_0000_0000_0000
  const TWO64: int := 0x1_0000_0000_0000_0000

  /** A file opened for reading. */
  class InFile {
    const data: seq<byte>
    var pos: nat

    ghost predicate Valid()
      reads this
    {
      pos <= |data|
    }

    ghost function Rest(): seq<byte>
      requires Valid()
      reads this
    {
      data[pos..]
    }

    constructor (content: seq<byte>)
      ensures Valid() && Rest() == content
    {
      data, pos := content, 0;
    }

    /** `read(n)`: up to `n` bytes, or all that is left when `n` is negative. */
    method Read(n: int) returns (bytes: seq<byte>)
      requires Valid()
      modifies this
      ensures Valid()
      ensures bytes == if n < 0 || |old(Rest())| <= n then old(Rest()) else old(Rest())[..n]
      ensures Rest() == old(Rest())[|bytes|..]
    {
      var end := if n < 0 || |data| - pos <= n then |data| else pos + n;
      bytes := data[pos..end];
      pos := end;
    }
  }

  /** A file opened for writing. */
  class OutFile {
    var written: seq<byte>

    constructor ()
      ensures written == []
    {
      written := [];
    }

    method Write(bytes: seq<byte>)
      modifies this
      ensures written == old(written) + bytes
    {
      written := written + bytes;
    }
  }

  // ---------- Encoding ----------

  function Encode(v: nat): seq<byte>
    decreases v
  {
    if v < 128 then [v] else [128 + v % 128] + Encode(v / 128)
  }

  /** `_EncodeVarint32` */
  method EncodeVarint32(out: OutFile, v: nat)
    modifies out
    ensures out.written == old(out.written) + Encode(v)
  {
    var bits, value := v % 128, v / 128;
    while value != 0
      invariant 0 <= bits < 128 && value >= 0
      invariant old(out.written) + Encode(v) == out.written + Encode(128 * value + bits)
      decreases value
    {
      ContinuationBit(bits);
      EncodeStep(value, bits);
      out.Write([Or(128, bits)]);
      bits, value := value % 128, value / 128;
    }
    out.Write([bits]);
  }

  lemma ContinuationBit(bits: nat)
    requires bits < 128
    ensures Or(128, bits) == 128 + bits
  {
    assert Pow2(7) == 128;
    OrAbove(bits, 1, 7);
    OrSwap(128, bits);
  }

  lemma EncodeStep(value: nat, bits: nat)
    requires value > 0 && bits < 128
    ensures Encode(128 * value + bits) == [128 + bits] + Encode(value)
  {
    assert (128 * value + bits) / 128 == value && (128 * value + bits) % 128 == bits;
  }

  lemma {:induction false} OrSwap(a: nat, b: nat)
    ensures Or(a, b) == Or(b, a)
    decreases a + b
  {
    if a != 0 && b != 0 {
      OrSwap(a / 2, b / 2);
    }
  }

  // ---------- Decoding ----------

  datatype Varint = EndOfFile | TooManyBytes | Value(value: int, size: nat)

  /** The number held by the low seven bits of each byte, least significant first. */
  function Raw(bytes: seq<byte>): nat {
    if bytes == [] then 0 else bytes[0] % 128 + 128 * Raw(bytes[1..])
  }

  /** Lines 120-124: reduction to 32 bits. A number of 64 bits or more with its sign bit set has its
      high bits forced to one. */
  function Reduce(raw: nat): int {
    if raw > 0x7FFF_FFFF_FFFF_FFFF then raw % TWO32 - TWO32 else raw % TWO32
  }

  /** How many leading bytes carry the continuation bit. */
  function Continued(bytes: seq<byte>): (n: nat)
    ensures n <= |bytes| && (forall i :: 0 <= i < n ==> bytes[i] >= 128) && (n < |bytes| ==> bytes[n] < 128)
  {
    if bytes == [] || bytes[0] < 128 then 0 else 1 + Continued(bytes[1..])
  }

  /** What the decoder answers for a file that continues with `bytes`. */
  function Decode(bytes: seq<byte>): Varint {
    var n := Continued(bytes);
    if n >= 10 then TooManyBytes
    else if n == |bytes| then EndOfFile
    else Value(Reduce(Raw(bytes[..n + 1])), n + 1)
  }

  /** How many bytes it reads for that. */
  function Consumed(bytes: seq<byte>): (k: nat)
    ensures k <= |bytes|
  {
    var n := Continued(bytes);
    if n >= 10 then 10 else if n == |bytes| then n else n + 1
  }

  lemma {:induction false} RawFits(bytes: seq<byte>)
    ensures Raw(bytes) < Pow2(7 * |bytes|)
  {
    if bytes != [] {
      var rest := bytes[1..];
      RawFits(rest);
      Pow2Seven(7 * |rest|);
    }
  }

  lemma Regroup(c: nat, low: nat, rest: nat, p: nat)
    ensures low + 128 * (rest + c * p) == low + 128 * rest + c * (128 * p)
  {
  }

  lemma {:induction false} RawAppend(bytes: seq<byte>, b: byte)
    ensures Raw(bytes + [b]) == Raw(bytes) + b % 128 * Pow2(7 * |bytes|)
  {
    if bytes == [] {
      assert bytes + [b] == [b] && [b][1..] == [];
    } else {
      var rest := bytes[1..];
      RawAppend(rest, b);
      assert (bytes + [b])[1..] == rest + [b];
      var n := 7 * |rest|;
      Pow2Seven(n);
      Regroup(b % 128, bytes[0] % 128, Raw(rest), Pow2(n));
    }
  }

  lemma Pow2Seven(n: nat)
    ensures Pow2(n + 7) == 128 * Pow2(n)
  {
    assert Pow2(n + 7) == 2 * Pow2(n + 6) == 4 * Pow2(n + 5) == 8 * Pow2(n + 4);
    assert Pow2(n + 4) == 2 * Pow2(n + 3) == 4 * Pow2(n + 2) == 8 * Pow2(n + 1);
  }

  ghost predicate AllContinued(bytes: seq<byte>, n: nat) {
    n <= |bytes| && forall i :: 0 <= i < n ==> bytes[i] >= 128
  }

  lemma StopsAt(bytes: seq<byte>, n: nat)
    requires AllContinued(bytes, n) && n < |bytes| && bytes[n] < 128 && n < 10
    ensures Decode(bytes) == Value(Reduce(Raw(bytes[..n + 1])), n + 1) && Consumed(bytes) == n + 1
  {
    assert Continued(bytes) == n;
  }

  lemma StopsAtEnd(bytes: seq<byte>)
    requires AllContinued(bytes, |bytes|) && |bytes| < 10
    ensures Decode(bytes) == EndOfFile && Consumed(bytes) == |bytes|
  {
    assert Continued(bytes) == |bytes|;
  }

  lemma StopsAfterTen(bytes: seq<byte>)
    requires AllContinued(bytes, 10)
    ensures Decode(bytes) == TooManyBytes && Consumed(bytes) == 10
  {
    assert Continued(bytes) >= 10;
  }

  /** One more byte: the bits it brings lie above the ones read so far. */
  lemma OrStep(prefix: seq<byte>, b: byte)
    ensures Or(Raw(prefix), b % 128 * Pow2(7 * |prefix|)) == Raw(prefix + [b])
  {
    RawAppend(prefix, b);
    RawFits(prefix);
    OrAbove(Raw(prefix), b % 128, 7 * |prefix|);
  }

  /** Line 117. */
  method AddByte(ghost prefix: seq<byte>, result: nat, b: byte, shift: nat) returns (r: nat)
    requires result == Raw(prefix) && shift == 7 * |prefix|
    ensures r == Raw(prefix + [b])
  {
    OrStep(prefix, b);
    r := Or(result, b % 128 * Pow2(shift));
  }

  lemma MaskIsReduce(result: nat)
    requires result <= 0x7FFF_FFFF_FFFF_FFFF
    ensures And(result, 0xFFFF_FFFF) == Reduce(result)
  {
    AndMask(result, 32);
    Pow2Of32();
  }

  lemma Pow2Of32()
    ensures Pow2(32) == TWO32
  {
    Pow2Seven(0);
    Pow2Seven(7);
    Pow2Seven(14);
    Pow2Seven(21);
    assert Pow2(28) == 0x1000_0000;
    assert Pow2(32) == 2 * Pow2(31) == 4 * Pow2(30) == 8 * Pow2(29) == 16 * Pow2(28);
  }

  lemma SameRemainder(raw: nat)
    ensures (raw - TWO64) % TWO32 == raw % TWO32
  {
    var q := raw / TWO32;
    assert TWO64 == TWO32 * TWO32;
    ModShift(raw - TWO64, q - TWO32, TWO32);
  }

  /** `result -= 1 << 64; result |= ~mask` */
  lemma OutsideMask(raw: nat)
    requires raw > 0x7FFF_FFFF_FFFF_FFFF
    ensures OrSigned(raw - TWO64, -TWO32) == Reduce(raw)
  {
    Pow2Of32();
    OrHighBits(raw - TWO64, 32, TWO32);
    SameRemainder(raw);
  }

  /** Lines 120-124. */
  method Reduce32(raw: nat) returns (r: int)
    ensures r == Reduce(raw)
  {
    if raw > 0x7FFF_FFFF_FFFF_FFFF {
      OutsideMask(raw);
      r := OrSigned(raw - TWO64, -0xFFFF_FFFF - 1);
    } else {
      MaskIsReduce(raw);
      r := And(raw, 0xFFFF_FFFF);
    }
  }

  lemma NextByte(bytes: seq<byte>, pos: nat)
    requires pos < |bytes|
    ensures bytes[..pos] + [bytes[pos]] == bytes[..pos + 1] && bytes[pos..][1..] == bytes[pos + 1..]
  {
  }

  /** How the reading of one number ends. */
  datatype End = Finished | FileEnded | TooLong

  function EndOf(bytes: seq<byte>): End {
    var n := Continued(bytes);
    if n >= 10 then TooLong else if n == |bytes| then FileEnded else Finished
  }

  lemma FinishedAt(bytes: seq<byte>, n: nat)
    requires AllContinued(bytes, n) && n < |bytes| && bytes[n] < 128 && n < 10
    ensures EndOf(bytes) == Finished && Consumed(bytes) == n + 1
  {
    assert Continued(bytes) == n;
  }

  lemma FileEndsAt(bytes: seq<byte>, n: nat)
    requires AllContinued(bytes, n) && n == |bytes| < 10
    ensures EndOf(bytes) == FileEnded && Consumed(bytes) == n
  {
    assert Continued(bytes) == n;
  }

  lemma TooLongAt(bytes: seq<byte>, n: nat)
    requires AllContinued(bytes, n) && n == 10
    ensures EndOf(bytes) == TooLong && Consumed(bytes) == n
  {
    assert Continued(bytes) >= n;
  }

  /** Lines 113-117. */
  method ReadByte(file: InFile, ghost bytes: seq<byte>, ghost pos: nat, result: nat, shift: nat) returns (b: Option<byte>, r: nat)
    requires file.Valid() && pos <= |bytes| && file.Rest() == bytes[pos..]
    requires shift == 7 * pos && result == Raw(bytes[..pos])
    modifies file
    ensures file.Valid()
    ensures if pos == |bytes| then b == None && r == result && file.Rest() == []
            else b == Some(bytes[pos]) && r == Raw(bytes[..pos + 1]) && file.Rest() == bytes[pos + 1..]
  {
    var c := file.Read(1);
    if |c| == 0 {
      return None, result;
    }
    r := AddByte(bytes[..pos], result, c[0], shift);
    NextByte(bytes, pos);
    return Some(c[0]), r;
  }

  /** The loop of lines 112-128, up to the reduction. */
  method ReadDigits(file: InFile) returns (end: End, result: nat, pos: nat)
    requires file.Valid()
    modifies file
    ensures file.Valid() && file.Rest() == old(file.Rest())[Consumed(old(file.Rest()))..]
    ensures end == EndOf(old(file.Rest()))
    ensures end.Finished? ==> pos == Consumed(old(file.Rest())) && result == Raw(old(file.Rest())[..pos])
  {
    ghost var bytes := file.Rest();
    var shift := 0;
    result, pos := 0, 0;
    while true
      invariant file.Valid() && pos < 10 && AllContinued(bytes, pos) && file.Rest() == bytes[pos..]
      invariant shift == 7 * pos && result == Raw(bytes[..pos])
      decreases 10 - pos
    {
      var b;
      b, result := ReadByte(file, bytes, pos, result, shift);
      if b.None? {
        FileEndsAt(bytes, pos);
        return FileEnded, result, pos;
      }
      pos := pos + 1;
      if b.value < 128 {
        FinishedAt(bytes, pos - 1);
        return Finished, result, pos;
      }
      shift := shift + 7;
      if shift >= 64 {
        TooLongAt(bytes, pos);
        return TooLong, result, pos;
      }
    }
  }

  /** `_DecodeVarint32` */
  method DecodeVarint32(file: InFile) returns (r: Varint)
    requires file.Valid()
    modifies file
    ensures file.Valid()
    ensures r == Decode(old(file.Rest()))
    ensures file.Rest() == old(file.Rest())[Consumed(old(file.Rest()))..]
  {
    var end, result, pos := ReadDigits(file);
    match end {
      case FileEnded => return EndOfFile;
      case TooLong => return TooManyBytes;
      case Finished =>
        var reduced := Reduce32(result);
        return Value(reduced, pos);
    }
  }
}
