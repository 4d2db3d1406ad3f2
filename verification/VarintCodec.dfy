/** The varint code: round trip, no prefixes, no shorter spelling. */
module VarintCodec {
  import opened Arith
  import opened Bytes
  import opened Varint

  /** 128 to the power `n`. */
  function Base(n: nat): (r: nat)
    ensures r > 0
  {
    if n == 0 then 1 else 128 * Base(n - 1)
  }

  lemma BaseValues()
    ensures Base(9) == TWO63
    ensures Base(10) == 128 * TWO63
    ensures Base(5) > TWO32
  {
    assert Base(3) == 0x20_0000;
    assert Base(6) == 0x20_0000 * Base(3);
    assert Base(9) == 0x20_0000 * Base(6);
    assert Base(5) == 128 * 128 * Base(3);
  }

  /** An encoding is a run of continued bytes and one byte that ends it; its low bits spell the number,
      and it is no longer than the number needs. */
  lemma {:induction false} EncodeFacts(v: nat)
    ensures var e := Encode(v);
            && |e| >= 1 && AllContinued(e, |e| - 1) && e[|e| - 1] < 128
            && Raw(e) == v
            && v < Base(|e|) && (|e| > 1 ==> v >= Base(|e| - 1))
    decreases v
  {
    if v >= 128 {
      var e, rest := Encode(v), Encode(v / 128);
      EncodeFacts(v / 128);
      assert e[1..] == rest;
      assert v == 128 * (v / 128) + v % 128;
      assert forall i :: 1 <= i < |e| ==> e[i] == rest[i - 1];
    } else {
      assert Encode(v)[1..] == [];
    }
  }

  /** What the decoder makes of any encoded number, followed by anything. */
  lemma DecodeEncoded(v: nat, rest: seq<byte>)
    ensures Decode(Encode(v) + rest) == if v < Base(10) then Value(Reduce(v), |Encode(v)|) else TooManyBytes
    ensures v < Base(10) ==> Consumed(Encode(v) + rest) == |Encode(v)|
  {
    var e := Encode(v);
    var bytes := e + rest;
    var n := |e| - 1;
    EncodeFacts(v);
    assert AllContinued(bytes, n) && bytes[n] == e[n];
    assert bytes[..n + 1] == e;
    if n < 10 {
      BaseMonotone(n + 1, 10);
      StopsAt(bytes, n);
    } else {
      BaseMonotone(10, n);
      StopsAfterTen(bytes);
    }
  }

  lemma {:induction false} BaseMonotone(a: nat, b: nat)
    requires a <= b
    ensures Base(a) <= Base(b)
    decreases b
  {
    if a < b {
      BaseMonotone(a, b - 1);
    }
  }

  /** Decoding gives back the number and leaves what follows unread exactly for 32-bit numbers. */
  lemma RoundTripIff(v: nat, rest: seq<byte>)
    ensures Decode(Encode(v) + rest) == Value(v, |Encode(v)|) <==> v < TWO32
    ensures v < TWO32 ==> (Encode(v) + rest)[Consumed(Encode(v) + rest)..] == rest
  {
    DecodeEncoded(v, rest);
    BaseValues();
  }

  /** No encoding is a prefix of another. */
  lemma {:induction false} PrefixFree(a: nat, b: nat, rest: seq<byte>)
    requires Encode(a) + rest == Encode(b)
    ensures a == b && rest == []
  {
    EncodeFacts(a);
    EncodeFacts(b);
    var n := |Encode(a)| - 1;
    assert Encode(b)[n] == Encode(a)[n];
    assert |Encode(b)| - 1 == n;
    assert Encode(a) + rest == Encode(a);
  }

  lemma {:induction false} RawBound(bytes: seq<byte>)
    ensures Raw(bytes) < Base(|bytes|)
  {
    if bytes != [] {
      RawBound(bytes[1..]);
    }
  }

  /** No byte string decodes to a number in fewer bytes than its encoding has. */
  lemma NoShorterSpelling(bytes: seq<byte>, v: nat, n: nat)
    requires Decode(bytes) == Value(v, n)
    ensures |Encode(v)| <= n
  {
    var raw := Raw(bytes[..n]);
    RawBound(bytes[..n]);
    DivRange(raw, TWO32);
    assert v == raw % TWO32 <= raw;
    EncodeFacts(v);
    if |Encode(v)| > n {
      BaseMonotone(n, |Encode(v)| - 1);
    }
  }
}
