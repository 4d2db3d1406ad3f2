/** The memory ranges of the read-latency sweep: `is_pow2` and the `ranges` loop
    (gem5/configs/dram/lat_mem_rd.py:156-174). */
module LatencyRanges {
  import opened Bits

  /** `is_pow2` */
  predicate IsPow2(num: nat) {
    num != 0 && And(num, num - 1) == 0
  }

  /** The range at position `i`: four to the octave, from 4 KiB. */
  function Range(i: nat): nat {
    if i < 4 then 4096 + 1024 * i else 2 * Range(i - 4)
  }

  /** The distance to the next range. */
  function Step(i: nat): nat {
    if i < 4 then 1024 else 2 * Step(i - 4)
  }

  lemma {:induction false} NextRange(i: nat)
    ensures Range(i + 1) == Range(i) + Step(i) && Step(i) > 0
  {
    if i >= 4 {
      var j := i - 4;
      NextRange(j);
    }
  }

  lemma {:induction false} Pow2Add(a: nat, b: nat)
    ensures Pow2(a + b) == Pow2(a) * Pow2(b)
  {
    if a > 0 {
      Pow2Add(a - 1, b);
      assert Pow2(a + b) == 2 * Pow2(a - 1 + b);
    }
  }

  /** Five, six and seven times a power of two are not powers of two. */
  lemma {:induction false} BetweenPowers(c: nat, a: nat, e: nat)
    requires 5 <= c <= 7
    ensures c * Pow2(a) != Pow2(e)
    decreases a
  {
    if a > 0 {
      if e == 0 {
        assert c * Pow2(a) >= 5;
      } else {
        BetweenPowers(c, a - 1, e - 1);
        assert c * Pow2(a) == 2 * (c * Pow2(a - 1));
      }
    } else if e >= 3 {
      Pow2Add(3, e - 3);
      assert Pow2(3) == 8;
    }
  }

  lemma {:induction false} RangeForm(i: nat)
    ensures Range(i) == (4 + i % 4) * Pow2(10 + i / 4)
  {
    if i < 4 {
      assert i % 4 == i && i / 4 == 0;
      assert Pow2(10) == 1024;
    } else {
      var j := i - 4;
      RangeForm(j);
      assert j % 4 == i % 4 && j / 4 + 1 == i / 4;
      Twice(4 + i % 4, Pow2(10 + j / 4));
    }
  }

  lemma Twice(c: nat, p: nat)
    ensures c * (2 * p) == 2 * (c * p)
  {
  }

  /** Every fourth range is a power of two, and no other is. */
  lemma RangePow2Iff(i: nat)
    ensures IsPow2(Range(i)) <==> i % 4 == 0
    ensures i % 4 == 0 ==> Range(i) == Pow2(12 + i / 4)
  {
    var q := 10 + i / 4;
    RangeForm(i);
    PowerOfTwoTest(Range(i));
    if i % 4 == 0 {
      Pow2Add(2, q);
      assert Pow2(2) == 4;
      assert Range(i) == Pow2(2 + q);
    } else {
      forall e: nat ensures Range(i) != Pow2(e) {
        BetweenPowers(4 + i % 4, q, e);
      }
    }
  }

  lemma {:induction false} StepDoubles(i: nat)
    ensures Step(i + 1) == if (i + 1) % 4 == 0 then Step(i) * 2 else Step(i)
  {
    if i >= 4 {
      var j := i - 4;
      StepDoubles(j);
      assert (i + 1) % 4 == (j + 1) % 4;
    }
  }

  ghost predicate AreRanges(ranges: seq<nat>) {
    forall i :: 0 <= i < |ranges| ==> ranges[i] == Range(i)
  }

  /** The sweep goes on only from a range below the maximum. */
  ghost predicate Needed(ranges: seq<nat>, maxRange: int) {
    forall i :: 0 <= i < |ranges| - 1 ==> ranges[i] < maxRange
  }

  lemma NeededGrows(ranges: seq<nat>, newRange: nat, maxRange: int)
    requires ranges != [] && Needed(ranges, maxRange) && ranges[|ranges| - 1] < maxRange
    ensures Needed(ranges + [newRange], maxRange)
  {
  }

  lemma RangesGrow(ranges: seq<nat>, newRange: nat)
    requires AreRanges(ranges) && newRange == Range(|ranges|)
    ensures AreRanges(ranges + [newRange])
  {
  }

  lemma FirstRange()
    ensures AreRanges([4096]) && Step(0) == 1024
  {
    assert Range(0) == 4096;
  }

  lemma Advance(n: nat, last: nat, step: nat)
    requires last == Range(n) && step == Step(n)
    ensures last + step == Range(n + 1) && last + step > last
    ensures (if IsPow2(last + step) then step * 2 else step) == Step(n + 1)
  {
    NextRange(n);
    StepDoubles(n);
    RangePow2Iff(n + 1);
  }

  /** The loop of lines 166-174. */
  method Ranges(maxRange: int) returns (ranges: seq<nat>)
    ensures |ranges| >= 1 && AreRanges(ranges)
    ensures ranges[|ranges| - 1] >= maxRange
    ensures Needed(ranges, maxRange)
  {
    ranges := [4096];
    var step := 1024;
    FirstRange();
    while ranges[|ranges| - 1] < maxRange
      invariant |ranges| >= 1 && AreRanges(ranges)
      invariant step == Step(|ranges| - 1)
      invariant Needed(ranges, maxRange)
      decreases maxRange - ranges[|ranges| - 1]
    {
      var last := ranges[|ranges| - 1];
      Advance(|ranges| - 1, last, step);
      var newRange := last + step;
      if IsPow2(newRange) {
        step := step * 2;
      }
      RangesGrow(ranges, newRange);
      NeededGrows(ranges, newRange, maxRange);
      ranges := ranges + [newRange];
    }
  }

  /** Every power of two from 4096 on whose predecessor in the sweep lies below the maximum is measured. */
  lemma PowersAreMeasured(ranges: seq<nat>, maxRange: int, k: nat)
    requires |ranges| >= 1 && AreRanges(ranges)
    requires ranges[|ranges| - 1] >= maxRange && Pow2(12 + k) <= maxRange
    ensures Pow2(12 + k) in ranges
  {
    var i := 4 * k;
    assert i % 4 == 0 && i / 4 == k;
    RangePow2Iff(i);
    if |ranges| <= i {
      RangeMonotone(|ranges| - 1, i);
    }
    assert ranges[i] == Pow2(12 + k);
  }

  lemma {:induction false} RangeMonotone(i: nat, j: nat)
    requires i < j
    ensures Range(i) < Range(j)
    decreases j
  {
    var h := j - 1;
    NextRange(h);
    if i < h {
      RangeMonotone(i, h);
    }
  }
}
