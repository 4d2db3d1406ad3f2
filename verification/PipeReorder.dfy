/** The print queue of the pipeline viewer (gem5/util/o3-pipeview.py:45-66, 195-277): instructions
    arrive out of order, are held back, and leave sorted by sequence number. */
module PipeReorder {
  import opened Arith
  import opened Sorting

  /** An instruction as far as the queue looks at it; `rest` stands for everything else in the record. */
  datatype Inst = Inst(sn: int, fetch: int, retire: int, rest: int)

  /** The bounds set by `process_trace`; a bound that is not positive is switched off. */
  datatype Window = Window(snStart: int, snStop: int, tickStart: int, tickStop: int, onlyCommitted: bool)

  predicate Shown(w: Window, i: Inst) {
    && !(w.snStart > 0 && i.sn < w.snStart)
    && !(w.snStop > 0 && i.sn > w.snStop)
    && !(w.tickStart > 0 && i.fetch < w.tickStart)
    && !(w.tickStop > 0 && i.fetch > w.tickStop)
    && !(w.onlyCommitted && i.retire == 0)
  }

  function Visible(w: Window, s: seq<Inst>): seq<Inst> {
    Filter(i => Shown(w, i), s)
  }

  function BySn(): (Inst, Inst) -> bool {
    (a: Inst, b: Inst) => a.sn <= b.sn
  }

  lemma BySnOrders()
    ensures TotalPreorder(BySn())
  {
  }

  // ---------- The buffer as a value ----------

  /** `out` is everything that has left the queue, shown or not. */
  datatype Buffer = Buffer(queue: seq<Inst>, out: seq<Inst>)

  function Flush(b: Buffer, lower: nat): Buffer {
    var sorted := Sort(BySn(), b.queue);
    var n := if |sorted| > lower then |sorted| - lower else 0;
    Buffer(sorted[n..], b.out + sorted[..n])
  }

  function Enqueue(b: Buffer, inst: Inst, min: nat, max: nat): Buffer {
    var longer := Buffer(b.queue + [inst], b.out);
    if |longer.queue| > max then Flush(longer, min) else longer
  }

  function Stream(insts: seq<Inst>, min: nat, max: nat): Buffer {
    if insts == [] then Buffer([], [])
    else Enqueue(Stream(insts[..|insts| - 1], min, max), insts[|insts| - 1], min, max)
  }

  /** The buffer after `insts`. */
  ghost function At(insts: seq<Inst>, min: nat, max: nat): Buffer {
    Stream(insts, min, max)
  }

  /** Everything that leaves the queue when the trace ends after `insts`. */
  function Output(insts: seq<Inst>, min: nat, max: nat): seq<Inst> {
    Flush(Stream(insts, min, max), 0).out
  }

  // ---------- The viewer ----------

  class Viewer {
    const minThreshold: nat
    const maxThreshold: nat
    const window: Window
    var queue: seq<Inst>
    var printed: seq<Inst>
    ghost var out: seq<Inst>

    ghost predicate Valid()
      reads this
    {
      printed == Visible(window, out)
    }

    ghost function Now(): Buffer
      reads this
    {
      Buffer(queue, out)
    }

    constructor (min: nat, max: nat, w: Window)
      ensures Valid() && minThreshold == min && maxThreshold == max && window == w
      ensures Now() == Buffer([], [])
    {
      minThreshold, maxThreshold, window := min, max, w;
      queue, printed, out := [], [], [];
    }

    /** `print_insts` */
    method PrintInsts(lower: nat)
      requires Valid()
      modifies this
      ensures Valid() && Now() == Flush(old(Now()), lower)
      ensures IsWindowOf(window, out, printed)
    {
      queue := Sort(BySn(), queue);
      ghost var sorted := queue;
      ghost var n := 0;
      while |queue| > lower
        invariant n <= |sorted| && queue == sorted[n..]
        invariant n > 0 ==> |queue| >= lower
        invariant out == old(out) + sorted[..n]
        invariant Valid()
      {
        var item := queue[0];
        queue := queue[1..];
        VisibleStep(window, out, item);
        out := out + [item];
        n := n + 1;
        if Shown(window, item) {
          printed := printed + [item];
        }
      }
      VisibleMeans(window, out);
    }

    /** `queue_inst` */
    method QueueInst(inst: Inst)
      requires Valid()
      modifies this
      ensures Valid() && Now() == Enqueue(old(Now()), inst, minThreshold, maxThreshold)
    {
      queue := queue + [inst];
      if |queue| > maxThreshold {
        PrintInsts(minThreshold);
      }
    }

    /** The part of the main loop that feeds the queue, up to the final flush at the end of the trace. */
    method PrintTrace(insts: seq<Inst>)
      requires Valid() && Now() == Buffer([], [])
      modifies this
      ensures printed == Visible(window, Output(insts, minThreshold, maxThreshold))
      ensures forall i :: multiset(printed)[i] ==
                if (window.snStart <= 0 || i.sn >= window.snStart) && (window.snStop <= 0 || i.sn <= window.snStop) &&
                   (window.tickStart <= 0 || i.fetch >= window.tickStart) && (window.tickStop <= 0 || i.fetch <= window.tickStop) &&
                   (!window.onlyCommitted || i.retire != 0)
                then multiset(insts)[i] else 0
      ensures minThreshold <= maxThreshold && InTime(insts, minThreshold, maxThreshold)
              ==> printed == Visible(window, Sort(BySn(), insts))
    {
      for k := 0 to |insts|
        invariant Valid() && Now() == Stream(insts[..k], minThreshold, maxThreshold)
      {
        QueueInst(insts[k]);
        assert insts[..k + 1][..k] == insts[..k];
      }
      assert insts[..|insts|] == insts;
      PrintInsts(0);
      OutputIsPermutation(insts, minThreshold, maxThreshold);
      VisibleMeans(window, out);
      if minThreshold <= maxThreshold {
        SortedIffInTime(insts, minThreshold, maxThreshold);
      }
    }
  }

  // ---------- Counting what overtakes an instruction ----------

  function CountGreater(s: seq<Inst>, sn: int): nat {
    if s == [] then 0
    else CountGreater(s[..|s| - 1], sn) + (if s[|s| - 1].sn > sn then 1 else 0)
  }

  /** No instruction is overtaken by more than `bound` instructions with a larger number. */
  ghost predicate DisorderAtMost(insts: seq<Inst>, bound: nat) {
    forall j :: 0 <= j < |insts| ==> CountGreater(insts[..j], insts[j].sn) <= bound
  }

  /** How many instructions had been queued at the last flush before instruction `j` arrives. */
  function Flushed(j: nat, min: nat, max: nat): int
    requires min <= max
  {
    if j <= max then 0 else j - (j - (max + 1)) % (max + 1 - min)
  }

  /** Of the instructions that took part in the last flush before it, at most `min` have a larger number. */
  ghost predicate InTimeAt(insts: seq<Inst>, min: nat, max: nat, j: nat)
    requires min <= max && j < |insts|
  {
    FlushedFacts(j, min, max);
    CountGreater(insts[..Flushed(j, min, max)], insts[j].sn) <= min
  }

  ghost predicate InTime(insts: seq<Inst>, min: nat, max: nat)
    requires min <= max
  {
    forall j :: 0 <= j < |insts| ==> InTimeAt(insts, min, max, j)
  }

  lemma FlushedFacts(j: nat, min: nat, max: nat)
    requires min <= max
    ensures 0 <= Flushed(j, min, max) <= j
    ensures Flushed(j, min, max) == 0 <==> j <= max
  {
    if j > max {
      var x, p := j - (max + 1), max + 1 - min;
      RemainderBelow(x, p);
    }
  }

  lemma RemainderBelow(x: nat, p: nat)
    requires p > 0
    ensures 0 <= x % p <= x && x % p < p
  {
  }

  lemma RemainderStep(x: nat, p: nat)
    requires p > 0
    ensures (x + 1) % p == if x % p == p - 1 then 0 else x % p + 1
  {
    var q, r := x / p, x % p;
    assert x == q * p + r;
    if r == p - 1 {
      assert x + 1 == (q + 1) * p;
      ModShift(x + 1, q + 1, p);
    } else {
      assert x + 1 == q * p + (r + 1);
      ModShift(x + 1, q, p);
    }
  }

  /** How many instructions are in the queue when instruction `j` arrives. */
  function Held(j: nat, min: nat, max: nat): int
    requires min <= max
  {
    if j <= max then j else min + (j - Flushed(j, min, max))
  }

  /** The next flush is due when the queue is full. */
  lemma FlushedStep(j: nat, min: nat, max: nat)
    requires min <= max
    ensures Flushed(j + 1, min, max) == if Held(j, min, max) + 1 > max then j + 1 else Flushed(j, min, max)
    ensures Held(j + 1, min, max) == if Held(j, min, max) + 1 > max then min else Held(j, min, max) + 1
  {
    if j == max {
      assert 0 % (max + 1 - min) == 0;
    } else if j > max {
      var x, p := j - (max + 1), max + 1 - min;
      RemainderBelow(x, p);
      RemainderStep(x, p);
    }
  }

  lemma {:induction false} CountGreaterConcat(a: seq<Inst>, b: seq<Inst>, sn: int)
    ensures CountGreater(a + b, sn) == CountGreater(a, sn) + CountGreater(b, sn)
  {
    if b == [] {
      assert a + b == a;
    } else {
      assert (a + b)[..|a + b| - 1] == a + b[..|b| - 1];
      CountGreaterConcat(a, b[..|b| - 1], sn);
    }
  }

  lemma {:induction false} CountGreaterInsert(s: seq<Inst>, x: Inst, sn: int)
    ensures CountGreater(Insert(BySn(), s, x), sn) == CountGreater(s + [x], sn)
  {
    assert (s + [x])[..|s|] == s;
    if s != [] && !BySn()(s[|s| - 1], x) {
      var n := |s| - 1;
      CountGreaterInsert(s[..n], x, sn);
      CountGreaterConcat(s[..n], [x], sn);
      CountGreaterConcat(Insert(BySn(), s[..n], x), [s[n]], sn);
      CountGreaterConcat(s, [x], sn);
    }
  }

  lemma {:induction false} CountGreaterSort(s: seq<Inst>, sn: int)
    ensures CountGreater(Sort(BySn(), s), sn) == CountGreater(s, sn)
  {
    if s != [] {
      var n := |s| - 1;
      var t := s[..n];
      CountGreaterSort(t, sn);
      CountGreaterInsert(Sort(BySn(), t), s[n], sn);
      CountGreaterConcat(Sort(BySn(), t), [s[n]], sn);
      CountGreaterConcat(t, [s[n]], sn);
      assert s == t + [s[n]];
    }
  }

  lemma {:induction false} CountGreaterSuffix(s: seq<Inst>, i: nat, sn: int)
    requires i <= |s| && forall j :: i <= j < |s| ==> s[j].sn > sn
    ensures CountGreater(s, sn) >= |s| - i
  {
    if i < |s| {
      CountGreaterSuffix(s[..|s| - 1], i, sn);
    }
  }

  /** What has left the queue, followed by what is still in it, sorts to everything seen so far. */
  ghost predicate OnTrack(b: Buffer, insts: seq<Inst>, min: nat) {
    && b.out + Sort(BySn(), b.queue) == Sort(BySn(), insts)
    && (b.out != [] ==> |b.queue| >= min)
  }

  ghost predicate TrackedAt(insts: seq<Inst>, min: nat, max: nat) {
    OnTrack(At(insts, min, max), insts, min)
  }

  ghost predicate OutBelow(b: Buffer, sn: int) {
    forall i :: 0 <= i < |b.out| ==> b.out[i].sn <= sn
  }

  ghost predicate Ascending(s: seq<Inst>) {
    forall i, j :: 0 <= i < j < |s| ==> s[i].sn <= s[j].sn
  }

  lemma SortFacts(s: seq<Inst>)
    ensures var t := Sort(BySn(), s); |t| == |s| && Ascending(t) && multiset(t) == multiset(s)
  {
    BySnOrders();
    SortSorted(BySn(), s);
    var t := Sort(BySn(), s);
    assert |multiset(t)| == |multiset(s)|;
    forall i, j | 0 <= i < j < |t| ensures t[i].sn <= t[j].sn {
      assert BySn()(t[i], t[j]);
    }
  }

  lemma SortAscending(s: seq<Inst>)
    requires Ascending(s)
    ensures Sort(BySn(), s) == s
  {
    SortOfSorted(BySn(), s);
  }

  lemma SortLength(s: seq<Inst>)
    ensures |Sort(BySn(), s)| == |s|
  {
    SortFacts(s);
  }

  /** In an ascending list, whatever stands before the last `min` elements has more than `min` elements not below it. */
  lemma EarlyMeansSmall(out: seq<Inst>, held: seq<Inst>, sn: int, min: nat)
    requires Ascending(out + held) && CountGreater(out + held, sn) <= min
    requires out != [] ==> |held| >= min
    ensures forall i :: 0 <= i < |out| ==> out[i].sn <= sn
  {
    var all := out + held;
    forall i | 0 <= i < |out| ensures out[i].sn <= sn {
      assert all[i] == out[i];
      if all[i].sn > sn {
        CountGreaterSuffix(all, i, sn);
      }
    }
  }

  lemma NothingPrintedTooEarly(b: Buffer, insts: seq<Inst>, x: Inst, min: nat)
    requires OnTrack(b, insts, min) && CountGreater(insts, x.sn) <= min
    ensures OutBelow(b, x.sn)
  {
    SortFacts(insts);
    SortLength(b.queue);
    CountGreaterSort(insts, x.sn);
    EarlyMeansSmall(b.out, Sort(BySn(), b.queue), x.sn, min);
  }

  lemma SuffixAscending(s: seq<Inst>, n: nat)
    requires Ascending(s) && n <= |s|
    ensures Ascending(s[n..])
  {
  }

  lemma MoveToOut(out: seq<Inst>, sorted: seq<Inst>, n: nat)
    requires n <= |sorted|
    ensures (out + sorted[..n]) + sorted[n..] == out + sorted
  {
  }

  lemma SortedSuffix(queue: seq<Inst>, n: nat)
    requires n <= |Sort(BySn(), queue)|
    ensures var rest := Sort(BySn(), queue)[n..]; Sort(BySn(), rest) == rest
  {
    var sorted := Sort(BySn(), queue);
    SortFacts(queue);
    SuffixAscending(sorted, n);
    SortAscending(sorted[n..]);
  }

  lemma FlushStaysOnTrack(b: Buffer, insts: seq<Inst>, min: nat, lower: nat)
    requires b.out + Sort(BySn(), b.queue) == Sort(BySn(), insts) && |b.queue| >= lower >= min
    ensures OnTrack(Flush(b, lower), insts, min)
  {
    var sorted := Sort(BySn(), b.queue);
    SortLength(b.queue);
    var n := |sorted| - lower;
    var f := Flush(b, lower);
    assert f == Buffer(sorted[n..], b.out + sorted[..n]);
    SortedSuffix(b.queue, n);
    MoveToOut(b.out, sorted, n);
  }

  lemma AppendStaysOnTrack(b: Buffer, insts: seq<Inst>, x: Inst)
    requires b.out + Sort(BySn(), b.queue) == Sort(BySn(), insts)
    requires OutBelow(b, x.sn)
    ensures b.out + Sort(BySn(), b.queue + [x]) == Sort(BySn(), insts + [x])
  {
    assert (insts + [x])[..|insts|] == insts;
    assert (b.queue + [x])[..|b.queue|] == b.queue;
    InsertBehind(BySn(), b.out, Sort(BySn(), b.queue), x);
  }

  lemma EnqueueStaysOnTrack(b: Buffer, insts: seq<Inst>, x: Inst, min: nat, max: nat)
    requires min <= max && OnTrack(b, insts, min)
    requires OutBelow(b, x.sn)
    ensures OnTrack(Enqueue(b, x, min, max), insts + [x], min)
  {
    AppendStaysOnTrack(b, insts, x);
    if |b.queue| + 1 > max {
      FlushStaysOnTrack(Buffer(b.queue + [x], b.out), insts + [x], min, min);
    }
  }

  lemma StreamLast(insts: seq<Inst>, n: nat, min: nat, max: nat)
    requires |insts| == n + 1
    ensures At(insts, min, max) == Enqueue(At(insts[..n], min, max), insts[n], min, max)
  {
  }

  // ---------- What happens between two flushes ----------

  /** The queue after `b` and a few more instructions without a flush. */
  function Longer(b: Buffer, more: seq<Inst>): Buffer {
    Buffer(b.queue + more, b.out)
  }

  lemma EnqueueLength(b: Buffer, x: Inst, min: nat, max: nat)
    requires min <= max
    ensures var more := Enqueue(b, x, min, max);
            if |b.queue| + 1 > max then |more.queue| == min else more == Longer(b, [x])
  {
    if |b.queue| + 1 > max {
      SortLength(b.queue + [x]);
    }
  }

  lemma {:induction false} QueueLength(insts: seq<Inst>, min: nat, max: nat)
    requires min <= max
    ensures |At(insts, min, max).queue| == Held(|insts|, min, max)
  {
    if insts != [] {
      var n := |insts| - 1;
      var before := insts[..n];
      QueueLength(before, min, max);
      EnqueueLength(At(before, min, max), insts[n], min, max);
      FlushedStep(n, min, max);
    }
  }

  lemma JustAppended(insts: seq<Inst>, min: nat, max: nat)
    requires min <= max && insts != [] && Held(|insts| - 1, min, max) + 1 <= max
    ensures var n := |insts| - 1; At(insts, min, max) == Longer(At(insts[..n], min, max), [insts[n]])
  {
    var n := |insts| - 1;
    QueueLength(insts[..n], min, max);
    StreamLast(insts, n, min, max);
    EnqueueLength(At(insts[..n], min, max), insts[n], min, max);
  }

  /** Since the last flush instructions have only been appended. */
  lemma {:induction false} SinceFlush(insts: seq<Inst>, min: nat, max: nat, f: nat)
    requires min <= max && f == Flushed(|insts|, min, max) <= |insts|
    ensures At(insts, min, max) == Longer(At(insts[..f], min, max), insts[f..])
  {
    if f == |insts| {
      assert insts[..f] == insts && insts[f..] == [];
      var b := At(insts, min, max);
      assert b.queue + [] == b.queue;
    } else {
      var n := |insts| - 1;
      var before, x := insts[..n], insts[n];
      FlushedStep(n, min, max);
      SinceFlush(before, min, max, f);
      JustAppended(insts, min, max);
      assert before[..f] == insts[..f] && before[f..] + [x] == insts[f..];
      AppendAgain(At(insts[..f], min, max), before[f..], x);
    }
  }

  lemma AppendAgain(b: Buffer, more: seq<Inst>, x: Inst)
    ensures Longer(Longer(b, more), [x]) == Longer(b, more + [x])
  {
    assert b.queue + more + [x] == b.queue + (more + [x]);
  }

  // ---------- In time is enough ----------

  lemma InTimePrefix(insts: seq<Inst>, min: nat, max: nat, n: nat)
    requires min <= max && n <= |insts| && InTime(insts, min, max)
    ensures InTime(insts[..n], min, max)
  {
    var before := insts[..n];
    forall j | 0 <= j < n ensures InTimeAt(before, min, max, j) {
      assert InTimeAt(insts, min, max, j);
      FlushedFacts(j, min, max);
      assert before[..Flushed(j, min, max)] == insts[..Flushed(j, min, max)];
    }
  }

  /** What has left the queue left it at the last flush, so only that flush can have been too early. */
  lemma OutIsSmall(insts: seq<Inst>, min: nat, max: nat, n: nat, f: nat)
    requires min <= max && n < |insts| && InTime(insts, min, max) && f == Flushed(n, min, max) <= n
    requires TrackedAt(insts[..f], min, max)
    ensures OutBelow(At(insts[..n], min, max), insts[n].sn)
  {
    assert InTimeAt(insts, min, max, n);
    SinceFlush(insts[..n], min, max, f);
    assert insts[..n][..f] == insts[..f];
    NothingPrintedTooEarly(At(insts[..f], min, max), insts[..f], insts[n], min);
  }

  lemma StepStaysOnTrack(insts: seq<Inst>, before: seq<Inst>, x: Inst, b: Buffer, next: Buffer, min: nat, max: nat)
    requires min <= max && insts == before + [x] && b == At(before, min, max) && next == At(insts, min, max)
    requires OnTrack(b, before, min) && OutBelow(b, x.sn)
    ensures OnTrack(next, insts, min)
  {
    assert next == Enqueue(b, x, min, max) by {
      var n := |before|;
      assert insts[..n] == before;
      StreamLast(insts, n, min, max);
    }
    NextOnTrack(b, next, before, x, insts, min, max);
  }

  lemma NextOnTrack(b: Buffer, next: Buffer, before: seq<Inst>, x: Inst, insts: seq<Inst>, min: nat, max: nat)
    requires min <= max && next == Enqueue(b, x, min, max) && insts == before + [x] && OnTrack(b, before, min)
    requires OutBelow(b, x.sn)
    ensures OnTrack(next, insts, min)
  {
    EnqueueStaysOnTrack(b, before, x, min, max);
  }

  lemma {:induction false} StreamStaysOnTrack(insts: seq<Inst>, min: nat, max: nat)
    requires min <= max && InTime(insts, min, max)
    ensures TrackedAt(insts, min, max)
    decreases |insts|
  {
    if insts != [] {
      var n := |insts| - 1;
      var f := Flushed(n, min, max);
      FlushedFacts(n, min, max);
      InTimePrefix(insts, min, max, n);
      InTimePrefix(insts, min, max, f);
      StreamStaysOnTrack(insts[..n], min, max);
      StreamStaysOnTrack(insts[..f], min, max);
      OutIsSmall(insts, min, max, n, f);
      assert insts == insts[..n] + [insts[n]];
      StepStaysOnTrack(insts, insts[..n], insts[n], At(insts[..n], min, max), At(insts, min, max), min, max);
    }
  }

  lemma OnTrackOutput(insts: seq<Inst>, min: nat, max: nat)
    requires TrackedAt(insts, min, max)
    ensures Output(insts, min, max) == Sort(BySn(), insts)
  {
    var b := At(insts, min, max);
    SortLength(b.queue);
    assert Sort(BySn(), b.queue)[..|b.queue|] == Sort(BySn(), b.queue);
  }

  // ---------- For every trace ----------

  lemma FlushConserves(b: Buffer, lower: nat)
    ensures var f := Flush(b, lower); multiset(f.out + f.queue) == multiset(b.out + b.queue) && b.out <= f.out
  {
    var sorted := Sort(BySn(), b.queue);
    SortPermutes(BySn(), b.queue);
    var n := if |sorted| > lower then |sorted| - lower else 0;
    MoveToOut(b.out, sorted, n);
    assert multiset(b.out + sorted) == multiset(b.out) + multiset(sorted);
  }

  lemma EnqueueConserves(b: Buffer, x: Inst, min: nat, max: nat)
    ensures var f := Enqueue(b, x, min, max); multiset(f.out + f.queue) == multiset(b.out + b.queue) + multiset{x}
  {
    var longer := Buffer(b.queue + [x], b.out);
    assert longer.out + longer.queue == b.out + b.queue + [x];
    FlushConserves(longer, min);
  }

  lemma OneMore(all: seq<Inst>, prior: seq<Inst>, insts: seq<Inst>)
    requires insts != []
    requires multiset(prior) == multiset(insts[..|insts| - 1])
    requires multiset(all) == multiset(prior) + multiset{insts[|insts| - 1]}
    ensures multiset(all) == multiset(insts)
  {
    assert insts == insts[..|insts| - 1] + [insts[|insts| - 1]];
  }

  lemma {:induction false} StreamConserves(insts: seq<Inst>, min: nat, max: nat)
    ensures var b := At(insts, min, max); multiset(b.out + b.queue) == multiset(insts)
  {
    if insts != [] {
      var n := |insts| - 1;
      var before := insts[..n];
      var b, f := At(before, min, max), At(insts, min, max);
      StreamConserves(before, min, max);
      StreamLast(insts, n, min, max);
      EnqueueConserves(b, insts[n], min, max);
      OneMore(f.out + f.queue, b.out + b.queue, insts);
    }
  }

  /** However disordered the trace, every queued instruction leaves the queue exactly once. */
  lemma OutputIsPermutation(insts: seq<Inst>, min: nat, max: nat)
    ensures multiset(Output(insts, min, max)) == multiset(insts)
  {
    var b := At(insts, min, max);
    StreamConserves(insts, min, max);
    FlushConserves(b, 0);
    SortFacts(b.queue);
    assert Flush(b, 0).out + Flush(b, 0).queue == Flush(b, 0).out;
  }

  lemma VisibleStep(w: Window, s: seq<Inst>, i: Inst)
    ensures Visible(w, s + [i]) == if Shown(w, i) then Visible(w, s) + [i] else Visible(w, s)
  {
    FilterConcat(i => Shown(w, i), s, [i]);
  }

  /** What the window lets through, in the fields of an instruction, and how often. */
  ghost predicate IsWindowOf(w: Window, s: seq<Inst>, printed: seq<Inst>) {
    forall i :: multiset(printed)[i] ==
      if (w.snStart <= 0 || i.sn >= w.snStart) && (w.snStop <= 0 || i.sn <= w.snStop) &&
         (w.tickStart <= 0 || i.fetch >= w.tickStart) && (w.tickStop <= 0 || i.fetch <= w.tickStop) &&
         (!w.onlyCommitted || i.retire != 0)
      then multiset(s)[i] else 0
  }

  lemma VisibleMeans(w: Window, s: seq<Inst>)
    ensures IsWindowOf(w, s, Visible(w, s))
  {
    forall i {
      FilterCount(i => Shown(w, i), s, i);
    }
  }

  // ---------- In time is necessary ----------

  lemma FlushCounts(b: Buffer, lower: nat, sn: int)
    ensures var f := Flush(b, lower); CountGreater(f.out + f.queue, sn) == CountGreater(b.out + b.queue, sn)
  {
    var sorted := Sort(BySn(), b.queue);
    var f := Flush(b, lower);
    assert f.out + f.queue == b.out + sorted;
    CountGreaterConcat(b.out, sorted, sn);
    CountGreaterConcat(b.out, b.queue, sn);
    CountGreaterSort(b.queue, sn);
  }

  lemma EnqueueCounts(b: Buffer, x: Inst, min: nat, max: nat, sn: int)
    ensures var f := Enqueue(b, x, min, max);
            CountGreater(f.out + f.queue, sn) == CountGreater(b.out + b.queue + [x], sn)
  {
    var longer := Buffer(b.queue + [x], b.out);
    assert longer.out + longer.queue == b.out + b.queue + [x];
    FlushCounts(longer, min, sn);
  }

  lemma {:induction false} StreamCounts(insts: seq<Inst>, min: nat, max: nat, sn: int)
    ensures var b := At(insts, min, max); CountGreater(b.out + b.queue, sn) == CountGreater(insts, sn)
  {
    if insts != [] {
      var n := |insts| - 1;
      var before, x := insts[..n], insts[n];
      var b := At(before, min, max);
      StreamCounts(before, min, max, sn);
      EnqueueCounts(b, x, min, max, sn);
      CountGreaterConcat(b.out + b.queue, [x], sn);
      CountGreaterConcat(before, [x], sn);
      assert insts == before + [x];
    }
  }

  lemma {:induction false} CountAtMostLength(s: seq<Inst>, sn: int)
    ensures CountGreater(s, sn) <= |s|
  {
    if s != [] {
      CountAtMostLength(s[..|s| - 1], sn);
    }
  }

  lemma {:induction false} NoneGreater(s: seq<Inst>, sn: int)
    requires forall i :: 0 <= i < |s| ==> s[i].sn <= sn
    ensures CountGreater(s, sn) == 0
  {
    if s != [] {
      NoneGreater(s[..|s| - 1], sn);
    }
  }

  /** An instruction that is not in time finds a larger one already gone. */
  lemma LargerOneIsGone(insts: seq<Inst>, min: nat, max: nat, j: nat, f: nat) returns (i: nat)
    requires min <= max && j < |insts| && !InTimeAt(insts, min, max, j) && f == Flushed(j, min, max) <= j
    ensures var out := At(insts[..f], min, max).out; i < |out| && out[i].sn > insts[j].sn
  {
    var sn := insts[j].sn;
    var b := At(insts[..f], min, max);
    StreamCounts(insts[..f], min, max, sn);
    CountGreaterConcat(b.out, b.queue, sn);
    CountAtMostLength(b.queue, sn);
    HeldAtFlush(insts, min, max, j, f);
    assert CountGreater(b.out, sn) > 0;
    if forall k :: 0 <= k < |b.out| ==> b.out[k].sn <= sn {
      NoneGreater(b.out, sn);
      assert false;
    }
    i :| 0 <= i < |b.out| && b.out[i].sn > sn;
  }

  lemma HeldAtFlush(insts: seq<Inst>, min: nat, max: nat, j: nat, f: nat)
    requires min <= max && j <= |insts| && f == Flushed(j, min, max) <= j
    ensures |At(insts[..f], min, max).queue| <= min
  {
    QueueLength(insts[..f], min, max);
    FlushedFacts(j, min, max);
    if j > max {
      SinceFlush(insts[..j], min, max, f);
      QueueLength(insts[..j], min, max);
      assert insts[..j][..f] == insts[..f];
    }
  }

  lemma EnqueueGrows(b: Buffer, x: Inst, min: nat, max: nat)
    ensures b.out <= Enqueue(b, x, min, max).out
  {
    FlushConserves(Buffer(b.queue + [x], b.out), min);
  }

  /** What has left the queue stays in front. */
  lemma {:induction false} OutGrows(insts: seq<Inst>, min: nat, max: nat, k: nat)
    requires k <= |insts|
    ensures At(insts[..k], min, max).out <= At(insts, min, max).out
    decreases |insts|
  {
    if k == |insts| {
      assert insts[..k] == insts;
    } else {
      var n := |insts| - 1;
      var before := insts[..n];
      assert before[..k] == insts[..k];
      OutGrows(before, min, max, k);
      StreamLast(insts, n, min, max);
      EnqueueGrows(At(before, min, max), insts[n], min, max);
    }
  }

  lemma OutputGrows(insts: seq<Inst>, min: nat, max: nat, k: nat)
    requires k <= |insts|
    ensures At(insts[..k], min, max).out <= Output(insts, min, max)
  {
    OutGrows(insts, min, max, k);
    FlushConserves(At(insts, min, max), 0);
  }

  /** An instruction that arrives later leaves later. */
  lemma LeavesLater(insts: seq<Inst>, min: nat, max: nat, j: nat, k: nat)
    requires k <= j < |insts|
    ensures var out := At(insts[..k], min, max).out;
            |out| <= |Output(insts, min, max)| && insts[j] in Output(insts, min, max)[|out|..]
  {
    var output, b := Output(insts, min, max), At(insts[..k], min, max);
    OutputGrows(insts, min, max, k);
    OutputIsPermutation(insts, min, max);
    StreamConserves(insts[..k], min, max);
    RestHolds(output, b.out, b.queue, insts, k, j);
  }

  lemma Cancel(out: multiset<Inst>, queue: multiset<Inst>, rest: multiset<Inst>, before: multiset<Inst>, later: multiset<Inst>, x: Inst)
    requires out + queue == before && out + rest == before + later
    ensures rest[x] == queue[x] + later[x]
  {
    assert (out + queue)[x] == out[x] + queue[x];
    assert (out + rest)[x] == out[x] + rest[x];
    assert (before + later)[x] == before[x] + later[x];
  }

  lemma RestHolds(output: seq<Inst>, out: seq<Inst>, queue: seq<Inst>, insts: seq<Inst>, k: nat, j: nat)
    requires k <= j < |insts| && out <= output && multiset(output) == multiset(insts)
    requires multiset(out + queue) == multiset(insts[..k])
    ensures insts[j] in output[|out|..]
  {
    var rest, later := output[|out|..], insts[k..];
    assert output == out + rest && insts == insts[..k] + later;
    assert later[j - k] == insts[j];
    var x := insts[j];
    assert x in multiset(later);
    assert multiset(out + rest) == multiset(insts[..k] + later);
    Cancel(multiset(out), multiset(queue), multiset(rest), multiset(insts[..k]), multiset(later), x);
    assert x in multiset(rest);
  }

  lemma LateIsOutOfPlace(insts: seq<Inst>, min: nat, max: nat, j: nat)
    requires min <= max && j < |insts| && !InTimeAt(insts, min, max, j)
    ensures !Ascending(Output(insts, min, max))
  {
    var f := Flushed(j, min, max);
    FlushedFacts(j, min, max);
    var i := LargerOneIsGone(insts, min, max, j, f);
    LeavesLater(insts, min, max, j, f);
    OutputGrows(insts, min, max, f);
    OutOfPlace(Output(insts, min, max), |At(insts[..f], min, max).out|, i, insts[j]);
  }

  lemma OutOfPlace(output: seq<Inst>, n: nat, i: nat, x: Inst)
    requires i < n <= |output| && x in output[n..] && output[i].sn > x.sn
    ensures !Ascending(output)
  {
    var k :| 0 <= k < |output| - n && output[n..][k] == x;
    assert output[n + k] == x;
  }

  /** For every trace and all thresholds: the output is the sorted trace, and is in order at all, exactly
      when every instruction is in time for the flush before it. */
  lemma SortedIffInTime(insts: seq<Inst>, min: nat, max: nat)
    requires min <= max
    ensures Output(insts, min, max) == Sort(BySn(), insts) <==> InTime(insts, min, max)
    ensures Ascending(Output(insts, min, max)) <==> InTime(insts, min, max)
  {
    if InTime(insts, min, max) {
      StreamStaysOnTrack(insts, min, max);
      OnTrackOutput(insts, min, max);
    } else {
      var j :| 0 <= j < |insts| && !InTimeAt(insts, min, max, j);
      LateIsOutOfPlace(insts, min, max, j);
    }
    SortFacts(insts);
  }

  // ---------- Bounded disorder ----------

  lemma CountGreaterPrefix(s: seq<Inst>, n: nat, sn: int)
    requires n <= |s|
    ensures CountGreater(s[..n], sn) <= CountGreater(s, sn)
  {
    assert s == s[..n] + s[n..];
    CountGreaterConcat(s[..n], s[n..], sn);
  }

  /** With disorder bounded by the lower threshold, holding instructions back is as good as sorting the whole trace. */
  lemma StreamingSortsFully(insts: seq<Inst>, min: nat, max: nat)
    requires min <= max && DisorderAtMost(insts, min)
    ensures Output(insts, min, max) == Sort(BySn(), insts)
  {
    forall j | 0 <= j < |insts| ensures InTimeAt(insts, min, max, j) {
      FlushedFacts(j, min, max);
      assert insts[..j][..Flushed(j, min, max)] == insts[..Flushed(j, min, max)];
      CountGreaterPrefix(insts[..j], Flushed(j, min, max), insts[j].sn);
    }
    SortedIffInTime(insts, min, max);
  }

  /** A trace that fills the queue at most once comes out sorted, however disordered it is. */
  lemma ShortTraceIsSorted(insts: seq<Inst>, min: nat, max: nat)
    requires min <= max && |insts| <= max + 1
    ensures Output(insts, min, max) == Sort(BySn(), insts)
  {
    forall j | 0 <= j < |insts| ensures InTimeAt(insts, min, max, j) {
      FlushedFacts(j, min, max);
      assert insts[..0] == [];
    }
    SortedIffInTime(insts, min, max);
  }

  /** `n` instructions in order, with even sequence numbers. */
  function Evens(n: nat): (s: seq<Inst>)
    ensures |s| == n
  {
    if n == 0 then [] else Evens(n - 1) + [Inst(2 * (n - 1), 0, 0, 0)]
  }

  /** `max + 1` instructions in order, then one that belongs before the last `min + 1` of them. */
  function Latecomer(min: nat, max: nat): seq<Inst>
    requires min <= max
  {
    Evens(max + 1) + [Inst(2 * (max - min) - 1, 0, 0, 0)]
  }

  lemma {:induction false} EvensFacts(n: nat)
    ensures |Evens(n)| == n && forall i :: 0 <= i < n ==> Evens(n)[i] == Inst(2 * i, 0, 0, 0)
  {
    if n > 0 {
      EvensFacts(n - 1);
    }
  }

  lemma {:induction false} CountGreaterEvens(n: nat, k: int)
    requires 0 <= k <= n
    ensures CountGreater(Evens(n), 2 * k - 1) == n - k
  {
    EvensFacts(n);
    if n > 0 {
      var m := n - 1;
      EvensFacts(m);
      assert Evens(n)[..m] == Evens(m);
      if k < n {
        CountGreaterEvens(m, k);
      } else {
        NoneGreater(Evens(n), 2 * k - 1);
      }
    }
  }

  lemma LatecomerDisorder(min: nat, max: nat)
    requires min <= max
    ensures DisorderAtMost(Latecomer(min, max), min + 1)
  {
    var evens, insts := Evens(max + 1), Latecomer(min, max);
    EvensFacts(max + 1);
    forall j | 0 <= j < |insts| ensures CountGreater(insts[..j], insts[j].sn) <= min + 1 {
      if j == max + 1 {
        assert insts[..j] == evens;
        CountGreaterEvens(max + 1, max - min);
      } else {
        assert insts[..j] == evens[..j];
        NoneGreater(insts[..j], insts[j].sn);
      }
    }
  }

  /** One place more of disorder than the threshold can already come out wrong, for every pair of thresholds. */
  lemma BoundIsTight(min: nat, max: nat)
    requires min <= max
    ensures DisorderAtMost(Latecomer(min, max), min + 1)
    ensures !Ascending(Output(Latecomer(min, max), min, max))
  {
    var insts, j := Latecomer(min, max), max + 1;
    LatecomerDisorder(min, max);
    CountGreaterEvens(max + 1, max - min);
    FlushedStep(max, min, max);
    assert insts[..j] == Evens(max + 1);
    assert !InTimeAt(insts, min, max, j);
    SortedIffInTime(insts, min, max);
  }
}
