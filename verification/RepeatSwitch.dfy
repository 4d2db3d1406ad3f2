/** Switching CPU models back and forth: `repeatSwitch` and the pair lists of `run`
    (gem5/configs/common/Simulation.py:453-471, 518-593, 737-755, 809-812). The simulator answers
    `simulate` and drains before a switch as gem5/src/python/m5/simulate.py:355-389, 430-509 does. */
module RepeatSwitch {
  datatype Cpu = Base(i: nat) | Switch(i: nat) | Repeat(i: nat)

  type Pair = (Cpu, Cpu)

  function Olds(pairs: seq<Pair>): set<Cpu> {
    set p | p in pairs :: p.0
  }

  function News(pairs: seq<Pair>): set<Cpu> {
    set p | p in pairs :: p.1
  }

  /** What `switchCpus` asks of a CPU class: whether its CPUs can hand over, and the memory mode they need. */
  datatype Class = Class(takesOver: bool, mode: int)

  /** The class of the CPUs the system starts with, of the ones switched to first and of the ones the
      loop switches to. */
  datatype Classes = Classes(base: Class, other: Class, repeated: Class) {
    function Of(c: Cpu): Class {
      match c
      case Base(_) => base
      case Switch(_) => other
      case Repeat(_) => repeated
    }
  }

  /** The checks of `switchCpus` on who runs: no CPU is on both sides, new ones are switched out, old ones
      are running. */
  predicate HandsOver(pairs: seq<Pair>, active: set<Cpu>) {
    && News(pairs) !! Olds(pairs)
    && News(pairs) !! active
    && Olds(pairs) <= active
  }

  /** Its checks on what the CPUs can do; the first new CPU sets the memory mode. */
  predicate Fit(pairs: seq<Pair>, classes: Classes) {
    && pairs != []
    && (forall p :: p in pairs ==> classes.Of(p.0).takesOver && classes.Of(p.1).takesOver)
    && (forall p :: p in pairs ==> classes.Of(p.1).mode == classes.Of(pairs[0].1).mode)
  }

  predicate CanSwitch(pairs: seq<Pair>, active: set<Cpu>, classes: Classes) {
    HandsOver(pairs, active) && Fit(pairs, classes)
  }

  /** Switching there and back passes all checks. */
  predicate CanAlternate(pairs: seq<Pair>, active: set<Cpu>, classes: Classes) {
    CanSwitch(pairs, active, classes) && Fit(Flip(pairs), classes)
  }

  // ---------- Time ----------

  /** One answer of the simulator: whether it ran to the limit it was given, how far it came otherwise,
      and how long draining takes before the switch that may follow. */
  datatype Answer = Answer(limit: bool, progress: nat, drain: nat)

  function Elapsed(a: Answer, d: nat): nat {
    if a.limit || a.progress > d then d else a.progress
  }

  /** How the loop ends, at which tick and after how many switches. A negative number of ticks to
      simulate is refused. */
  datatype Outcome =
    | Ended(tick: int, switches: nat)
    | Refused(tick: int, switches: nat)

  function Run(tick: int, maxtick: int, freq: nat, env: nat -> Answer, k: nat): Outcome
    requires freq > 0
    decreases if maxtick > tick then maxtick - tick else 0
  {
    var a := env(k);
    var t := tick + Elapsed(a, freq);
    if !a.limit then Ended(t, k)
    else
      var u := t + a.drain;
      if maxtick - u <= freq then
        if maxtick < u then Refused(u, k + 1) else Ended(u + Elapsed(env(k + 1), maxtick - u), k + 1)
      else Run(u, maxtick, freq, env, k + 1)
  }

  // ---------- The loop ----------

  function Flip(pairs: seq<Pair>): (f: seq<Pair>)
    ensures |f| == |pairs| && forall i :: 0 <= i < |pairs| ==> f[i] == (pairs[i].1, pairs[i].0)
  {
    if pairs == [] then [] else Flip(pairs[..|pairs| - 1]) + [(pairs[|pairs| - 1].1, pairs[|pairs| - 1].0)]
  }

  /** The pair list and the running CPUs after an even and after an odd number of switches. */
  function ListAfter(pairs: seq<Pair>, k: nat): seq<Pair> {
    if k % 2 == 0 then pairs else Flip(pairs)
  }

  function ActiveAfter(pairs: seq<Pair>, active: set<Cpu>, k: nat): set<Cpu> {
    if k % 2 == 0 then active else Switched(pairs, active)
  }

  /** The running CPUs after one switch. */
  function Switched(pairs: seq<Pair>, active: set<Cpu>): set<Cpu> {
    active - Olds(pairs) + News(pairs)
  }

  /** Lines 464-467: the same pairs the other way round. */
  method TurnAround(list: seq<Pair>) returns (tmp: seq<Pair>)
    ensures tmp == Flip(list)
  {
    tmp := [];
    for i := 0 to |list|
      invariant tmp == Flip(list[..i])
    {
      assert list[..i + 1][..i] == list[..i];
      tmp := tmp + [(list[i].1, list[i].0)];
    }
    assert list[..|list|] == list;
  }

  class Simulator {
    const classes: Classes
    var tick: int
    var active: set<Cpu>
    var mode: int

    constructor (cpus: Classes, t: int, running: set<Cpu>, memoryMode: int)
      ensures classes == cpus && tick == t && active == running && mode == memoryMode
    {
      classes, tick, active, mode := cpus, t, running, memoryMode;
    }

    /** `m5.simulate(d)`: it never runs past the limit, and reports the limit only when it got there. */
    method Simulate(d: nat, a: Answer)
      modifies this`tick
      ensures old(tick) <= tick <= old(tick) + d
      ensures a.limit ==> tick == old(tick) + d
      ensures tick == old(tick) + Elapsed(a, d)
    {
      tick := tick + Elapsed(a, d);
    }

    /** `m5.switchCpus`; its checks are a precondition, so every call of it is shown to pass them. */
    method SwitchCpus(pairs: seq<Pair>, a: Answer)
      requires CanSwitch(pairs, active, classes)
      modifies this
      ensures tick == old(tick) + a.drain && active == Switched(pairs, old(active))
      ensures mode == classes.Of(pairs[0].1).mode
    {
      tick := tick + a.drain;
      active := active - Olds(pairs);
      mode := classes.Of(pairs[0].1).mode;
      active := active + News(pairs);
    }

    /** Lines 462-467. */
    method NextTurn(list: seq<Pair>, a: Answer, ghost pairs: seq<Pair>, ghost start: set<Cpu>, ghost k: nat) returns (tmp: seq<Pair>)
      requires CanAlternate(pairs, start, classes)
      requires list == ListAfter(pairs, k) && active == ActiveAfter(pairs, start, k)
      modifies this
      ensures tick == old(tick) + a.drain
      ensures tmp == ListAfter(pairs, k + 1) && active == ActiveAfter(pairs, start, k + 1)
    {
      SwitchKeepsTurn(pairs, start, classes, k);
      SwitchCpus(list, a);
      tmp := TurnAround(list);
    }

    /** `repeatSwitch` */
    method RepeatSwitch(pairs: seq<Pair>, maxtick: int, freq: nat, env: nat -> Answer) returns (r: Outcome)
      requires freq > 0 && CanAlternate(pairs, active, classes)
      modifies this
      ensures r == Run(old(tick), maxtick, freq, env, 0) && tick == r.tick
      ensures active == ActiveAfter(pairs, old(active), r.switches)
    {
      var list := pairs;
      var k := 0;
      while true
        invariant Run(tick, maxtick, freq, env, k) == Run(old(tick), maxtick, freq, env, 0)
        invariant list == ListAfter(pairs, k) && active == ActiveAfter(pairs, old(active), k)
        decreases if maxtick > tick then maxtick - tick else 0
      {
        var a := env(k);
        Simulate(freq, a);
        if !a.limit {
          return Ended(tick, k);
        }
        list := NextTurn(list, a, pairs, old(active), k);
        k := k + 1;
        if maxtick - tick <= freq {
          if maxtick < tick {
            return Refused(tick, k);
          }
          Simulate(maxtick - tick, env(k));
          return Ended(tick, k);
        }
      }
    }
  }

  lemma FlipTwice(pairs: seq<Pair>)
    ensures Flip(Flip(pairs)) == pairs
    ensures Olds(Flip(pairs)) == News(pairs) && News(Flip(pairs)) == Olds(pairs)
  {
    var f := Flip(pairs);
    forall c ensures c in Olds(f) <==> c in News(pairs) {
      if c in Olds(f) { var i :| 0 <= i < |f| && f[i].0 == c; assert pairs[i] in pairs; }
      if c in News(pairs) { var i :| 0 <= i < |pairs| && pairs[i].1 == c; assert f[i] in f; }
    }
    forall c ensures c in News(f) <==> c in Olds(pairs) {
      if c in News(f) { var i :| 0 <= i < |f| && f[i].1 == c; assert pairs[i] in pairs; }
      if c in Olds(pairs) { var i :| 0 <= i < |pairs| && pairs[i].0 == c; assert f[i] in f; }
    }
  }

  lemma SwitchBack(olds: set<Cpu>, news: set<Cpu>, active: set<Cpu>)
    requires news !! olds && news !! active && olds <= active
    ensures (active - olds + news) - news + olds == active
    ensures olds !! (active - olds + news)
  {
  }

  /** At every switch the list at hand passes the checks, and switching takes the list and the set of
      running CPUs to the next turn. */
  lemma SwitchKeepsTurn(pairs: seq<Pair>, active: set<Cpu>, classes: Classes, k: nat)
    requires CanAlternate(pairs, active, classes)
    ensures CanSwitch(ListAfter(pairs, k), ActiveAfter(pairs, active, k), classes)
    ensures Switched(ListAfter(pairs, k), ActiveAfter(pairs, active, k)) == ActiveAfter(pairs, active, k + 1)
    ensures Flip(ListAfter(pairs, k)) == ListAfter(pairs, k + 1)
  {
    var next := k + 1;
    if k % 2 == 0 {
      assert next % 2 == 1;
      assert ListAfter(pairs, k) == pairs && ActiveAfter(pairs, active, k) == active;
    } else {
      assert next % 2 == 0;
      SecondTurn(pairs, active);
      FlipTwice(pairs);
      assert ListAfter(pairs, k) == Flip(pairs) && ActiveAfter(pairs, active, k) == Switched(pairs, active);
    }
  }

  lemma SecondTurn(pairs: seq<Pair>, active: set<Cpu>)
    requires HandsOver(pairs, active)
    ensures HandsOver(Flip(pairs), Switched(pairs, active))
    ensures Switched(Flip(pairs), Switched(pairs, active)) == active
  {
    var olds, news, flipped := Olds(pairs), News(pairs), Flip(pairs);
    FlipTwice(pairs);
    assert Olds(flipped) == news && News(flipped) == olds;
    SwitchBack(olds, news, active);
    assert Switched(pairs, active) == active - olds + news;
  }

  /** After a switch the new CPU of each pair runs, the old one does not, and the memory mode is the one
      every new CPU needs. */
  lemma SwitchMeans(pairs: seq<Pair>, active: set<Cpu>, classes: Classes, p: Pair)
    requires CanSwitch(pairs, active, classes) && p in pairs
    ensures p.0 !in Switched(pairs, active) && p.1 in Switched(pairs, active)
    ensures classes.Of(p.1).mode == classes.Of(pairs[0].1).mode
  {
    assert p.0 in Olds(pairs) && p.1 in News(pairs);
  }

  /** Of each pair exactly one CPU runs, however often the loop has switched. */
  lemma OneOfEachPair(pairs: seq<Pair>, active: set<Cpu>, k: nat, i: nat)
    requires HandsOver(pairs, active) && i < |pairs|
    ensures pairs[i].0 in ActiveAfter(pairs, active, k) <==> pairs[i].1 !in ActiveAfter(pairs, active, k)
  {
    assert pairs[i] in pairs;
    assert pairs[i].0 in Olds(pairs) && pairs[i].1 in News(pairs);
  }

  // ---------- How far time runs ----------

  /** With at least one period left at the start, the loop ends at or before the maximum unless it is
      refused; it is refused only beyond the maximum, and never further beyond it than the last draining
      took. */
  lemma {:induction false} OnlyDrainingOverruns(tick: int, maxtick: int, freq: nat, env: nat -> Answer, k: nat)
    requires freq > 0 && maxtick - tick >= freq
    ensures var r := Run(tick, maxtick, freq, env, k);
            && (r.tick > maxtick <==> r.Refused?)
            && (r.Refused? ==> r.switches > k && 0 < r.tick - maxtick <= env(r.switches - 1).drain)
    decreases maxtick - tick
  {
    var a := env(k);
    if a.limit {
      var u := tick + freq + a.drain;
      if maxtick - u > freq {
        OnlyDrainingOverruns(u, maxtick, freq, env, k + 1);
      }
    }
  }

  /** A run in which every simulation reports its limit, and that is not refused, ends exactly at the maximum;
      one that ends early ends with the simulation that did not. */
  lemma {:induction false} EndsAtMaximum(tick: int, maxtick: int, freq: nat, env: nat -> Answer, k: nat)
    requires freq > 0
    ensures var r := Run(tick, maxtick, freq, env, k);
            r.switches >= k && (r.Ended? && env(r.switches).limit ==> r.tick == maxtick)
    decreases if maxtick > tick then maxtick - tick else 0
  {
    var a := env(k);
    if a.limit {
      var u := tick + freq + a.drain;
      if maxtick - u > freq {
        EndsAtMaximum(u, maxtick, freq, env, k + 1);
      }
    }
  }

  /** The time that `j` periods take when each drains for `drain` ticks. */
  function Span(j: nat, freq: nat, drain: nat): nat {
    j * (freq + drain)
  }

  /** `left` ticks are enough for `j` periods that drain as long as they may, and once `j` periods have
      drained as little as they may, no more than one period is left. */
  predicate Fills(left: int, freq: nat, drain: nat, j: nat) {
    j >= 1 && Span(j, freq, drain) <= left && (drain <= 1 || left <= Span(j + 1, freq, 0))
  }

  /** The remaining time is a safe one for draining of at most `drain` ticks. */
  ghost predicate Safe(left: int, freq: nat, drain: nat) {
    exists j: nat :: Fills(left, freq, drain, j)
  }

  ghost predicate DrainsWithin(env: nat -> Answer, drain: nat) {
    forall k :: env(k).drain <= drain
  }

  lemma SpanStep(j: nat, freq: nat, drain: nat)
    ensures Span(j + 1, freq, drain) == Span(j, freq, drain) + freq + drain
  {
  }

  lemma SpanMonotone(i: nat, j: nat, freq: nat, drain: nat)
    requires i <= j
    ensures Span(i, freq, drain) <= Span(j, freq, drain)
  {
    assert (j - i) * (freq + drain) >= 0;
    assert j * (freq + drain) == i * (freq + drain) + (j - i) * (freq + drain);
  }

  lemma SafeLeavesRoom(left: int, freq: nat, drain: nat)
    requires Safe(left, freq, drain)
    ensures left >= freq + drain
  {
    var j: nat :| Fills(left, freq, drain, j);
    SpanMonotone(1, j, freq, drain);
    assert Span(1, freq, drain) == freq + drain;
  }

  /** After one more period that is not the last, the remaining time is still safe. */
  lemma StaysSafe(left: int, freq: nat, drain: nat, d: nat)
    requires freq > 0 && Safe(left, freq, drain) && d <= drain && left - freq - d > freq
    ensures Safe(left - freq - d, freq, drain)
  {
    var rest := left - freq - d;
    if drain <= 1 {
      assert Span(1, freq, drain) == freq + drain;
      assert Fills(rest, freq, drain, 1);
    } else {
      var j: nat :| Fills(left, freq, drain, j);
      assert Span(2, freq, 0) == 2 * freq;
      assert j >= 2;
      var i := j - 1;
      SpanStep(i, freq, drain);
      SpanStep(i + 1, freq, 0);
      assert Fills(rest, freq, drain, i);
    }
  }

  lemma {:induction false} SafeNeverOverruns(tick: int, maxtick: int, freq: nat, drain: nat, env: nat -> Answer, k: nat)
    requires freq > 0 && Safe(maxtick - tick, freq, drain) && DrainsWithin(env, drain)
    ensures Run(tick, maxtick, freq, env, k).tick <= maxtick
    decreases maxtick - tick
  {
    SafeLeavesRoom(maxtick - tick, freq, drain);
    var a := env(k);
    if a.limit {
      var u := tick + freq + a.drain;
      if maxtick - u > freq {
        StaysSafe(maxtick - tick, freq, drain, a.drain);
        SafeNeverOverruns(u, maxtick, freq, drain, env, k + 1);
      }
    }
  }

  // ---------- An overrun for every other remaining time ----------

  /** Every period runs to its limit; the periods drain for `s` ticks in all, as early as they can, except
      that period `last` drains as long as it may. */
  function Plan(s: nat, last: nat, drain: nat): nat -> Answer {
    (i: nat) => Answer(true, 0, PlannedDrain(s, last, drain, i))
  }

  function PlannedDrain(s: nat, last: nat, drain: nat, i: nat): nat {
    if i == last then drain else Least(drain, Remaining(s, i, drain))
  }

  function Least(a: nat, b: nat): nat {
    if a < b then a else b
  }

  /** What is left of `s` ticks of draining after `n` periods. */
  function Remaining(s: nat, n: nat, drain: nat): nat {
    if n == 0 then s else
      var r := Remaining(s, n - 1, drain);
      r - Least(drain, r)
  }

  lemma GoesOn(tick: int, maxtick: int, freq: nat, env: nat -> Answer, k: nat, d: nat)
    requires freq > 0 && env(k) == Answer(true, 0, d) && maxtick - (tick + freq + d) > freq
    ensures Run(tick, maxtick, freq, env, k) == Run(tick + freq + d, maxtick, freq, env, k + 1)
  {
  }

  lemma EndsBeyond(tick: int, maxtick: int, freq: nat, env: nat -> Answer, k: nat, d: nat)
    requires freq > 0 && env(k) == Answer(true, 0, d) && maxtick < tick + freq + d
    ensures Run(tick, maxtick, freq, env, k).tick > maxtick
  {
  }

  /** `n` periods that drain for `s` ticks in all leave at least one period, more than one if there are any,
      but less than one with the longest draining. */
  predicate Planned(left: int, freq: nat, drain: nat, n: nat, s: nat) {
    var atLast := left - Span(n, freq, 0) - s;
    s <= Span(n, 0, drain) && freq <= atLast < freq + drain && (n > 0 ==> freq < atLast)
  }

  lemma PlannedStep(left: int, freq: nat, drain: nat, n: nat, s: nat, d: nat)
    requires Planned(left, freq, drain, n + 1, s) && d == Least(drain, s)
    ensures left - freq - d > freq && Planned(left - freq - d, freq, drain, n, s - d)
  {
    SpanStep(n, freq, 0);
    SpanStep(n, 0, drain);
    SpanMonotone(0, n, freq, 0);
  }

  lemma PlannedEnd(left: int, freq: nat, drain: nat, s: nat)
    requires Planned(left, freq, drain, 0, s)
    ensures left < freq + drain
  {
  }

  /** Then period `last` ends beyond the maximum. */
  lemma {:induction false} PlanOverruns(tick: int, maxtick: int, freq: nat, drain: nat, s: nat, k: nat, n: nat)
    requires freq > 0 && Planned(maxtick - tick, freq, drain, n, Remaining(s, k, drain))
    ensures Run(tick, maxtick, freq, Plan(s, k + n, drain), k).tick > maxtick
    decreases n
  {
    var env, toDrain := Plan(s, k + n, drain), Remaining(s, k, drain);
    if n == 0 {
      PlannedEnd(maxtick - tick, freq, drain, toDrain);
      EndsBeyond(tick, maxtick, freq, env, k, drain);
    } else {
      var m, next := n - 1, k + 1;
      var d := Least(drain, toDrain);
      PlannedStep(maxtick - tick, freq, drain, m, toDrain, d);
      assert Remaining(s, next, drain) == toDrain - d;
      PlanOverruns(tick + freq + d, maxtick, freq, drain, s, next, m);
      assert next + m == k + n;
      GoesOn(tick, maxtick, freq, env, k, d);
    }
  }

  /** The number of whole periods with the longest draining that fit. */
  lemma {:induction false} WholePeriods(left: int, freq: nat, drain: nat) returns (j: nat)
    requires freq > 0 && left >= 0
    ensures Span(j, freq, drain) <= left < Span(j + 1, freq, drain)
    decreases left
  {
    if left < freq + drain {
      j := 0;
      assert Span(0, freq, drain) == 0 && Span(1, freq, drain) == freq + drain;
    } else {
      var i := WholePeriods(left - freq - drain, freq, drain);
      j := i + 1;
      SpanStep(i, freq, drain);
      SpanStep(j, freq, drain);
    }
  }

  lemma SpanSplit(j: nat, freq: nat, drain: nat)
    ensures Span(j, freq, drain) == Span(j, freq, 0) + Span(j, 0, drain)
  {
  }

  lemma UnsafeOverruns(tick: int, maxtick: int, freq: nat, drain: nat) returns (env: nat -> Answer)
    requires freq > 0 && !Safe(maxtick - tick, freq, drain)
    ensures DrainsWithin(env, drain) && Run(tick, maxtick, freq, env, 0).tick > maxtick
  {
    var left := maxtick - tick;
    if left < freq {
      env := Plan(0, 0, drain);
      assert env(0) == Answer(true, 0, drain);
    } else {
      var j := WholePeriods(left, freq, drain);
      assert !Fills(left, freq, drain, j);
      if j == 0 {
        assert Span(1, freq, drain) == freq + drain && Span(0, freq, 0) == 0 && Span(0, 0, drain) == 0;
        env := Plan(0, 0, drain);
        PlanOverruns(tick, maxtick, freq, drain, 0, 0, 0);
      } else {
        SpanSplit(j, freq, drain);
        SpanStep(j, freq, drain);
        SpanStep(j, freq, 0);
        var spare := left - Span(j, freq, 0) - freq - 1;
        var s := Least(spare, Span(j, 0, drain));
        env := Plan(s, j, drain);
        PlanOverruns(tick, maxtick, freq, drain, s, 0, j);
      }
    }
  }

  /** For all systems that drain within `drain` ticks: time never passes the maximum exactly when the time
      left on entry is safe. */
  lemma NeverOverrunsIff(tick: int, maxtick: int, freq: nat, drain: nat)
    requires freq > 0
    ensures (forall env: nat -> Answer :: DrainsWithin(env, drain) ==> Run(tick, maxtick, freq, env, 0).tick <= maxtick)
            <==> Safe(maxtick - tick, freq, drain)
  {
    if Safe(maxtick - tick, freq, drain) {
      forall env: nat -> Answer | DrainsWithin(env, drain) ensures Run(tick, maxtick, freq, env, 0).tick <= maxtick {
        SafeNeverOverruns(tick, maxtick, freq, drain, env, 0);
      }
    } else {
      var env := UnsafeOverruns(tick, maxtick, freq, drain);
    }
  }

  /** For systems that drain at once, or in one tick, one period and its draining must be left. */
  lemma SafeWithoutDraining(left: int, freq: nat, drain: nat)
    requires freq > 0 && drain <= 1
    ensures Safe(left, freq, drain) <==> left >= freq + drain
  {
    if left >= freq + drain {
      assert Span(1, freq, drain) == freq + drain;
      assert Fills(left, freq, drain, 1);
    } else if Safe(left, freq, drain) {
      SafeLeavesRoom(left, freq, drain);
    }
  }

  /** The guard of `run` lets the loop overrun: with 100 ticks allowed, a period of 60 and 50 ticks
      already simulated, the first period ends at tick 110. */
  lemma GuardIsNotEnough()
    ensures var maxtick, freq, tick := 100, 60, 50;
            maxtick > freq && Run(tick, maxtick, freq, k => Answer(true, 0, 0), 0) == Refused(110, 1)
  {
  }

  // ---------- Entering the loop ----------

  function MakePairs(from: nat -> Cpu, to: nat -> Cpu, n: nat): (pairs: seq<Pair>)
    ensures |pairs| == n && forall i :: 0 <= i < n ==> pairs[i] == (from(i), to(i))
  {
    if n == 0 then [] else MakePairs(from, to, n - 1) + [(from(n - 1), to(n - 1))]
  }

  /** The running CPUs before the first switch. */
  function Bases(n: nat): set<Cpu> {
    set i | 0 <= i < n :: Base(i)
  }

  function FirstList(n: nat): seq<Pair> {
    MakePairs((i: nat) => Base(i), (i: nat) => Switch(i), n)
  }

  function AgainList(n: nat): seq<Pair> {
    MakePairs((i: nat) => Switch(i), (i: nat) => Repeat(i), n)
  }

  function DirectList(n: nat): seq<Pair> {
    MakePairs((i: nat) => Base(i), (i: nat) => Repeat(i), n)
  }

  /** Whether or not the run first switches to other CPUs, the pair list it then hands to the loop
      hands over from the CPUs that run to ones that do not. */
  lemma ListsHandOver(n: nat)
    ensures HandsOver(FirstList(n), Bases(n))
    ensures HandsOver(AgainList(n), Switched(FirstList(n), Bases(n)))
    ensures HandsOver(DirectList(n), Bases(n))
  {
    var first, again := FirstList(n), AgainList(n);
    forall c | c in Olds(again) ensures c in News(first) {
      var i :| 0 <= i < n && again[i].0 == c;
      assert first[i].1 == c && first[i] in first;
    }
  }

  lemma UniformFit(pairs: seq<Pair>, classes: Classes, from: Class, to: Class)
    requires pairs != []
    requires forall i :: 0 <= i < |pairs| ==> classes.Of(pairs[i].0) == from && classes.Of(pairs[i].1) == to
    ensures Fit(pairs, classes) <==> from.takesOver && to.takesOver
  {
    assert pairs[0] in pairs;
    forall p | p in pairs ensures classes.Of(p.0) == from && classes.Of(p.1) == to {
      var i :| 0 <= i < |pairs| && pairs[i] == p;
    }
  }

  /** A list that goes from one class to another fits exactly when both can hand over. */
  lemma FitIff(pairs: seq<Pair>, classes: Classes, from: Class, to: Class)
    requires pairs != []
    requires forall i :: 0 <= i < |pairs| ==> classes.Of(pairs[i].0) == from && classes.Of(pairs[i].1) == to
    ensures Fit(pairs, classes) && Fit(Flip(pairs), classes) <==> from.takesOver && to.takesOver
  {
    UniformFit(pairs, classes, from, to);
    UniformFit(Flip(pairs), classes, to, from);
  }

  /** With at least one CPU, the loop can be entered exactly when the classes it alternates between both
      support taking over; `run` itself asks that only of the class it switches to. */
  lemma LoopCanStartIff(n: nat, classes: Classes)
    requires n > 0
    ensures CanAlternate(DirectList(n), Bases(n), classes) <==> classes.base.takesOver && classes.repeated.takesOver
    ensures CanAlternate(AgainList(n), Switched(FirstList(n), Bases(n)), classes)
            <==> classes.other.takesOver && classes.repeated.takesOver
    ensures CanSwitch(FirstList(n), Bases(n), classes) <==> classes.base.takesOver && classes.other.takesOver
  {
    ListsHandOver(n);
    FitIff(DirectList(n), classes, classes.base, classes.repeated);
    FitIff(AgainList(n), classes, classes.other, classes.repeated);
    UniformFit(FirstList(n), classes, classes.base, classes.other);
  }
}
