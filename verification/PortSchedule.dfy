/** Exactly which connection lists the single sorted pass of `bind_ports` accepts
    (gem5/configs/example/read_config.py:370-395). */
module PortSchedule {
  import opened PortBinding

  /** Every port and the port it is connected to. */
  type Wiring = map<Port, Port>

  function Pred(p: Port): Port {
    if p.index > 0 then Port(p.id, p.index - 1) else p
  }

  /** Connections are mutual, join two different ports, and the indices of a port have no gap. */
  ghost predicate WellWired(m: Wiring) {
    && (forall p {:trigger m[p]} :: p in m ==> m[p] in m && m[m[p]] == p && m[p] != p)
    && (forall p {:trigger Pred(p)} :: p in m ==> Pred(p) in m)
  }

  /** `order` lists the ports in the order in which the pass comes to them, `at` is its inverse, and the
      pass comes to the indices of a port in their order. */
  ghost predicate Placed(m: Wiring, order: seq<Port>, at: map<Port, nat>) {
    && at.Keys == m.Keys
    && Inverse(m, order, at)
    && (forall k :: 0 <= k < |order| ==> order[k] in m && at[order[k]] == k)
    && InIndexOrder(m, at)
  }

  ghost predicate Inverse(m: Wiring, order: seq<Port>, at: map<Port, nat>)
    requires at.Keys == m.Keys
  {
    forall p {:trigger at[p]} :: p in m ==> at[p] < |order| && order[at[p]] == p
  }

  ghost predicate InIndexOrder(m: Wiring, at: map<Port, nat>)
    requires at.Keys == m.Keys
  {
    forall p {:trigger Pred(p)} :: p in m && p.index > 0 ==> Pred(p) in at && at[Pred(p)] < at[p]
  }

  /** When the pass comes to the first and to the second end of the connection at `p`. */
  function First(m: Wiring, at: map<Port, nat>, p: Port): nat
    requires p in m && p in at && m[p] in at
  {
    if at[p] < at[m[p]] then at[p] else at[m[p]]
  }

  function Second(m: Wiring, at: map<Port, nat>, p: Port): nat
    requires p in m && p in at && m[p] in at
  {
    if at[p] < at[m[p]] then at[m[p]] else at[p]
  }

  /** The ports whose connections must be bound before the one at `p`. */
  function Waits(m: Wiring, p: Port): set<Port>
    requires p in m
  {
    (if p.index > 0 then {Pred(p)} else {}) + (if m[p].index > 0 then {Pred(m[p])} else {})
  }

  /** A chain of waits that keeps its first connection from being bound when the pass first meets it:
      the last one is met too late, and each other one has its second chance too late for the one before. */
  ghost predicate Chain(m: Wiring, at: map<Port, nat>, c: seq<Port>)
    requires WellWired(m) && at.Keys == m.Keys
  {
    && |c| >= 2 && c[0] in m && c[1] in Waits(m, c[0])
    && if |c| == 2 then First(m, at, c[0]) < First(m, at, c[1])
       else First(m, at, c[0]) < Second(m, at, c[1]) && Chain(m, at, c[1..])
  }

  ghost predicate Delayed(m: Wiring, at: map<Port, nat>, p: Port)
    requires WellWired(m) && at.Keys == m.Keys && p in m
  {
    exists c :: Chain(m, at, c) && c[0] == p
  }

  /** `p` waits for a delayed connection whose last chance comes after that of `p`. */
  ghost predicate Overtaken(m: Wiring, at: map<Port, nat>, p: Port, q: Port)
    requires WellWired(m) && at.Keys == m.Keys && p in m
  {
    q in Waits(m, p) && Delayed(m, at, q) && Second(m, at, p) < Second(m, at, q)
  }

  /** No connection joins two indices of one port and none is overtaken. */
  ghost predicate Schedulable(m: Wiring, at: map<Port, nat>)
    requires WellWired(m) && at.Keys == m.Keys
  {
    && (forall p :: p in m ==> p.id != m[p].id)
    && (forall p, q :: p in m ==> !Overtaken(m, at, p, q))
  }

  // ---------- The pass on ports ----------

  /** The ports bound after the first `k` steps. */
  function Sweep(m: Wiring, order: seq<Port>, k: nat): set<Port>
    requires k <= |order| && forall i :: 0 <= i < |order| ==> order[i] in m
  {
    if k == 0 then {}
    else
      var bound, p := Sweep(m, order, k - 1), order[k - 1];
      if p !in bound && Waits(m, p) <= bound then bound + {p, m[p]} else bound
  }

  /** Bound ports are bound together with their peers, after their predecessors, and never to themselves. */
  ghost predicate Settled(m: Wiring, bound: set<Port>)
    requires WellWired(m)
  {
    && bound <= m.Keys
    && (forall p {:trigger m[p]} :: p in bound ==> m[p] in bound && p.id != m[p].id)
    && (forall p {:trigger Pred(p)} :: p in bound ==> Pred(p) in bound)
  }

  lemma {:induction false} LowerIndexBound(m: Wiring, bound: set<Port>, p: Port, k: nat)
    requires WellWired(m) && Settled(m, bound) && p in bound && k <= p.index
    ensures Port(p.id, k) in bound
    decreases p.index
  {
    if k < p.index {
      LowerIndexBound(m, bound, Pred(p), k);
    } else {
      assert p == Port(p.id, k);
    }
  }

  lemma NeverToItself(m: Wiring, bound: set<Port>, p: Port)
    requires WellWired(m) && Settled(m, bound) && p in m && p !in bound && Waits(m, p) <= bound
    ensures p.id != m[p].id && m[p] !in bound
  {
    var q := m[p];
    assert m[q] == p;
    assert p == Port(p.id, p.index) && q == Port(q.id, q.index);
    if p.index < q.index {
      assert Pred(q) in Waits(m, p);
      LowerIndexBound(m, bound, Pred(q), p.index);
    } else if q.index < p.index {
      assert Pred(p) in Waits(m, p);
      LowerIndexBound(m, bound, Pred(p), q.index);
    }
  }

  lemma SettledStep(m: Wiring, bound: set<Port>, p: Port)
    requires WellWired(m) && Settled(m, bound) && p in m && p !in bound && Waits(m, p) <= bound
    ensures Settled(m, bound + {p, m[p]})
  {
    NeverToItself(m, bound, p);
    assert p.index > 0 ==> Pred(p) in Waits(m, p);
    assert m[p].index > 0 ==> Pred(m[p]) in Waits(m, p);
  }

  lemma {:induction false} SweepFacts(m: Wiring, order: seq<Port>, at: map<Port, nat>, k: nat)
    requires WellWired(m) && Placed(m, order, at) && k <= |order|
    ensures Settled(m, Sweep(m, order, k))
    ensures forall p :: p in Sweep(m, order, k) ==> First(m, at, p) < k
  {
    if k > 0 {
      var j := k - 1;
      SweepFacts(m, order, at, j);
      var bound, p := Sweep(m, order, j), order[j];
      if p !in bound && Waits(m, p) <= bound {
        SettledStep(m, bound, p);
      }
    }
  }

  // ---------- Schedulable wirings are bound completely ----------

  /** After `k` steps the connection at `p` should be bound. */
  ghost predicate Due(m: Wiring, at: map<Port, nat>, k: nat, p: Port)
    requires WellWired(m) && at.Keys == m.Keys && p in m
  {
    (First(m, at, p) < k && !Delayed(m, at, p)) || Second(m, at, p) < k
  }

  lemma WaitsElsewhere(m: Wiring, order: seq<Port>, at: map<Port, nat>, p: Port, q: Port)
    requires WellWired(m) && Placed(m, order, at) && p in m && q in Waits(m, p) && p.id != m[p].id
    ensures q in m && First(m, at, q) < Second(m, at, p)
    ensures {q, m[q]} !! {p, m[p]}
    ensures {at[q], at[m[q]]} !! {at[p], at[m[p]]}
  {
    assert at[q] < at[p] || at[q] < at[m[p]];
    assert q != p && q != m[p];
    assert m[q] != p && m[q] != m[p];
    assert order[at[q]] == q && order[at[m[q]]] == m[q] && order[at[p]] == p && order[at[m[p]]] == m[p];
  }

  lemma PeerFacts(m: Wiring, at: map<Port, nat>, p: Port)
    requires WellWired(m) && at.Keys == m.Keys && p in m
    ensures First(m, at, m[p]) == First(m, at, p) && Second(m, at, m[p]) == Second(m, at, p)
    ensures Waits(m, m[p]) == Waits(m, p)
  {
  }

  lemma DelayedPeer(m: Wiring, at: map<Port, nat>, p: Port)
    requires WellWired(m) && at.Keys == m.Keys && p in m && Delayed(m, at, p)
    ensures Delayed(m, at, m[p])
  {
    PeerFacts(m, at, p);
    var c :| Chain(m, at, c) && c[0] == p;
    var d := [m[p]] + c[1..];
    assert d[1..] == c[1..] && d[1] == c[1];
    assert Chain(m, at, d);
  }

  lemma PromptWaits(m: Wiring, at: map<Port, nat>, p: Port, q: Port)
    requires WellWired(m) && at.Keys == m.Keys && p in m && q in Waits(m, p) && !Delayed(m, at, p)
    ensures q in m && First(m, at, q) <= First(m, at, p)
    ensures Delayed(m, at, q) ==> Second(m, at, q) <= First(m, at, p)
  {
    assert !Chain(m, at, [p, q]);
    if Delayed(m, at, q) {
      var c :| Chain(m, at, c) && c[0] == q;
      var d := [p] + c;
      assert d[1..] == c && d[1] == q && d[0] == p;
      assert !Chain(m, at, d);
    }
  }

  /** Whatever the connection met at step `k` waits for is due by then, if that connection is. */
  lemma WaitIsDue(m: Wiring, order: seq<Port>, at: map<Port, nat>, k: nat, q: Port)
    requires WellWired(m) && Placed(m, order, at) && Schedulable(m, at) && k < |order|
    requires q in Waits(m, order[k]) && Due(m, at, k + 1, order[k])
    ensures q in m && Due(m, at, k, q)
  {
    var r := order[k];
    WaitsElsewhere(m, order, at, r, q);
    if Second(m, at, r) == k {
      assert !Overtaken(m, at, r, q);
    } else {
      PromptWaits(m, at, r, q);
    }
  }

  ghost predicate In(m: Wiring, order: seq<Port>, k: nat, p: Port)
    requires k <= |order| && forall i :: 0 <= i < |order| ==> order[i] in m
  {
    p in Sweep(m, order, k)
  }

  lemma BoundWhenReady(m: Wiring, order: seq<Port>, at: map<Port, nat>, k: nat)
    requires WellWired(m) && Placed(m, order, at) && k < |order|
    requires forall q :: q in Waits(m, order[k]) ==> In(m, order, k, q)
    ensures In(m, order, k + 1, order[k]) && In(m, order, k + 1, m[order[k]])
  {
    SweepFacts(m, order, at, k);
    assert Waits(m, order[k]) <= Sweep(m, order, k);
  }

  lemma StaysIn(m: Wiring, order: seq<Port>, k: nat, p: Port)
    requires k < |order| && forall i :: 0 <= i < |order| ==> order[i] in m
    requires In(m, order, k, p)
    ensures In(m, order, k + 1, p)
  {
  }

  /** What becomes due at a step is met at that step. */
  lemma DueNow(m: Wiring, order: seq<Port>, at: map<Port, nat>, k: nat, p: Port)
    requires WellWired(m) && Placed(m, order, at) && k < |order| && p in m
    requires Due(m, at, k + 1, p) && !Due(m, at, k, p)
    ensures (order[k] == p || order[k] == m[p]) && Due(m, at, k + 1, order[k])
  {
    PeerFacts(m, at, p);
    if order[k] == m[p] && Delayed(m, at, m[p]) { DelayedPeer(m, at, m[p]); }
  }

  lemma {:induction false} DueIsBound(m: Wiring, order: seq<Port>, at: map<Port, nat>, k: nat, p: Port)
    requires WellWired(m) && Placed(m, order, at) && Schedulable(m, at) && k <= |order|
    requires p in m && Due(m, at, k, p)
    ensures In(m, order, k, p)
    decreases k
  {
    var j := k - 1;
    if Due(m, at, j, p) {
      DueIsBound(m, order, at, j, p);
      StaysIn(m, order, j, p);
    } else {
      DueNow(m, order, at, j, p);
      var waits := Waits(m, order[j]);
      forall q | q in waits ensures In(m, order, j, q) {
        WaitIsDue(m, order, at, j, q);
        DueIsBound(m, order, at, j, q);
      }
      BoundWhenReady(m, order, at, j);
    }
  }

  // ---------- Nothing else is ----------

  ghost predicate Out(m: Wiring, order: seq<Port>, k: nat, p: Port)
    requires k <= |order| && forall i :: 0 <= i < |order| ==> order[i] in m
  {
    p !in Sweep(m, order, k)
  }

  lemma NotMetYet(m: Wiring, order: seq<Port>, at: map<Port, nat>, k: nat, p: Port)
    requires WellWired(m) && Placed(m, order, at) && k <= |order| && p in m && First(m, at, p) >= k
    ensures Out(m, order, k, p)
  {
    SweepFacts(m, order, at, k);
  }

  /** A connection stays out at a step that does not meet it ... */
  lemma UnmetStaysOut(m: Wiring, order: seq<Port>, at: map<Port, nat>, k: nat, p: Port)
    requires WellWired(m) && Placed(m, order, at) && k < |order|
    requires p in m && Out(m, order, k, p) && First(m, at, p) != k && Second(m, at, p) != k
    ensures Out(m, order, k + 1, p)
  {
    assert p != order[k] && m[p] != order[k];
  }

  /** ... or at which something it waits for is missing. */
  lemma BlockedStaysOut(m: Wiring, order: seq<Port>, at: map<Port, nat>, k: nat, p: Port, w: Port)
    requires WellWired(m) && Placed(m, order, at) && k < |order|
    requires p in m && Out(m, order, k, p) && w in Waits(m, p) && Out(m, order, k, w)
    ensures Out(m, order, k + 1, p)
  {
    PeerFacts(m, at, p);
    assert w in Waits(m, m[p]);
    assert order[k] == p || order[k] == m[p] || (p != order[k] && m[p] != order[k]);
  }

  lemma {:induction false} DelayedIsLate(m: Wiring, order: seq<Port>, at: map<Port, nat>, k: nat, c: seq<Port>)
    requires WellWired(m) && Placed(m, order, at) && k <= |order|
    requires Chain(m, at, c) && Second(m, at, c[0]) >= k
    ensures Out(m, order, k, c[0])
    decreases |c|, k
  {
    if k > 0 {
      var j := k - 1;
      DelayedIsLate(m, order, at, j, c);
      if First(m, at, c[0]) == j {
        if |c| == 2 {
          NotMetYet(m, order, at, j, c[1]);
        } else {
          DelayedIsLate(m, order, at, j, c[1..]);
        }
        BlockedStaysOut(m, order, at, j, c[0], c[1]);
      } else {
        UnmetStaysOut(m, order, at, j, c[0]);
      }
    }
  }

  lemma {:induction false} OvertakenIsLost(m: Wiring, order: seq<Port>, at: map<Port, nat>, k: nat, p: Port, q: Port)
    requires WellWired(m) && Placed(m, order, at) && k <= |order|
    requires p in m && Overtaken(m, at, p, q)
    ensures Out(m, order, k, p)
    decreases k
  {
    if k > 0 {
      var j := k - 1;
      OvertakenIsLost(m, order, at, j, p, q);
      if Second(m, at, p) >= j {
        var c :| Chain(m, at, c) && c[0] == q;
        DelayedIsLate(m, order, at, j, c);
        BlockedStaysOut(m, order, at, j, p, q);
      } else {
        UnmetStaysOut(m, order, at, j, p);
      }
    }
  }

  /** The pass binds every port exactly when the wiring is schedulable. */
  lemma SweepBindsAllIff(m: Wiring, order: seq<Port>, at: map<Port, nat>)
    requires WellWired(m) && Placed(m, order, at)
    ensures Sweep(m, order, |order|) == m.Keys <==> Schedulable(m, at)
  {
    SweepFacts(m, order, at, |order|);
    if Schedulable(m, at) {
      forall p | p in m ensures p in Sweep(m, order, |order|) {
        DueIsBound(m, order, at, |order|, p);
      }
    } else if p :| p in m && p.id == m[p].id {
      assert p !in Sweep(m, order, |order|);
    } else {
      var p, q :| p in m && Overtaken(m, at, p, q);
      OvertakenIsLost(m, order, at, |order|, p, q);
    }
  }
}
