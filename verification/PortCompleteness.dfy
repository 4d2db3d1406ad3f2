/** When `bind_ports` accepts a connection list, in terms of the list itself
    (gem5/configs/example/read_config.py:326-395). */
module PortCompleteness {
  import opened Collections
  import opened Sorting
  import opened PortBinding
  import opened PortWiring
  import opened PortSchedule

  /** The list holds every connection of the wiring, in both orientations, once. */
  ghost predicate Lists(connections: seq<Connection>, m: Wiring) {
    Distinct(connections) && forall c :: c in connections <==> c.from in m && c.to == m[c.from]
  }

  /** The ports a list comes to, in its order. */
  function Order(list: seq<Connection>): (order: seq<Port>)
    ensures |order| == |list| && forall k :: 0 <= k < |list| ==> order[k] == list[k].from
  {
    seq(|list|, k requires 0 <= k < |list| => list[k].from)
  }

  /** Of two entries for the same port, the one with the smaller index comes first. */
  ghost predicate IndexOrdered(list: seq<Connection>) {
    forall i, j :: 0 <= i < j < |list| && list[i].from.id == list[j].from.id ==> list[i].from.index <= list[j].from.index
  }

  lemma ListFacts(connections: seq<Connection>, m: Wiring)
    requires WellWired(m) && Lists(connections, m)
    ensures Symmetric(connections) && NoSelf(connections)
  {
    forall c | c in connections ensures c.Flip() in connections && c.from != c.to {
      assert m[c.to] == c.from;
    }
  }

  lemma SortedLists(connections: seq<Connection>, m: Wiring)
    requires Lists(connections, m)
    ensures Lists(InListOrder(connections), m) && IndexOrdered(InListOrder(connections))
  {
    SortSortedIds(connections);
    SortedDistinct(connections);
    var list := InListOrder(connections);
    forall i, j | 0 <= i < j < |list| && list[i].from.id == list[j].from.id ensures list[i].from.index <= list[j].from.index {
      assert ConnectionOrder()(list[i], list[j]);
    }
  }

  /** Where each port stands in the list. */
  function Positions(list: seq<Connection>, m: Wiring): map<Port, nat> {
    map p | p in m :: PositionOf(list, Connection(p, m[p]))
  }

  lemma EntryOf(list: seq<Connection>, m: Wiring, p: Port)
    requires WellWired(m) && Lists(list, m) && p in m
    ensures var k := Positions(list, m)[p]; k < |list| && list[k] == Connection(p, m[p])
  {
    assert Connection(p, m[p]) in list;
  }

  lemma EntryAt(list: seq<Connection>, m: Wiring, k: nat)
    requires WellWired(m) && Lists(list, m) && k < |list|
    ensures list[k].from in m && list[k].to == m[list[k].from] && Positions(list, m)[list[k].from] == k
  {
    assert list[k] in list;
    EntryOf(list, m, list[k].from);
  }

  lemma PredecessorFirst(list: seq<Connection>, m: Wiring, p: Port)
    requires WellWired(m) && Lists(list, m) && IndexOrdered(list) && p in m && p.index > 0
    ensures Pred(p) in m && Positions(list, m)[Pred(p)] < Positions(list, m)[p]
  {
    assert Pred(p) in m;
    EntryOf(list, m, p);
    EntryOf(list, m, Pred(p));
  }

  lemma ListPlaces(list: seq<Connection>, m: Wiring)
    requires WellWired(m) && Lists(list, m) && IndexOrdered(list)
    ensures Placed(m, Order(list), Positions(list, m))
  {
    var order, at := Order(list), Positions(list, m);
    assert Inverse(m, order, at) by {
      forall p | p in m ensures at[p] < |order| && order[at[p]] == p {
        EntryOf(list, m, p);
      }
    }
    forall k | 0 <= k < |order| ensures order[k] in m && at[order[k]] == k {
      EntryAt(list, m, k);
    }
    assert InIndexOrder(m, at) by {
      forall p | p in m && p.index > 0 ensures Pred(p) in at && at[Pred(p)] < at[p] {
        PredecessorFirst(list, m, p);
      }
    }
  }

  function PositionOf(list: seq<Connection>, c: Connection): (k: nat)
    ensures c in list ==> k < |list| && list[k] == c
  {
    if list == [] || list[0] == c then 0 else 1 + PositionOf(list[1..], c)
  }

  lemma SortedDistinct(connections: seq<Connection>)
    requires Distinct(connections)
    ensures Distinct(InListOrder(connections))
  {
    var list := InListOrder(connections);
    ConnectionOrderOrders();
    SortSorted(ConnectionOrder(), connections);
    forall i, j | 0 <= i < j < |list| ensures list[i] != list[j] {
      MultiplicityOne(connections, list[i]);
      if list[i] == list[j] {
        Twice(list, i, j);
      }
    }
  }

  // ---------- The pass over connections is the pass over ports ----------

  /** A port is bound exactly when its counter has passed its index. */
  ghost predicate Tracks(m: Wiring, bound: set<Port>, made: seq<Connection>) {
    forall p :: p in m ==> (p in bound <==> p.index < |Ends(made, p.id)|)
  }

  lemma ReadyIsBindable(m: Wiring, bound: set<Port>, made: seq<Connection>, p: Port)
    requires WellWired(m) && Settled(m, bound) && Tracks(m, bound, made) && p in m
    ensures Bindable(made, Connection(p, m[p])) <==> p !in bound && Waits(m, p) <= bound
  {
    var q := m[p];
    assert m[q] == p;
    assert Pred(p) in m && Pred(q) in m;
    assert p in bound <==> q in bound;
    assert Waits(m, p) <= bound <==> (p.index > 0 ==> Pred(p) in bound) && (q.index > 0 ==> Pred(q) in bound);
  }

  lemma EndsLength(made: seq<Connection>, c: Connection, id: PortId)
    ensures |Ends(made + [c], id)| ==
            |Ends(made, id)| + (if c.from.id == id then 1 else 0) + (if c.to.id == id then 1 else 0)
  {
    var more := made + [c];
    assert more[..|more| - 1] == made;
  }

  lemma PortStep(bound: set<Port>, made: seq<Connection>, c: Connection, r: Port)
    requires Bindable(made, c) && c.from.id != c.to.id
    requires r in bound <==> r.index < |Ends(made, r.id)|
    ensures r in bound + {c.from, c.to} <==> r.index < |Ends(made + [c], r.id)|
  {
    EndsLength(made, c, r.id);
    assert r == Port(r.id, r.index);
    assert c.from == Port(c.from.id, c.from.index) && c.to == Port(c.to.id, c.to.index);
  }

  lemma TracksStep(m: Wiring, bound: set<Port>, made: seq<Connection>, p: Port)
    requires WellWired(m) && Tracks(m, bound, made) && InOrder(made) && p in m
    requires Bindable(made, Connection(p, m[p]))
    ensures Tracks(m, bound + {p, m[p]}, made + [Connection(p, m[p])])
  {
    var c := Connection(p, m[p]);
    assert c.from.id != c.to.id by {
      AppendInOrder(made, c);
    }
    forall r | r in m ensures r in bound + {p, m[p]} <==> r.index < |Ends(made + [c], r.id)| {
      PortStep(bound, made, c, r);
    }
  }

  lemma {:induction false} PassIsSweep(list: seq<Connection>, m: Wiring, k: nat)
    requires WellWired(m) && Lists(list, m) && IndexOrdered(list) && k <= |list|
    requires Placed(m, Order(list), Positions(list, m))
    ensures Tracks(m, Sweep(m, Order(list), k), MadeBefore(list, k))
  {
    if k > 0 {
      var j := k - 1;
      PassIsSweep(list, m, j);
      var bound, made, p := Sweep(m, Order(list), j), MadeBefore(list, j), list[j].from;
      EntryAt(list, m, j);
      SweepFacts(m, Order(list), Positions(list, m), j);
      ReadyIsBindable(m, bound, made, p);
      PassStep(list, j);
      if Bindable(made, list[j]) {
        ListFacts(list, m);
        PassIsSound(list[..j]);
        TracksStep(m, bound, made, p);
      }
    }
  }

  lemma BoundEitherWay(list: seq<Connection>, m: Wiring, made: seq<Connection>, c: Connection)
    requires WellWired(m) && Lists(list, m) && InOrder(made) && (forall d :: d in made ==> d in list)
    requires c in list && c.from.index < |Ends(made, c.from.id)|
    ensures c in made || c.Flip() in made
  {
    EndsOrigin(made, c.from.id, c.from.index);
    var peer := Ends(made, c.from.id)[c.from.index].1;
    assert Port(c.from.id, c.from.index) == c.from;
    if Connection(c.from, peer) !in made {
      assert Connection(peer, c.from) in list;
      assert m[peer] == c.from;
    }
  }

  /** All ports bound means that half of the list has been bound. */
  lemma AllBoundIsHalf(list: seq<Connection>, m: Wiring, made: seq<Connection>)
    requires WellWired(m) && Lists(list, m) && InOrder(made) && OncePerPair(made) && (forall d :: d in made ==> d in list)
    requires AllBound(m, made)
    ensures 2 * |made| == |list|
  {
    ListFacts(list, m);
    var all := Elements(made);
    BothOrientations(made);
    forall c | c in Elements(list) ensures c in all + Flips(all) {
      FlipsMembers(all, c);
      BoundEitherWay(list, m, made, c);
    }
    forall c | c in Flips(all) ensures c in Elements(list) {
      FlipsMembers(all, c);
      assert c.Flip() in list && c.Flip().Flip() == c;
    }
    assert all + Flips(all) == Elements(list);
    DistinctSize(list);
  }

  lemma HalfIsAllBound(connections: seq<Connection>, m: Wiring, p: Port)
    requires WellWired(m) && Lists(connections, m) && 2 * |Made(connections)| == |connections| && p in m
    ensures p.index < |Ends(Made(connections), p.id)|
  {
    ListFacts(connections, m);
    WiringIsRebuilt(connections, p.id);
    assert Connection(p, m[p]) in connections;
  }

  ghost predicate AllBound(m: Wiring, made: seq<Connection>) {
    forall p :: p in m ==> p.index < |Ends(made, p.id)|
  }

  lemma HalfIffAllBound(connections: seq<Connection>, m: Wiring)
    requires WellWired(m) && Lists(connections, m)
    ensures 2 * |Made(connections)| == |connections| <==> AllBound(m, Made(connections))
  {
    if 2 * |Made(connections)| == |connections| {
      forall p | p in m ensures p.index < |Ends(Made(connections), p.id)| {
        HalfIsAllBound(connections, m, p);
      }
    } else if AllBound(m, Made(connections)) {
      ListFacts(connections, m);
      MadeIsSound(connections);
      AllBoundIsHalf(connections, m, Made(connections));
    }
  }

  lemma TracksAll(m: Wiring, bound: set<Port>, made: seq<Connection>)
    requires WellWired(m) && Settled(m, bound) && Tracks(m, bound, made)
    ensures bound == m.Keys <==> AllBound(m, made)
  {
  }

  /** The exact condition: for every list that holds each connection of a well-formed wiring in both
      orientations, `bind_ports` succeeds if and only if the wiring is schedulable in list order. */
  lemma AcceptedIffSchedulable(connections: seq<Connection>, m: Wiring)
    requires WellWired(m) && Lists(connections, m)
    ensures Positions(InListOrder(connections), m).Keys == m.Keys
    ensures BindOutcome(connections).Ok? <==> Schedulable(m, Positions(InListOrder(connections), m))
  {
    ListFacts(connections, m);
    SymmetricOutcome(connections);
    HalfIffAllBound(connections, m);
    SortedLists(connections, m);
    SweptIffSchedulable(InListOrder(connections), m);
  }

  lemma SweptIffSchedulable(list: seq<Connection>, m: Wiring)
    requires WellWired(m) && Lists(list, m) && IndexOrdered(list)
    ensures AllBound(m, Pass(list)) <==> Schedulable(m, Positions(list, m))
  {
    ListPlaces(list, m);
    SweptAll(list, m);
    SweepBindsAllIff(m, Order(list), Positions(list, m));
  }

  lemma SweptAll(list: seq<Connection>, m: Wiring)
    requires WellWired(m) && Lists(list, m) && IndexOrdered(list)
    requires Placed(m, Order(list), Positions(list, m))
    ensures AllBound(m, Pass(list)) <==> Sweep(m, Order(list), |Order(list)|) == m.Keys
  {
    PassIsSweep(list, m, |list|);
    assert list[..|list|] == list;
    SweepFacts(m, Order(list), Positions(list, m), |list|);
    TracksAll(m, Sweep(m, Order(list), |list|), Pass(list));
  }
}
