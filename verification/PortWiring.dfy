/** What the bindings mean: the ports get back exactly the peers the connection list gives them. */
module PortWiring {
  import opened Wrappers
  import opened Collections
  import opened PortBinding

  ghost predicate NoSelf(connections: seq<Connection>) {
    forall c :: c in connections ==> c.from != c.to
  }

  ghost predicate Symmetric(connections: seq<Connection>) {
    forall c :: c in connections ==> c.Flip() in connections
  }

  /** No connection of the list appears twice, in either orientation. */
  ghost predicate OncePerPair(made: seq<Connection>) {
    forall i, j :: 0 <= i < j < |made| ==> made[i] != made[j] && made[i] != made[j].Flip()
  }

  lemma AppendInOrder(made: seq<Connection>, c: Connection)
    requires InOrder(made) && Bindable(made, c) && c.from != c.to
    ensures InOrder(made + [c]) && c.from.id != c.to.id
  {
    assert (made + [c])[..|made|] == made;
    forall id, k | 0 <= k < |Ends(made + [c], id)| ensures Ends(made + [c], id)[k].0 == k {
      assert Ends(made + [c], id) == Ends(made, id) + EndsOf(c, id);
    }
  }

  /** Whatever has been bound shows up on both its ports, at its index. */
  lemma {:induction false} EndsShow(made: seq<Connection>, i: nat)
    requires InOrder(made) && i < |made|
    ensures var c := made[i];
            && (c.from.index, c.to) in Ends(made, c.from.id)
            && (c.to.index, c.from) in Ends(made, c.to.id)
    decreases |made|
  {
    var before := made[..|made| - 1];
    if i < |made| - 1 {
      assert InOrder(before) by {
        forall id, k | 0 <= k < |Ends(before, id)| ensures Ends(before, id)[k].0 == k {
          assert Ends(before, id)[k] == Ends(made, id)[k];
        }
      }
      EndsShow(before, i);
    }
  }

  lemma EndsAt(made: seq<Connection>, i: nat)
    requires InOrder(made) && i < |made|
    ensures var c := made[i];
            && c.from.index < |Ends(made, c.from.id)| && Ends(made, c.from.id)[c.from.index].1 == c.to
            && c.to.index < |Ends(made, c.to.id)| && Ends(made, c.to.id)[c.to.index].1 == c.from
  {
    EndsShow(made, i);
  }

  /** Every entry of a port's vector comes from a binding. */
  lemma {:induction false} EndsOrigin(made: seq<Connection>, id: PortId, k: nat)
    requires k < |Ends(made, id)|
    ensures var (index, peer) := Ends(made, id)[k];
            Connection(Port(id, index), peer) in made || Connection(peer, Port(id, index)) in made
    decreases |made|
  {
    var before := made[..|made| - 1];
    if k < |Ends(before, id)| {
      EndsOrigin(before, id, k);
    }
  }

  /** For every list without self-connections: the pass binds each port in index order, binds nothing
      twice in either orientation, and binds only what is on the list. */
  lemma {:induction false} PassIsSound(list: seq<Connection>)
    requires NoSelf(list)
    ensures InOrder(Pass(list)) && OncePerPair(Pass(list))
    ensures forall c :: c in Pass(list) ==> c in list
    decreases |list|
  {
    if list != [] {
      var before, c := list[..|list| - 1], list[|list| - 1];
      PassIsSound(before);
      var made := Pass(before);
      if Bindable(made, c) {
        AppendInOrder(made, c);
        forall i | 0 <= i < |made| ensures made[i] != c && made[i] != c.Flip() {
          EndsAt(made, i);
        }
      }
    }
  }

  function Flips(s: set<Connection>): set<Connection> {
    set c | c in s :: c.Flip()
  }

  lemma {:induction false} FlipsSize(s: set<Connection>)
    ensures |Flips(s)| == |s|
    decreases s
  {
    if s != {} {
      var c :| c in s;
      FlipsSize(s - {c});
      assert Flips(s) == Flips(s - {c}) + {c.Flip()};
      forall d | d in s - {c} ensures d.Flip() != c.Flip() {
        assert d.Flip().Flip() == d && c.Flip().Flip() == c;
      }
    }
  }

  lemma FlipsMembers(s: set<Connection>, c: Connection)
    ensures c in Flips(s) <==> c.Flip() in s
  {
    if c.Flip() in s {
      assert c == c.Flip().Flip();
    }
  }

  /** Bindings and their flips never overlap, so they are twice as many as the bindings. */
  lemma BothOrientations(made: seq<Connection>)
    requires OncePerPair(made) && NoSelf(made)
    ensures Elements(made) !! Flips(Elements(made))
    ensures |Elements(made) + Flips(Elements(made))| == 2 * |made|
  {
    var m := Elements(made);
    forall c | c in m ensures c !in Flips(m) {
      FlipsMembers(m, c);
      var i :| 0 <= i < |made| && made[i] == c;
      forall j | 0 <= j < |made| ensures made[j] != c.Flip() {
        assert made[j] == c.Flip() ==> made[j].Flip() == c && i != j;
      }
    }
    DistinctSize(made);
    FlipsSize(m);
  }

  /** A symmetric list never trips over a missing counter: only the half-count check can refuse it. */
  lemma SymmetricOutcome(connections: seq<Connection>)
    requires Symmetric(connections)
    ensures BindOutcome(connections) ==
            if |Made(connections)| * 2 == |connections| then Ok(Made(connections)) else Err(CannotOrder)
  {
    SortSortedIds(connections);
    var list := InListOrder(connections);
    forall c | c in list ensures c.to.id in FromIds(connections) {
      assert c.Flip() in connections && c.to.id == c.Flip().from.id;
    }
    NeverMisses(list, FromIds(connections), |list|);
  }

  /** Bindings that are half of a symmetric set hold exactly one orientation of each of its connections. */
  lemma HalfIsOnePerPair(all: set<Connection>, made: seq<Connection>)
    requires forall c :: c in all ==> c.Flip() in all
    requires OncePerPair(made) && NoSelf(made) && Elements(made) <= all && 2 * |made| == |all|
    ensures forall c :: c in all ==> (c in made <==> c.Flip() !in made)
  {
    var m := Elements(made);
    BothOrientations(made);
    forall c | c in Flips(m) ensures c in all {
      FlipsMembers(m, c);
      assert c.Flip().Flip() == c;
    }
    SameSize(m + Flips(m), all);
    forall c | c in all ensures c in made <==> c.Flip() !in made {
      FlipsMembers(m, c);
      assert c in m <==> c in made;
      assert c.Flip() in m <==> c.Flip() in made;
    }
  }

  lemma MadeIsSound(connections: seq<Connection>)
    requires NoSelf(connections)
    ensures InOrder(Made(connections)) && OncePerPair(Made(connections))
    ensures forall c :: c in Made(connections) ==> c in connections
  {
    SortSortedIds(connections);
    PassIsSound(InListOrder(connections));
  }

  /** When the half-count check passes, exactly one orientation of every connection was bound. */
  lemma HalfCountMeansAll(connections: seq<Connection>)
    requires Symmetric(connections) && Distinct(connections) && NoSelf(connections)
    requires |Made(connections)| * 2 == |connections|
    ensures forall c :: c in connections ==> (c in Made(connections) <==> c.Flip() !in Made(connections))
  {
    MadeIsSound(connections);
    DistinctSize(connections);
    var all := Elements(connections);
    HalfIsOnePerPair(all, Made(connections));
    forall c | c in connections ensures c in Made(connections) <==> c.Flip() !in Made(connections) {
      assert c in all;
    }
  }

  /** The round trip of a configuration: carrying out the accepted bindings gives every port, at every
      index, exactly the peer that the connection list gives it, and nothing else. */
  lemma WiringIsRebuilt(connections: seq<Connection>, id: PortId)
    requires Symmetric(connections) && Distinct(connections) && NoSelf(connections)
    requires |Made(connections)| * 2 == |connections|
    ensures var ends := Ends(Made(connections), id);
            && (forall c :: c in connections && c.from.id == id ==> c.from.index < |ends| && ends[c.from.index].1 == c.to)
            && (forall k :: 0 <= k < |ends| ==> Connection(Port(id, k), ends[k].1) in connections)
  {
    MadeIsSound(connections);
    HalfCountMeansAll(connections);
    var made := Made(connections);
    var ends := Ends(made, id);
    forall c | c in connections && c.from.id == id ensures c.from.index < |ends| && ends[c.from.index].1 == c.to {
      var bound := if c in made then c else c.Flip();
      var i :| 0 <= i < |made| && made[i] == bound;
      EndsAt(made, i);
    }
    forall k | 0 <= k < |ends| ensures Connection(Port(id, k), ends[k].1) in connections {
      EndsOrigin(made, id, k);
      var peer := ends[k].1;
      assert Connection(peer, Port(id, k)).Flip() == Connection(Port(id, k), peer);
    }
  }
}
