/** Connection lists that come from a configuration, the common star shape, and a refused chain
    (gem5/configs/example/read_config.py:326-395). */
module PortExamples {
  import opened Wrappers
  import opened Collections
  import opened Sorting
  import opened Lexicographic
  import opened PortBinding
  import opened PortWiring
  import opened PortSchedule
  import opened PortCompleteness

  // ---------- Gathering connections from a configuration ----------

  /** A port of the configuration and its peers, in index order. */
  datatype Entry = Entry(id: PortId, peers: seq<Port>)

  function EntryConnections(e: Entry, n: nat): seq<Connection>
    requires n <= |e.peers|
  {
    if n == 0 then [] else EntryConnections(e, n - 1) + [Connection(Port(e.id, n - 1), e.peers[n - 1])]
  }

  function Gather(config: seq<Entry>): seq<Connection> {
    if config == [] then []
    else
      var e := config[|config| - 1];
      Gather(config[..|config| - 1]) + EntryConnections(e, |e.peers|)
  }

  /** `gather_port_connections`, over all the ports of the configuration. */
  method GatherPortConnections(config: seq<Entry>) returns (connections: seq<Connection>)
    ensures connections == Gather(config)
  {
    connections := [];
    for k := 0 to |config|
      invariant connections == Gather(config[..k])
    {
      ghost var before := connections;
      var e := config[k];
      for i := 0 to |e.peers|
        invariant connections == before + EntryConnections(e, i)
      {
        connections := connections + [Connection(Port(e.id, i), e.peers[i])];
      }
      assert config[..k + 1][..k] == config[..k];
    }
    assert config[..|config|] == config;
  }

  ghost predicate DistinctIds(config: seq<Entry>) {
    forall i, j :: 0 <= i < j < |config| ==> config[i].id != config[j].id
  }

  /** The configuration gives port `p` the peer `q`. */
  ghost predicate Gives(config: seq<Entry>, p: Port, q: Port) {
    exists k :: 0 <= k < |config| && config[k].id == p.id && p.index < |config[k].peers| && config[k].peers[p.index] == q
  }

  lemma {:induction false} EntryConnectionsFacts(e: Entry, n: nat)
    requires n <= |e.peers|
    ensures |EntryConnections(e, n)| == n
    ensures forall i :: 0 <= i < n ==> EntryConnections(e, n)[i] == Connection(Port(e.id, i), e.peers[i])
  {
    if n > 0 {
      EntryConnectionsFacts(e, n - 1);
    }
  }

  lemma EntryMember(e: Entry, c: Connection)
    ensures c in EntryConnections(e, |e.peers|) <==>
            c.from.id == e.id && c.from.index < |e.peers| && e.peers[c.from.index] == c.to
  {
    EntryConnectionsFacts(e, |e.peers|);
    if c.from.id == e.id && c.from.index < |e.peers| && e.peers[c.from.index] == c.to {
      assert EntryConnections(e, |e.peers|)[c.from.index] == c;
    }
  }

  lemma {:induction false} GatherMember(config: seq<Entry>, c: Connection)
    ensures c in Gather(config) <==> Gives(config, c.from, c.to)
  {
    if config != [] {
      var n := |config| - 1;
      GatherMember(config[..n], c);
      EntryMember(config[n], c);
      GivesStep(config, c.from, c.to);
    }
  }

  lemma EntryDistinct(e: Entry)
    ensures Distinct(EntryConnections(e, |e.peers|))
  {
    EntryConnectionsFacts(e, |e.peers|);
  }

  lemma DistinctConcat<T>(a: seq<T>, b: seq<T>)
    requires Distinct(a) && Distinct(b) && forall x :: x in a ==> x !in b
    ensures Distinct(a + b)
  {
    forall i, j | 0 <= i < j < |a + b| ensures (a + b)[i] != (a + b)[j] {
      assert i < |a| ==> a[i] in a;
      assert j >= |a| ==> b[j - |a|] in b;
    }
  }

  lemma {:induction false} GatherDistinct(config: seq<Entry>)
    requires DistinctIds(config)
    ensures Distinct(Gather(config))
  {
    if config != [] {
      var n := |config| - 1;
      var before, e := config[..n], config[n];
      GatherDistinct(before);
      EntryDistinct(e);
      forall c | c in Gather(before) ensures c !in EntryConnections(e, |e.peers|) {
        GatherMember(before, c);
        var k :| 0 <= k < |before| && before[k].id == c.from.id;
        assert config[k].id != e.id;
        EntryMember(e, c);
      }
      DistinctConcat(Gather(before), EntryConnections(e, |e.peers|));
    }
  }

  lemma GatherFacts(config: seq<Entry>)
    requires DistinctIds(config)
    ensures Distinct(Gather(config))
    ensures forall c :: c in Gather(config) <==> Gives(config, c.from, c.to)
  {
    GatherDistinct(config);
    forall c ensures c in Gather(config) <==> Gives(config, c.from, c.to) {
      GatherMember(config, c);
    }
  }

  lemma GivesStep(config: seq<Entry>, p: Port, q: Port)
    requires config != []
    ensures var n := |config| - 1; var e := config[n];
            Gives(config, p, q) <==> Gives(config[..n], p, q) || (e.id == p.id && p.index < |e.peers| && e.peers[p.index] == q)
  {
    var n := |config| - 1;
    var before := config[..n];
    if Gives(before, p, q) {
      var k :| 0 <= k < |before| && before[k].id == p.id && p.index < |before[k].peers| && before[k].peers[p.index] == q;
      assert config[k] == before[k];
    }
    if Gives(config, p, q) {
      var k :| 0 <= k < |config| && config[k].id == p.id && p.index < |config[k].peers| && config[k].peers[p.index] == q;
      assert k < n ==> before[k] == config[k];
    }
  }

  /** A gathered list is the complete list of its wiring, and its indices never have a gap; the wiring is
      well formed exactly when peers name each other and no port names itself. */
  lemma GatheredIsListed(config: seq<Entry>, m: Wiring)
    requires DistinctIds(config)
    requires forall p, q :: Gives(config, p, q) <==> p in m && m[p] == q
    ensures Lists(Gather(config), m)
    ensures WellWired(m) <==> forall p, q :: Gives(config, p, q) ==> Gives(config, q, p) && p != q
  {
    GatherFacts(config);
    forall p | p in m ensures Pred(p) in m {
      assert Gives(config, p, m[p]);
      var k :| 0 <= k < |config| && config[k].id == p.id && p.index < |config[k].peers| && config[k].peers[p.index] == m[p];
      assert Gives(config, Pred(p), config[k].peers[Pred(p).index]);
    }
    if WellWired(m) {
      forall p, q | Gives(config, p, q) ensures Gives(config, q, p) && p != q {
        assert m[p] == q;
      }
    }
    if forall p, q :: Gives(config, p, q) ==> Gives(config, q, p) && p != q {
      forall p | p in m ensures m[p] in m && m[m[p]] == p && m[p] != p {
        assert Gives(config, p, m[p]);
      }
    }
  }

  // ---------- Stars ----------

  /** A port with a single connection. */
  predicate Leaf(m: Wiring, p: Port) {
    p.index == 0 && Port(p.id, 1) !in m
  }

  /** Every connection has an end on a port with a single connection. */
  ghost predicate Star(m: Wiring)
    requires WellWired(m)
  {
    forall p {:trigger m[p]} :: p in m ==> Leaf(m, p) || Leaf(m, m[p])
  }

  lemma {:induction false} LowerIndex(m: Wiring, p: Port, k: nat)
    requires WellWired(m) && p in m && k <= p.index
    ensures Port(p.id, k) in m
    decreases p.index
  {
    if k < p.index {
      assert Pred(p) in m;
      LowerIndex(m, Pred(p), k);
    } else {
      assert p == Port(p.id, k);
    }
  }

  /** In a star, a port with several connections always has a leaf opposite. */
  lemma HubHasLeaf(m: Wiring, h: Port)
    requires WellWired(m) && Star(m) && h in m && h.index > 0
    ensures Leaf(m, m[h]) && h.id != m[h].id
    ensures Pred(h) in m && Leaf(m, m[Pred(h)])
    ensures Waits(m, h) == {Pred(h)}
  {
    LowerIndex(m, h, 1);
    assert Pred(h) in m;
    LowerIndex(m, h, Pred(h).index);
    assert !Leaf(m, h) && !Leaf(m, Pred(h));
  }

  /** A hub met before its leaf is never delayed. */
  lemma {:induction false} HubFirstIsPrompt(m: Wiring, order: seq<Port>, at: map<Port, nat>, c: seq<Port>)
    requires WellWired(m) && Star(m) && Placed(m, order, at) && Chain(m, at, c)
    requires Leaf(m, m[c[0]])
    ensures at[m[c[0]]] < at[c[0]]
    decreases |c|
  {
    var h := c[0];
    assert m[h] in m;
    assert h.index > 0;
    HubHasLeaf(m, h);
    assert c[1] == Pred(h);
    if |c| > 2 && at[Pred(h)] < at[m[Pred(h)]] {
      HubFirstIsPrompt(m, order, at, c[1..]);
    }
  }

  lemma StarNotOvertaken(m: Wiring, order: seq<Port>, at: map<Port, nat>, p: Port, q: Port)
    requires WellWired(m) && Star(m) && Placed(m, order, at) && p in m
    ensures !Overtaken(m, at, p, q)
  {
    if Overtaken(m, at, p, q) {
      PeerFacts(m, at, p);
      var h := if p.index > 0 then p else m[p];
      assert m[h] in m;
      HubHasLeaf(m, h);
      assert q == Pred(h);
      var c :| Chain(m, at, c) && c[0] == q;
      HubFirstIsPrompt(m, order, at, c);
      assert false;
    }
  }

  lemma StarEndsDiffer(m: Wiring, p: Port)
    requires WellWired(m) && Star(m) && p in m
    ensures p.id != m[p].id
  {
    var q := m[p];
    assert q in m && m[q] == p;
    assert p == Port(p.id, p.index) && q == Port(q.id, q.index);
    if p.index > 0 { HubHasLeaf(m, p); } else if q.index > 0 { HubHasLeaf(m, q); }
  }

  lemma StarIsSchedulable(m: Wiring, order: seq<Port>, at: map<Port, nat>)
    requires WellWired(m) && Star(m) && Placed(m, order, at)
    ensures Schedulable(m, at)
  {
    forall p | p in m ensures p.id != m[p].id {
      StarEndsDiffer(m, p);
    }
    forall p, q | p in m ensures !Overtaken(m, at, p, q) {
      StarNotOvertaken(m, order, at, p, q);
    }
  }

  /** Every star is bound completely in one pass, whatever its names sort like. */
  lemma StarIsAccepted(connections: seq<Connection>, m: Wiring)
    requires WellWired(m) && Lists(connections, m) && Star(m)
    ensures BindOutcome(connections).Ok?
  {
    var list := InListOrder(connections);
    AcceptedIffSchedulable(connections, m);
    SortedLists(connections, m);
    ListPlaces(list, m);
    var at := Positions(list, m);
    StarIsSchedulable(m, Order(list), at);
  }

  // ---------- A list that could be ordered but is refused ----------

  /** a[0] - b[1], b[0] - c[1], c[0] - d[0], in both orientations. */
  function ChainOf(a: PortId, b: PortId, c: PortId, d: PortId): seq<Connection> {
    [Connection(Port(a, 0), Port(b, 1)), Connection(Port(b, 0), Port(c, 1)), Connection(Port(b, 1), Port(a, 0)),
     Connection(Port(c, 0), Port(d, 0)), Connection(Port(c, 1), Port(b, 0)), Connection(Port(d, 0), Port(c, 0))]
  }

  function ChainList(): seq<Connection> {
    ChainOf(PortId("a", "port"), PortId("b", "port"), PortId("c", "port"), PortId("d", "port"))
  }

  /** Some order of binding each pair once would respect all indices. */
  ghost predicate Orderable(connections: seq<Connection>) {
    exists made :: InOrder(made) && OncePerPair(made) && 2 * |made| == |connections| &&
                   forall c :: c in made ==> c in connections
  }

  /** Accepted lists can be ordered ... */
  lemma AcceptedIsOrderable(connections: seq<Connection>)
    requires NoSelf(connections) && BindOutcome(connections).Ok?
    ensures Orderable(connections)
  {
    MadeIsSound(connections);
    var made := Made(connections);
    assert InOrder(made) && OncePerPair(made) && 2 * |made| == |connections|;
  }

  lemma ChainListSorted()
    ensures InListOrder(ChainList()) == ChainList()
  {
    var list := ChainList();
    forall i, j | 0 <= i < j < |list| ensures ConnectionOrder()(list[i], list[j]) {
      assert StrLe("a", "b") && StrLe("a", "c") && StrLe("a", "d") && StrLe("b", "c") && StrLe("b", "d") && StrLe("c", "d");
    }
    SortOfSorted(ConnectionOrder(), list);
  }

  lemma EndsOfFew(c: Connection, d: Connection, id: PortId)
    ensures Ends([c], id) == EndsOf(c, id)
    ensures Ends([c, d], id) == EndsOf(c, id) + EndsOf(d, id)
  {
    assert [c][..0] == [] && [c, d][..1] == [c];
  }

  /** Nothing is bound on the first three entries, then c[0] - d[0]. */
  lemma ChainPassStart(a: PortId, b: PortId, c: PortId, d: PortId)
    ensures MadeBefore(ChainOf(a, b, c, d), 4) == [ChainOf(a, b, c, d)[3]]
  {
    var list := ChainOf(a, b, c, d);
    assert list[..0] == [];
    PassStep(list, 0);
    PassStep(list, 1);
    PassStep(list, 2);
    PassStep(list, 3);
  }

  /** Then c[1] - b[0], and a[0] - b[1] has been missed. */
  lemma ChainPassEnd(a: PortId, b: PortId, c: PortId, d: PortId)
    requires b != c && b != d && c != d
    ensures |Pass(ChainOf(a, b, c, d))| == 2
  {
    var list := ChainOf(a, b, c, d);
    ChainPassStart(a, b, c, d);
    EndsOfFew(list[3], list[4], b);
    EndsOfFew(list[3], list[4], c);
    EndsOfFew(list[3], list[4], d);
    PassStep(list, 4);
    PassStep(list, 5);
    assert list[..6] == list;
  }

  lemma ChainCanBeOrdered(a: PortId, b: PortId, c: PortId, d: PortId)
    requires a != b && a != c && a != d && b != c && b != d && c != d
    ensures Orderable(ChainOf(a, b, c, d))
  {
    var list := ChainOf(a, b, c, d);
    var one, two, three := [list[3]], [list[3], list[1]], [list[3], list[1], list[0]];
    AppendInOrder([], list[3]);
    assert [] + one == one && one + [list[1]] == two && two + [list[0]] == three;
    EndsOfFew(list[3], list[1], a);
    EndsOfFew(list[3], list[1], b);
    EndsOfFew(list[3], list[1], c);
    AppendInOrder(one, list[1]);
    AppendInOrder(two, list[0]);
    ChainOnce(a, b, c, d);
    assert InOrder(three) && OncePerPair(three) && 2 * |three| == |list|;
  }

  lemma ChainOnce(a: PortId, b: PortId, c: PortId, d: PortId)
    requires a != b && a != c && a != d && b != c && b != d && c != d
    ensures var list := ChainOf(a, b, c, d); OncePerPair([list[3], list[1], list[0]])
  {
  }

  /** ... but not every list that can be ordered is accepted: the single pass refuses this chain. */
  lemma OrderableButRefused()
    ensures Orderable(ChainList()) && Symmetric(ChainList()) && BindOutcome(ChainList()) == Err(CannotOrder)
  {
    var a, b, c, d := PortId("a", "port"), PortId("b", "port"), PortId("c", "port"), PortId("d", "port");
    assert "a" != "b" && "a" != "c" && "a" != "d" && "b" != "c" && "b" != "d" && "c" != "d";
    ChainCanBeOrdered(a, b, c, d);
    ChainSymmetric(a, b, c, d);
    SymmetricOutcome(ChainList());
    ChainListSorted();
    ChainPassEnd(a, b, c, d);
  }

  lemma ChainSymmetric(a: PortId, b: PortId, c: PortId, d: PortId)
    ensures Symmetric(ChainOf(a, b, c, d))
  {
    var list := ChainOf(a, b, c, d);
    assert list[0].Flip() == list[2] && list[1].Flip() == list[4] && list[3].Flip() == list[5];
    assert list[2].Flip() == list[0] && list[4].Flip() == list[1] && list[5].Flip() == list[3];
  }
}
