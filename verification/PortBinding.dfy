/** Binding ports from a list of connections (gem5/configs/example/read_config.py:143-170, 326-406). */
module PortBinding {
  import opened Wrappers
  import opened Sorting
  import opened Lexicographic

  datatype PortId = PortId(obj: string, port: string)

  datatype Port = Port(id: PortId, index: nat)

  datatype Connection = Connection(from: Port, to: Port) {
    function Flip(): Connection { Connection(to, from) }
  }

  datatype BindError = KeyError | CannotOrder

  /** The order meant by `PortConnection.__cmp__`: object name, port name, index. */
  predicate PortLe(a: Port, b: Port) {
    if a.id.obj != b.id.obj then StrLe(a.id.obj, b.id.obj)
    else if a.id.port != b.id.port then StrLe(a.id.port, b.id.port)
    else a.index <= b.index
  }

  lemma PortLeTotal(a: Port, b: Port)
    ensures PortLe(a, b) || PortLe(b, a)
  {
    StrLeTotal(a.id.obj, b.id.obj);
    StrLeTotal(a.id.port, b.id.port);
  }

  lemma PortLeAntisymmetric(a: Port, b: Port)
    requires PortLe(a, b) && PortLe(b, a)
    ensures a == b
  {
    if a.id.obj != b.id.obj {
      StrLeAntisymmetric(a.id.obj, b.id.obj);
    } else if a.id.port != b.id.port {
      StrLeAntisymmetric(a.id.port, b.id.port);
    }
  }

  lemma PortLeTransitive(a: Port, b: Port, c: Port)
    requires PortLe(a, b) && PortLe(b, c)
    ensures PortLe(a, c)
  {
    if a.id.obj != b.id.obj && b.id.obj != c.id.obj {
      StrLeTransitive(a.id.obj, b.id.obj, c.id.obj);
      if a.id.obj == c.id.obj {
        StrLeAntisymmetric(a.id.obj, b.id.obj);
      }
    } else if a.id.obj == b.id.obj == c.id.obj && a.id.port != b.id.port && b.id.port != c.id.port {
      StrLeTransitive(a.id.port, b.id.port, c.id.port);
      if a.id.port == c.id.port {
        StrLeAntisymmetric(a.id.port, b.id.port);
      }
    }
  }

  /** Tuples of ports compare by their first difference. */
  function ConnectionOrder(): (Connection, Connection) -> bool {
    (c: Connection, d: Connection) => if c.from != d.from then PortLe(c.from, d.from) else PortLe(c.to, d.to)
  }

  lemma ConnectionOrderOrders()
    ensures TotalPreorder(ConnectionOrder())
  {
    var le := ConnectionOrder();
    forall c, d ensures le(c, d) || le(d, c) {
      PortLeTotal(c.from, d.from);
      PortLeTotal(c.to, d.to);
    }
    forall c, d, e | le(c, d) && le(d, e) ensures le(c, e) {
      if c.from == d.from == e.from {
        PortLeTransitive(c.to, d.to, e.to);
      } else if c.from != d.from && d.from != e.from {
        PortLeTransitive(c.from, d.from, e.from);
        if c.from == e.from {
          PortLeAntisymmetric(c.from, d.from);
        }
      }
    }
  }

  // ---------- What a list of bindings does to the ports ----------

  /** What one binding appends to a port: its index there and the peer. */
  function EndsOf(c: Connection, id: PortId): seq<(nat, Port)> {
    (if c.from.id == id then [(c.from.index, c.to)] else []) +
    (if c.to.id == id then [(c.to.index, c.from)] else [])
  }

  /** The vector a port ends up with when the bindings are made in this order. */
  function Ends(made: seq<Connection>, id: PortId): seq<(nat, Port)> {
    if made == [] then [] else Ends(made[..|made| - 1], id) + EndsOf(made[|made| - 1], id)
  }

  /** Each port is bound at its indices 0, 1, 2, ... in that order and without a gap. */
  ghost predicate InOrder(made: seq<Connection>) {
    forall id, k :: 0 <= k < |Ends(made, id)| ==> Ends(made, id)[k].0 == k
  }

  predicate Bindable(made: seq<Connection>, c: Connection) {
    |Ends(made, c.from.id)| == c.from.index && |Ends(made, c.to.id)| == c.to.index
  }

  /** One pass over the list, taking each connection whose ends are both next in line. */
  function Pass(list: seq<Connection>): seq<Connection> {
    if list == [] then []
    else
      var made, c := Pass(list[..|list| - 1]), list[|list| - 1];
      if Bindable(made, c) then made + [c] else made
  }

  /** The bindings made before step `k` of the pass. */
  function MadeBefore(list: seq<Connection>, k: nat): seq<Connection>
    requires k <= |list|
  {
    Pass(list[..k])
  }

  /** At step `k` of the pass the `from` end is next in line, so the `to` end is looked at. */
  predicate LooksUp(list: seq<Connection>, k: nat)
    requires k < |list|
  {
    |Ends(MadeBefore(list, k), list[k].from.id)| == list[k].from.index
  }

  /** Looking up the counter of a `to` port that is no `from` port fails. */
  predicate MissesBefore(list: seq<Connection>, ids: set<PortId>, k: nat)
    requires k <= |list|
  {
    k > 0 && (MissesBefore(list, ids, k - 1) || (LooksUp(list, k - 1) && list[k - 1].to.id !in ids))
  }

  predicate MissesCounter(list: seq<Connection>, ids: set<PortId>) {
    MissesBefore(list, ids, |list|)
  }

  lemma {:induction false} MissPersists(list: seq<Connection>, ids: set<PortId>, j: nat, k: nat)
    requires j <= k <= |list| && MissesBefore(list, ids, j)
    ensures MissesBefore(list, ids, k)
  {
    if j < k {
      MissPersists(list, ids, j, k - 1);
    }
  }

  lemma {:induction false} NeverMisses(list: seq<Connection>, ids: set<PortId>, k: nat)
    requires k <= |list| && forall c :: c in list ==> c.to.id in ids
    ensures !MissesBefore(list, ids, k)
  {
    if k > 0 {
      NeverMisses(list, ids, k - 1);
    }
  }

  function FromIds(connections: seq<Connection>): set<PortId> {
    set c | c in connections :: c.from.id
  }

  function InListOrder(connections: seq<Connection>): seq<Connection> {
    Sort(ConnectionOrder(), connections)
  }

  /** Everything the pass binds. */
  function Made(connections: seq<Connection>): seq<Connection> {
    Pass(InListOrder(connections))
  }

  function BindOutcome(connections: seq<Connection>): Result<seq<Connection>, BindError> {
    var list := InListOrder(connections);
    if MissesCounter(list, FromIds(connections)) then Err(KeyError)
    else if |Made(connections)| * 2 != |connections| then Err(CannotOrder)
    else Ok(Made(connections))
  }

  lemma PassStep(list: seq<Connection>, k: nat)
    requires k < |list|
    ensures MadeBefore(list, k + 1) ==
            if Bindable(MadeBefore(list, k), list[k]) then MadeBefore(list, k) + [list[k]] else MadeBefore(list, k)
  {
    assert list[..k + 1][..k] == list[..k];
  }

  ghost predicate Counts(counters: map<PortId, nat>, made: seq<Connection>) {
    forall id :: id in counters ==> counters[id] == |Ends(made, id)|
  }

  /** The two increments of lines 389-390. */
  function Increment(counters: map<PortId, nat>, id: PortId): map<PortId, nat>
    requires id in counters
  {
    counters[id := counters[id] + 1]
  }

  lemma CountsStep(list: seq<Connection>, k: nat, counters: map<PortId, nat>)
    requires k < |list| && Counts(counters, MadeBefore(list, k)) && list[k].from.id in counters
    ensures var from, to := list[k].from, list[k].to;
            && (LooksUp(list, k) <==> counters[from.id] == from.index)
            && (if to.id in counters && counters[from.id] == from.index && counters[to.id] == to.index
                then MadeBefore(list, k + 1) == MadeBefore(list, k) + [list[k]] &&
                     Counts(Increment(Increment(counters, from.id), to.id), MadeBefore(list, k + 1))
                else to.id in counters || counters[from.id] != from.index ==> MadeBefore(list, k + 1) == MadeBefore(list, k))
  {
    var made, c := MadeBefore(list, k), list[k];
    PassStep(list, k);
    assert (made + [c])[..|made|] == made;
    assert counters[c.from.id] == |Ends(made, c.from.id)|;
    if c.to.id in counters && counters[c.from.id] == c.from.index && counters[c.to.id] == c.to.index {
      var next := Increment(Increment(counters, c.from.id), c.to.id);
      forall id | id in next ensures next[id] == |Ends(made + [c], id)| {
        assert Ends(made + [c], id) == Ends(made, id) + EndsOf(c, id);
      }
    }
  }

  /** Lines 357-359. */
  method ZeroCounters(connections: seq<Connection>) returns (counters: map<PortId, nat>)
    ensures counters.Keys == FromIds(connections) && Counts(counters, [])
  {
    counters := map[];
    for k := 0 to |connections|
      invariant counters.Keys == FromIds(connections[..k])
      invariant forall id :: id in counters ==> counters[id] == 0
    {
      assert connections[..k + 1] == connections[..k] + [connections[k]];
      counters := counters[connections[k].from.id := 0];
    }
    assert connections[..|connections|] == connections;
  }

  /** Lines 380-390. */
  method RunPass(list: seq<Connection>, zero: map<PortId, nat>) returns (r: Result<seq<Connection>, BindError>)
    requires FromIds(list) <= zero.Keys && Counts(zero, [])
    ensures r == if MissesCounter(list, zero.Keys) then Err(KeyError) else Ok(Pass(list))
  {
    var counters, made := zero, [];
    for k := 0 to |list|
      invariant counters.Keys == zero.Keys
      invariant made == MadeBefore(list, k) && Counts(counters, made)
      invariant !MissesBefore(list, zero.Keys, k)
    {
      var c := list[k];
      assert c.from.id in FromIds(list);
      CountsStep(list, k, counters);
      if counters[c.from.id] == c.from.index {
        if c.to.id !in counters {
          assert MissesBefore(list, zero.Keys, k + 1);
          MissPersists(list, zero.Keys, k + 1, |list|);
          return Err(KeyError);
        }
        if counters[c.to.id] == c.to.index {
          made := made + [c];
          counters := Increment(counters, c.from.id);
          counters := Increment(counters, c.to.id);
        }
      }
    }
    assert list[..|list|] == list;
    return Ok(made);
  }

  /** `bind_ports` up to the point where the bindings are carried out. */
  method BindPorts(connections: seq<Connection>) returns (r: Result<seq<Connection>, BindError>)
    ensures r == BindOutcome(connections)
  {
    var counters := ZeroCounters(connections);
    var list := InListOrder(connections);
    SortSortedIds(connections);
    r := RunPass(list, counters);
    if r.Ok? && |r.value| * 2 != |connections| {
      return Err(CannotOrder);
    }
  }

  /** Two ports in the order of their names: by object, then by port, then by index. */
  ghost predicate ByName(a: Port, b: Port) {
    && StrLe(a.id.obj, b.id.obj)
    && (a.id.obj == b.id.obj ==> StrLe(a.id.port, b.id.port))
    && (a.id == b.id ==> a.index <= b.index)
  }

  /** What the sorted list looks like: its entries stand in the order of their left-hand ports, and entries
      with the same left-hand port in the order of their right-hand ports. */
  lemma ListOrderMeans(connections: seq<Connection>, i: nat, j: nat)
    requires i < j < |InListOrder(connections)|
    ensures var c, d := InListOrder(connections)[i], InListOrder(connections)[j];
            ByName(c.from, d.from) && (c.from == d.from ==> ByName(c.to, d.to))
  {
    SortSortedIds(connections);
    var list := InListOrder(connections);
    assert ConnectionOrder()(list[i], list[j]);
    StrLeReflexive(list[i].from.id.obj);
    StrLeReflexive(list[i].from.id.port);
    StrLeReflexive(list[i].to.id.obj);
    StrLeReflexive(list[i].to.id.port);
  }

  lemma SortSortedIds(connections: seq<Connection>)
    ensures var list := InListOrder(connections);
            && |list| == |connections|
            && (forall c :: c in list <==> c in connections)
            && (forall i, j :: 0 <= i < j < |list| ==> ConnectionOrder()(list[i], list[j]))
            && forall k :: 0 <= k < |list| ==> list[k].from.id in FromIds(connections)
  {
    var list := InListOrder(connections);
    ConnectionOrderOrders();
    SortSorted(ConnectionOrder(), connections);
    assert |multiset(list)| == |multiset(connections)|;
    forall c ensures c in list <==> c in connections {
      assert c in multiset(list) <==> c in multiset(connections);
    }
    forall k | 0 <= k < |list| ensures list[k].from.id in FromIds(connections) {
      assert list[k] in list;
    }
  }
}
