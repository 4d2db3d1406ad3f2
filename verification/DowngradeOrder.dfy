/** The header comment of gem5/util/cpt_upgrader.py (lines 56-61) promises that a tag depending on a
    downgraded tag runs only once that tag has been removed. `ready` (lines 144-148) asks for the
    opposite. This module says exactly when the promise is kept. */
module DowngradeOrder {
  import opened Collections
  import opened UpgradeEngine

  /** The documented order: whenever a tag runs, none of the downgraded tags it depends on is present. */
  ghost predicate RemovedFirst(c: Catalog, tags: set<Tag>, trace: seq<Tag>)
    requires c.Valid()
    decreases |trace|
  {
    trace == [] ||
    (&& trace[0] in c.kind
     && c.deps[trace[0]] * c.down !! tags
     && match Update(c, tags, trace[0])
        case None => true
        case Some(next) => RemovedFirst(c, next, trace[1..]))
  }

  lemma {:induction false} RemovedFirstSuffix(c: Catalog, tags: set<Tag>, a: seq<Tag>, b: seq<Tag>)
    requires c.Valid() && Elements(a) <= c.kind.Keys
    requires RemovedFirst(c, tags, a + b) && UpdateAll(c, tags, a).Some?
    ensures RemovedFirst(c, UpdateAll(c, tags, a).value, b)
    decreases |a|
  {
    if a == [] {
      assert a + b == b;
    } else {
      assert (a + b)[1..] == a[1..] + b;
      assert a[0] in Elements(a);
      assert Elements(a[1..]) <= Elements(a);
      RemovedFirstSuffix(c, Update(c, tags, a[0]).value, a[1..], b);
    }
  }

  /** The tags that become ready in some round before the run ends. */
  function Reached(c: Catalog, tags: set<Tag>, todo: set<Tag>): set<Tag>
    requires c.Valid() && todo <= c.up + c.down
    decreases todo
  {
    var ready := Ready(c, todo, tags);
    if todo == {} || ready == {} then {}
    else if !(OfKind(c, ready, Downgrade) <= tags) then ready
    else
      assert todo - ready < todo by { var t :| t in ready; assert t in todo; }
      ready + Reached(c, AfterRound(c, tags, ready), todo - ready)
  }

  /** Without a failing removal these are all tags to be applied but the ones reported at the end. */
  lemma {:induction false} ReachedFacts(c: Catalog, tags: set<Tag>, todo: set<Tag>)
    requires c.Valid() && todo <= c.up + c.down
    ensures Reached(c, tags, todo) <= todo
    ensures var o := Resolve(c, tags, todo);
            !o.RemoveFailed? ==> Left(o) <= todo && Reached(c, tags, todo) == todo - Left(o)
    decreases todo
  {
    var ready := Ready(c, todo, tags);
    if todo != {} && ready != {} && OfKind(c, ready, Downgrade) <= tags {
      assert todo - ready < todo by { var t :| t in ready; assert t in todo; }
      ReachedFacts(c, AfterRound(c, tags, ready), todo - ready);
    }
  }

  lemma {:induction false} RunAppliesOnlyReached(c: Catalog, tags: set<Tag>, todo: set<Tag>, rounds: seq<seq<Tag>>, o: Outcome)
    requires c.Valid() && todo <= c.up + c.down && IsRun(c, tags, todo, rounds, o)
    ensures Elements(Flatten(rounds)) <= Reached(c, tags, todo)
    decreases |rounds|
  {
    if rounds != [] {
      var ready := Ready(c, todo, tags);
      ElementsConcat(rounds[0], Flatten(rounds[1..]));
      UpdateAllIsOrderFree(c, tags, rounds[0], ready);
      if OfKind(c, ready, Downgrade) <= tags {
        RunAppliesOnlyReached(c, AfterRound(c, tags, ready), todo - ready, rounds[1..], o);
      }
    }
  }

  lemma {:induction false} NothingToRemoveFirst(c: Catalog, tags: set<Tag>, trace: seq<Tag>)
    requires c.Valid() && Elements(trace) <= c.kind.Keys
    requires forall t :: t in Elements(trace) ==> c.deps[t] !! c.down
    ensures RemovedFirst(c, tags, trace)
    decreases |trace|
  {
    if trace != [] {
      assert trace[0] in Elements(trace);
      assert Elements(trace[1..]) <= Elements(trace);
      if Update(c, tags, trace[0]).Some? {
        NothingToRemoveFirst(c, Update(c, tags, trace[0]).value, trace[1..]);
      }
    }
  }

  /** Any tag that becomes ready can be scheduled to run while the downgraded tag it depends on is present. */
  lemma {:induction false} ScheduleAgainstPromise(c: Catalog, tags: set<Tag>, todo: set<Tag>, t: Tag, d: Tag)
    returns (rounds: seq<seq<Tag>>)
    requires c.Valid() && todo <= c.up + c.down
    requires t in todo && t in Reached(c, tags, todo) && d in c.deps[t] && d in c.down
    ensures IsRun(c, tags, todo, rounds, Resolve(c, tags, todo))
    ensures !RemovedFirst(c, tags, Flatten(rounds))
    decreases todo
  {
    var ready := Ready(c, todo, tags);
    if t in ready {
      var rest := SomeOrder(ready - {t});
      var order := [t] + rest;
      assert OrderOf(order, ready) by {
        ElementsConcat([t], rest);
        assert forall i :: 0 <= i < |rest| ==> rest[i] in Elements(rest);
      }
      rounds := RunWithFirstRound(c, tags, todo, order);
      assert Flatten(rounds)[0] == t;
      assert d in c.deps[t] * c.down && d in tags;
    } else {
      assert todo - ready < todo by { var x :| x in ready; assert x in todo; }
      var order := SomeOrder(ready);
      UpdateAllIsOrderFree(c, tags, order, ready);
      var next := AfterRound(c, tags, ready);
      var later := ScheduleAgainstPromise(c, next, todo - ready, t, d);
      rounds := [order] + later;
      assert rounds[1..] == later;
      if RemovedFirst(c, tags, Flatten(rounds)) {
        RemovedFirstSuffix(c, tags, order, Flatten(later));
      }
    }
  }

  /** Every run keeps to the documented order. */
  ghost predicate PromiseKept(c: Catalog, tags: set<Tag>)
    requires c.Valid()
  {
    var todo := c.ToApply(tags);
    forall rounds, o :: IsRun(c, tags, todo, rounds, o) ==> RemovedFirst(c, tags, Flatten(rounds))
  }

  ghost predicate NoneDependsOnDowngraded(c: Catalog, s: set<Tag>)
    requires c.Valid() && s <= c.deps.Keys
  {
    forall t :: t in s ==> c.deps[t] !! c.down
  }

  /** For every registry and every checkpoint, whether the run completes, aborts or crashes: the
      documented order holds under every visiting order exactly when no tag that becomes ready depends on
      a tag with a downgrader. */
  lemma {:induction false} PromiseKeptIff(c: Catalog, tags: set<Tag>)
    requires c.Valid()
    ensures Reached(c, tags, c.ToApply(tags)) <= c.deps.Keys
    ensures PromiseKept(c, tags) <==> NoneDependsOnDowngraded(c, Reached(c, tags, c.ToApply(tags)))
  {
    var todo := c.ToApply(tags);
    ReachedFacts(c, tags, todo);
    if t, d :| t in Reached(c, tags, todo) && d in c.deps[t] && d in c.down {
      var rounds := ScheduleAgainstPromise(c, tags, todo, t, d);
    } else {
      forall rounds, o | IsRun(c, tags, todo, rounds, o) ensures RemovedFirst(c, tags, Flatten(rounds)) {
        RunAppliesOnlyReached(c, tags, todo, rounds, o);
        NothingToRemoveFirst(c, tags, Flatten(rounds));
      }
    }
  }

  /** In terms of the tags to be applied: it is enough that none of them depends on a downgraded tag; for a
      run that does not crash, only the tags reported as impossible may; for one that completes, none may. */
  lemma PromiseByTags(c: Catalog, tags: set<Tag>)
    requires c.Valid()
    ensures var todo, o := c.ToApply(tags), Resolve(c, tags, c.ToApply(tags));
            && (NoneDependsOnDowngraded(c, todo) ==> PromiseKept(c, tags))
            && (!o.RemoveFailed? ==> (PromiseKept(c, tags) <==> NoneDependsOnDowngraded(c, todo - Left(o))))
            && (o.Done? ==> (PromiseKept(c, tags) <==> NoneDependsOnDowngraded(c, todo)))
  {
    var todo, o := c.ToApply(tags), Resolve(c, tags, c.ToApply(tags));
    PromiseKeptIff(c, tags);
    ReachedFacts(c, tags, todo);
    assert o.Done? ==> todo - Left(o) == todo;
  }

  /** A tag that depends on a downgraded tag already removed is never applied: the run aborts with it left over. */
  lemma {:induction false} RemovedDependencyBlocks(c: Catalog, tags: set<Tag>, todo: set<Tag>, t: Tag, d: Tag)
    requires c.Valid() && todo <= c.up + c.down && c.up !! c.down
    requires t in todo && d in c.deps[t] && d in c.down && d !in tags
    ensures !Resolve(c, tags, todo).Done? && (Resolve(c, tags, todo).Impossible? ==> t in Resolve(c, tags, todo).left)
    decreases todo
  {
    var ready := Ready(c, todo, tags);
    if ready != {} && OfKind(c, ready, Downgrade) <= tags {
      assert todo - ready < todo by { var x :| x in ready; assert x in todo; }
      RemovedDependencyBlocks(c, AfterRound(c, tags, ready), todo - ready, t, d);
    }
  }

  /** Tag "new" depends on "old", which has a downgrader. With "old" present, "new" may run before it
      is removed; with "old" already gone, the upgrade is refused. */
  lemma PromiseBroken()
    ensures var c := Catalog({"new"}, {"old"}, map["new" := {"old"}, "old" := {}], map["new" := Upgrade, "old" := Downgrade]);
            && c.Valid()
            && IsRun(c, {"old"}, c.ToApply({"old"}), [["new", "old"]], Done({"new"}))
            && !RemovedFirst(c, {"old"}, ["new", "old"])
            && Resolve(c, {}, c.ToApply({})) == Impossible({"new"}, {})
  {
    var c := Catalog({"new"}, {"old"}, map["new" := {"old"}, "old" := {}], map["new" := Upgrade, "old" := Downgrade]);
    assert c.ToApply({"old"}) == {"new", "old"} == Ready(c, {"new", "old"}, {"old"});
    assert OrderOf(["new", "old"], {"new", "old"});
    UpdateAllIsOrderFree(c, {"old"}, ["new", "old"], {"new", "old"});
    assert AfterRound(c, {"old"}, {"new", "old"}) == {"new"};
    assert {"new", "old"} - {"new", "old"} == {};
    assert [["new", "old"]][1..] == [];
    assert IsRun(c, {"new"}, {}, [], Done({"new"}));
    assert "old" in c.deps["new"] * c.down && "old" in {"old"};
    assert c.ToApply({}) == {"new"} && Ready(c, {"new"}, {}) == {};
  }
}
