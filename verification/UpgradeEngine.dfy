/** The apply loop of the checkpoint upgrader (gem5/util/cpt_upgrader.py:144-158, 257-269).
    A registry is seen here as a value: which tags have upgraders, which have downgraders, what each
    tag depends on and which kind of script a tag resolves to. The migrations themselves are opaque. */
module UpgradeEngine {
  import opened Wrappers
  import opened Collections

  type Tag = string

  datatype Kind = Upgrade | Downgrade

  /** `up` and `down` are `tag_set` and `untag_set`; `deps` and `kind` describe the object in `by_tag`. */
  datatype Catalog = Catalog(up: set<Tag>, down: set<Tag>, deps: map<Tag, set<Tag>>, kind: map<Tag, Kind>) {
    predicate Valid() {
      && deps.Keys == up + down
      && kind.Keys == up + down
      && forall t :: t in kind ==> if kind[t].Upgrade? then t in up else t in down
    }

    /** Every dependency names a known tag: what the audit at load time guarantees. */
    predicate Audited() {
      forall t :: t in deps ==> deps[t] <= deps.Keys
    }

    function ToApply(tags: set<Tag>): set<Tag> {
      (up - tags) + (down * tags)
    }
  }

  datatype Outcome =
    | Done(tags: set<Tag>)
    | Impossible(left: set<Tag>, tags: set<Tag>)
    | RemoveFailed

  function Ready(c: Catalog, todo: set<Tag>, tags: set<Tag>): (ready: set<Tag>)
    requires c.Valid() && todo <= c.up + c.down
  {
    set t | t in todo && c.deps[t] <= tags
  }

  /** `Upgrader.update`: an upgrader adds its tag, a downgrader removes it and fails when it is absent. */
  function Update(c: Catalog, tags: set<Tag>, t: Tag): Option<set<Tag>>
    requires c.Valid() && t in c.kind
  {
    if c.kind[t].Upgrade? then Some(tags + {t})
    else if t in tags then Some(tags - {t})
    else None
  }

  function UpdateAll(c: Catalog, tags: set<Tag>, order: seq<Tag>): Option<set<Tag>>
    requires c.Valid() && Elements(order) <= c.kind.Keys
    decreases |order|
  {
    if order == [] then Some(tags)
    else
      assert order[0] in Elements(order);
      assert Elements(order[1..]) <= Elements(order);
      match Update(c, tags, order[0])
      case None => None
      case Some(next) => UpdateAll(c, next, order[1..])
  }

  /** All tags of a trace have a script. */
  predicate Known(c: Catalog, trace: seq<Tag>) {
    forall t :: t in trace ==> t in c.kind
  }

  /** The migrations that run when `trace` is applied: up to and including one whose removal fails, since
      a downgrader runs before its tag is removed. */
  function Ran(c: Catalog, tags: set<Tag>, trace: seq<Tag>): seq<Tag>
    requires c.Valid() && Known(c, trace)
    decreases |trace|
  {
    if trace == [] then []
    else
      match Update(c, tags, trace[0])
      case None => [trace[0]]
      case Some(next) => [trace[0]] + Ran(c, next, trace[1..])
  }

  /** The tags they leave. */
  function TagsAfter(c: Catalog, tags: set<Tag>, trace: seq<Tag>): set<Tag>
    requires c.Valid() && Known(c, trace)
    decreases |trace|
  {
    if trace == [] then tags
    else
      match Update(c, tags, trace[0])
      case None => tags
      case Some(next) => TagsAfter(c, next, trace[1..])
  }

  /** Behind migrations that all succeed, the next ones start from the tags these leave. */
  lemma {:induction false} RanConcat(c: Catalog, tags: set<Tag>, a: seq<Tag>, b: seq<Tag>)
    requires c.Valid() && Known(c, a) && Known(c, b)
    requires UpdateAll(c, tags, a).Some?
    ensures Known(c, a + b)
    ensures var next := UpdateAll(c, tags, a).value;
            && Ran(c, tags, a + b) == a + Ran(c, next, b)
            && TagsAfter(c, tags, a + b) == TagsAfter(c, next, b)
            && UpdateAll(c, tags, a + b) == UpdateAll(c, next, b)
    decreases |a|
  {
    if a == [] {
      assert a + b == b;
    } else {
      assert (a + b)[1..] == a[1..] + b;
      RanConcat(c, Update(c, tags, a[0]).value, a[1..], b);
    }
  }

  lemma AllRan(c: Catalog, tags: set<Tag>, a: seq<Tag>)
    requires c.Valid() && Known(c, a) && UpdateAll(c, tags, a).Some?
    ensures Ran(c, tags, a) == a && TagsAfter(c, tags, a) == UpdateAll(c, tags, a).value
  {
    RanConcat(c, tags, a, []);
    assert a + [] == a;
  }

  /** A complete run: `rounds` holds, for each round, the order in which that round's ready set was visited. */
  ghost predicate IsRun(c: Catalog, tags: set<Tag>, todo: set<Tag>, rounds: seq<seq<Tag>>, outcome: Outcome)
    requires c.Valid() && todo <= c.up + c.down
    decreases |rounds|
  {
    var ready := Ready(c, todo, tags);
    if todo == {} then rounds == [] && outcome == Done(tags)
    else if ready == {} then rounds == [] && outcome == Impossible(todo, tags)
    else
      && rounds != []
      && OrderOf(rounds[0], ready)
      && match UpdateAll(c, tags, rounds[0])
         case None => |rounds| == 1 && outcome == RemoveFailed
         case Some(next) => IsRun(c, next, todo - ready, rounds[1..], outcome)
  }

  // ---------- What a run computes, without reference to any visiting order ----------

  function OfKind(c: Catalog, s: set<Tag>, k: Kind): set<Tag>
    requires c.Valid() && s <= c.kind.Keys
  {
    set t | t in s && c.kind[t] == k
  }

  function AfterRound(c: Catalog, tags: set<Tag>, ready: set<Tag>): set<Tag>
    requires c.Valid() && ready <= c.kind.Keys
  {
    (tags + OfKind(c, ready, Upgrade)) - OfKind(c, ready, Downgrade)
  }

  function Resolve(c: Catalog, tags: set<Tag>, todo: set<Tag>): Outcome
    requires c.Valid() && todo <= c.up + c.down
    decreases todo
  {
    var ready := Ready(c, todo, tags);
    if todo == {} then Done(tags)
    else if ready == {} then Impossible(todo, tags)
    else if !(OfKind(c, ready, Downgrade) <= tags) then RemoveFailed
    else
      assert todo - ready < todo by { var t :| t in ready; assert t in todo; }
      Resolve(c, AfterRound(c, tags, ready), todo - ready)
  }

  lemma {:induction false} UpdateAllIsOrderFree(c: Catalog, tags: set<Tag>, order: seq<Tag>, s: set<Tag>)
    requires c.Valid() && s <= c.kind.Keys && OrderOf(order, s)
    ensures UpdateAll(c, tags, order) ==
            if OfKind(c, s, Downgrade) <= tags then Some(AfterRound(c, tags, s)) else None
    decreases |order|
  {
    if order == [] {
      assert s == {};
      assert AfterRound(c, tags, s) == tags;
    } else {
      var t := order[0];
      var rest := s - {t};
      assert t in Elements(order);
      assert OrderOf(order[1..], rest) by {
        forall x ensures x in Elements(order[1..]) <==> x in rest {
          if x in rest { assert x in Elements(order); }
          if x in order[1..] { assert x in Elements(order); }
        }
      }
      match Update(c, tags, t) {
        case None =>
          assert t in OfKind(c, s, Downgrade);
        case Some(next) =>
          UpdateAllIsOrderFree(c, next, order[1..], rest);
          if OfKind(c, s, Downgrade) <= tags {
            assert AfterRound(c, next, rest) == AfterRound(c, tags, s);
            assert OfKind(c, rest, Downgrade) <= next;
          } else {
            var x :| x in OfKind(c, s, Downgrade) && x !in tags;
            assert x in OfKind(c, rest, Downgrade) && x !in next;
          }
      }
    }
  }

  /** The visiting order of the ready sets never shows: every run from the same tags ends the same way. */
  lemma {:induction false} OutcomeIsOrderFree(c: Catalog, tags: set<Tag>, todo: set<Tag>, rounds: seq<seq<Tag>>, outcome: Outcome)
    requires c.Valid() && todo <= c.up + c.down
    requires IsRun(c, tags, todo, rounds, outcome)
    ensures outcome == Resolve(c, tags, todo)
    decreases |rounds|
  {
    var ready := Ready(c, todo, tags);
    if todo != {} && ready != {} {
      UpdateAllIsOrderFree(c, tags, rounds[0], ready);
      if OfKind(c, ready, Downgrade) <= tags {
        OutcomeIsOrderFree(c, AfterRound(c, tags, ready), todo - ready, rounds[1..], outcome);
      }
    }
  }

  /** There is a run from every start, whatever order the sets are visited in. */
  lemma {:induction false} RunExists(c: Catalog, tags: set<Tag>, todo: set<Tag>) returns (rounds: seq<seq<Tag>>)
    requires c.Valid() && todo <= c.up + c.down
    ensures IsRun(c, tags, todo, rounds, Resolve(c, tags, todo))
    decreases todo
  {
    var ready := Ready(c, todo, tags);
    if todo == {} || ready == {} {
      rounds := [];
    } else {
      var order := SomeOrder(ready);
      rounds := RunWithFirstRound(c, tags, todo, order);
    }
  }

  lemma {:induction false} RunWithFirstRound(c: Catalog, tags: set<Tag>, todo: set<Tag>, order: seq<Tag>)
    returns (rounds: seq<seq<Tag>>)
    requires c.Valid() && todo <= c.up + c.down
    requires Ready(c, todo, tags) != {} && OrderOf(order, Ready(c, todo, tags))
    ensures IsRun(c, tags, todo, rounds, Resolve(c, tags, todo)) && rounds != [] && rounds[0] == order
    decreases todo, 0
  {
    var ready := Ready(c, todo, tags);
    UpdateAllIsOrderFree(c, tags, order, ready);
    if OfKind(c, ready, Downgrade) <= tags {
      assert todo - ready < todo by { var t :| t in ready; assert t in todo; }
      var rest := RunExists(c, AfterRound(c, tags, ready), todo - ready);
      rounds := [order] + rest;
      assert rounds[1..] == rest;
    } else {
      rounds := [order];
    }
  }

  // ---------- Registries with upgraders only ----------

  /** Every member of `s` waits for another member of `s`. */
  ghost predicate Deadlocked(c: Catalog, s: set<Tag>)
    requires c.Valid() && s <= c.up + c.down
  {
    forall t :: t in s ==> c.deps[t] * s != {}
  }

  /** A dependency cycle inside `within`: each element depends on the next, the last on the first. */
  ghost predicate IsCycle(c: Catalog, within: set<Tag>, p: seq<Tag>)
    requires c.Valid() && within <= c.up + c.down
  {
    && p != []
    && (forall i :: 0 <= i < |p| ==> p[i] in within)
    && (forall i :: 0 <= i < |p| - 1 ==> p[i + 1] in c.deps[p[i]])
    && p[0] in c.deps[p[|p| - 1]]
  }

  function Left(o: Outcome): set<Tag> {
    if o.Impossible? then o.left else {}
  }

  lemma UpgradeRound(c: Catalog, tags: set<Tag>, todo: set<Tag>)
    requires c.Valid() && c.down == {} && todo == c.up - tags
    ensures var ready := Ready(c, todo, tags);
            && OfKind(c, ready, Downgrade) == {}
            && AfterRound(c, tags, ready) == tags + ready
            && todo - ready == c.up - (tags + ready)
            && (ready != {} ==> todo - ready < todo)
  {
    var ready := Ready(c, todo, tags);
    assert OfKind(c, ready, Upgrade) == ready;
    if ready != {} {
      var t :| t in ready;
      assert t in todo;
    }
  }

  /** An upgrade-only run never fails, applies all but what it reports, and what it reports is deadlocked. */
  lemma {:induction false} LeftoverIsDeadlocked(c: Catalog, tags: set<Tag>, todo: set<Tag>)
    requires c.Valid() && c.Audited() && c.down == {}
    requires todo == c.up - tags
    ensures var o := Resolve(c, tags, todo);
            && !o.RemoveFailed?
            && (o.Impossible? ==> o.left != {})
            && Left(o) <= todo
            && Deadlocked(c, Left(o))
            && o.tags == tags + (todo - Left(o))
    decreases todo
  {
    var ready := Ready(c, todo, tags);
    if todo != {} && ready == {} {
      StuckIsDeadlocked(c, tags, todo);
    } else if todo != {} {
      UpgradeRound(c, tags, todo);
      LeftoverIsDeadlocked(c, tags + ready, todo - ready);
    }
    TagsAddUp(tags, todo, ready, Left(Resolve(c, tags, todo)));
  }

  lemma StuckIsDeadlocked(c: Catalog, tags: set<Tag>, todo: set<Tag>)
    requires c.Valid() && c.Audited() && c.down == {} && todo == c.up - tags && Ready(c, todo, tags) == {}
    ensures Deadlocked(c, todo)
  {
    forall t | t in todo ensures c.deps[t] * todo != {} {
      assert t !in Ready(c, todo, tags);
      var d :| d in c.deps[t] && d !in tags;
      assert d in c.deps[t] * todo;
    }
  }

  lemma TagsAddUp(tags: set<Tag>, todo: set<Tag>, ready: set<Tag>, left: set<Tag>)
    requires ready <= todo
    ensures left <= todo - ready ==> tags + ready + (todo - ready - left) == tags + (todo - left)
    ensures left == todo ==> tags + (todo - left) == tags
  {
  }

  /** No member of a deadlocked set is ever applied. */
  lemma {:induction false} DeadlockIsLeft(c: Catalog, tags: set<Tag>, todo: set<Tag>, s: set<Tag>)
    requires c.Valid() && c.down == {}
    requires todo == c.up - tags
    requires s <= todo && Deadlocked(c, s)
    ensures s <= Left(Resolve(c, tags, todo))
    decreases todo
  {
    var ready := Ready(c, todo, tags);
    if todo != {} && ready != {} {
      UpgradeRound(c, tags, todo);
      forall t | t in s ensures t !in ready {
        var d :| d in c.deps[t] * s;
        assert d !in tags;
      }
      DeadlockIsLeft(c, tags + ready, todo - ready, s);
    }
  }

  /** Walk along dependencies inside a deadlocked set: the set is finite, so the walk meets itself. */
  lemma {:induction false} WalkToCycle(c: Catalog, s: set<Tag>, walk: seq<Tag>) returns (p: seq<Tag>)
    requires c.Valid() && s <= c.up + c.down && Deadlocked(c, s)
    requires walk != [] && Distinct(walk) && Elements(walk) <= s
    requires forall i :: 0 <= i < |walk| - 1 ==> walk[i + 1] in c.deps[walk[i]]
    ensures IsCycle(c, s, p)
    decreases |s| - |walk|
  {
    assert forall i :: 0 <= i < |walk| ==> walk[i] in Elements(walk);
    var next :| next in c.deps[walk[|walk| - 1]] * s;
    if next in walk {
      var k :| 0 <= k < |walk| && walk[k] == next;
      p := walk[k..];
    } else {
      var longer := walk + [next];
      ElementsAppend(walk, next);
      DistinctFits(longer, s);
      p := WalkToCycle(c, s, longer);
    }
  }

  /** The loop gives up exactly when the missing tags hold a dependency cycle. */
  lemma {:induction false} AbortIffCycle(c: Catalog, tags: set<Tag>)
    requires c.Valid() && c.Audited() && c.down == {}
    ensures Resolve(c, tags, c.ToApply(tags)).Impossible? <==> exists p :: IsCycle(c, c.up - tags, p)
    ensures Resolve(c, tags, c.ToApply(tags)).Impossible? || Resolve(c, tags, c.ToApply(tags)) == Done(tags + c.up)
  {
    var todo := c.up - tags;
    assert c.ToApply(tags) == todo;
    LeftoverIsDeadlocked(c, tags, todo);
    if Resolve(c, tags, todo).Impossible? {
      var p := AbortHasCycle(c, tags, todo);
    } else {
      assert Resolve(c, tags, todo).tags == tags + c.up;
    }
    if p :| IsCycle(c, todo, p) {
      CycleIsDeadlocked(c, todo, p);
      DeadlockIsLeft(c, tags, todo, Elements(p));
      assert p[0] in Elements(p);
    }
  }

  lemma AbortHasCycle(c: Catalog, tags: set<Tag>, todo: set<Tag>) returns (p: seq<Tag>)
    requires c.Valid() && c.Audited() && c.down == {}
    requires todo == c.up - tags && Resolve(c, tags, todo).Impossible?
    ensures IsCycle(c, todo, p)
  {
    LeftoverIsDeadlocked(c, tags, todo);
    var left := Left(Resolve(c, tags, todo));
    var t :| t in left;
    p := WalkToCycle(c, left, [t]);
  }

  lemma {:induction false} CycleIsDeadlocked(c: Catalog, within: set<Tag>, p: seq<Tag>)
    requires c.Valid() && within <= c.up + c.down && IsCycle(c, within, p)
    ensures Elements(p) <= within && Deadlocked(c, Elements(p))
  {
    forall t | t in Elements(p) ensures c.deps[t] * Elements(p) != {} {
      var i :| 0 <= i < |p| && p[i] == t;
      var d := if i < |p| - 1 then p[i + 1] else p[0];
      assert d in c.deps[t] * Elements(p);
    }
  }

  /** Each tag once, and only after everything it depends on is present or was applied earlier. */
  ghost predicate Topological(c: Catalog, tags: set<Tag>, trace: seq<Tag>)
    requires c.Valid() && Elements(trace) <= c.up + c.down
  {
    && Distinct(trace)
    && Elements(trace) !! tags
    && forall i :: 0 <= i < |trace| ==> InKeys(c, trace, i) && c.deps[trace[i]] <= tags + Elements(trace[..i])
  }

  ghost predicate InKeys(c: Catalog, trace: seq<Tag>, i: int) {
    0 <= i < |trace| && trace[i] in c.deps
  }

  lemma {:induction false} TopologicalConcat(c: Catalog, tags: set<Tag>, first: seq<Tag>, rest: seq<Tag>)
    requires c.Valid() && Elements(first) + Elements(rest) <= c.up + c.down
    requires Distinct(first) && Elements(first) !! tags
    requires forall t :: t in first ==> t in c.deps && c.deps[t] <= tags
    requires Topological(c, tags + Elements(first), rest)
    ensures Elements(first + rest) <= c.up + c.down && Topological(c, tags, first + rest)
  {
    ElementsConcat(first, rest);
    var all := first + rest;
    forall i, j | 0 <= i < j < |all| ensures all[i] != all[j] {
      if i < |first| <= j {
        assert all[i] in Elements(first) && all[j] in Elements(rest);
      }
    }
    forall i | 0 <= i < |all| ensures InKeys(c, all, i) && c.deps[all[i]] <= tags + Elements(all[..i]) {
      if i < |first| {
        assert first[i] in first;
      } else {
        assert InKeys(c, rest, i - |first|);
        assert all[..i] == first + rest[..i - |first|];
        ElementsConcat(first, rest[..i - |first|]);
      }
    }
  }

  lemma UpgradeRunTail(c: Catalog, tags: set<Tag>, todo: set<Tag>, rounds: seq<seq<Tag>>, outcome: Outcome)
    requires c.Valid() && c.down == {}
    requires todo == c.up - tags && IsRun(c, tags, todo, rounds, outcome) && rounds != []
    ensures var ready := Ready(c, todo, tags);
            && OrderOf(rounds[0], ready)
            && todo - ready == c.up - (tags + ready)
            && IsRun(c, tags + ready, todo - ready, rounds[1..], outcome)
  {
    UpgradeRound(c, tags, todo);
    UpdateAllIsOrderFree(c, tags, rounds[0], Ready(c, todo, tags));
  }

  /** An upgrade-only run applies exactly the missing tags it does not report as left over. */
  lemma {:induction false} TraceIsWhatWasApplied(c: Catalog, tags: set<Tag>, todo: set<Tag>, rounds: seq<seq<Tag>>, outcome: Outcome)
    requires c.Valid() && c.down == {}
    requires todo == c.up - tags
    requires IsRun(c, tags, todo, rounds, outcome)
    ensures Left(outcome) <= todo
    ensures Elements(Flatten(rounds)) == todo - Left(outcome)
    decreases |rounds|
  {
    if rounds != [] {
      var ready := Ready(c, todo, tags);
      UpgradeRunTail(c, tags, todo, rounds, outcome);
      TraceIsWhatWasApplied(c, tags + ready, todo - ready, rounds[1..], outcome);
      ElementsConcat(rounds[0], Flatten(rounds[1..]));
    }
  }

  /** Whatever the visiting order, the trace of an upgrade-only run is a topological order. */
  lemma {:induction false} TraceIsTopological(c: Catalog, tags: set<Tag>, todo: set<Tag>, rounds: seq<seq<Tag>>, outcome: Outcome)
    requires c.Valid() && c.down == {}
    requires todo == c.up - tags
    requires IsRun(c, tags, todo, rounds, outcome)
    ensures Elements(Flatten(rounds)) <= c.up + c.down && Topological(c, tags, Flatten(rounds))
    decreases |rounds|
  {
    if rounds != [] {
      var ready := Ready(c, todo, tags);
      UpgradeRunTail(c, tags, todo, rounds, outcome);
      TraceIsTopological(c, tags + ready, todo - ready, rounds[1..], outcome);
      assert forall t :: t in rounds[0] ==> t in Elements(rounds[0]);
      TopologicalConcat(c, tags, rounds[0], Flatten(rounds[1..]));
    }
  }

  // ---------- Upgraders and downgraders together ----------

  /** With no tag in both roles, nothing fails to be removed, the tags end as documented and a second
      run has nothing left to do. */
  lemma {:induction false} MixedRun(c: Catalog, tags: set<Tag>)
    requires c.Valid() && c.up !! c.down
    ensures var o := Resolve(c, tags, c.ToApply(tags));
            && !o.RemoveFailed?
            && (o.Done? ==> o.tags == (tags + c.up) - c.down && c.ToApply(o.tags) == {})
            && (o.Impossible? ==> o.left == c.ToApply(o.tags) && o.left <= c.ToApply(tags))
            && (forall t :: t !in c.ToApply(tags) || t in Left(o) ==> (t in o.tags <==> t in tags))
    decreases c.ToApply(tags)
  {
    var todo := c.ToApply(tags);
    var ready := Ready(c, todo, tags);
    if todo != {} && ready != {} {
      assert todo - ready < todo by { var t :| t in ready; assert t in todo; }
      var next := AfterRound(c, tags, ready);
      assert forall t :: t in ready ==> (c.kind[t].Upgrade? <==> t in c.up);
      assert OfKind(c, ready, Downgrade) <= tags;
      assert c.ToApply(next) == todo - ready;
      MixedRun(c, next);
    }
  }

  /** In any registry: a run that completes never met a downgrader for an absent tag, and with no such
      downgrader to apply no removal fails. */
  lemma {:induction false} RemovalFailsOnlyOnAbsentTag(c: Catalog, tags: set<Tag>, todo: set<Tag>)
    requires c.Valid() && todo <= c.up + c.down
    ensures Resolve(c, tags, todo).Done? ==> OfKind(c, todo, Downgrade) <= tags
    ensures OfKind(c, todo, Downgrade) <= tags ==> !Resolve(c, tags, todo).RemoveFailed?
    decreases todo
  {
    var ready := Ready(c, todo, tags);
    if todo != {} && ready != {} && OfKind(c, ready, Downgrade) <= tags {
      assert todo - ready < todo by { var t :| t in ready; assert t in todo; }
      RemovalFailsOnlyOnAbsentTag(c, AfterRound(c, tags, ready), todo - ready);
      if OfKind(c, todo, Downgrade) <= tags {
        assert OfKind(c, todo - ready, Downgrade) <= AfterRound(c, tags, ready);
      }
      forall t | t in OfKind(c, todo - ready, Downgrade) && t in AfterRound(c, tags, ready) ensures t in tags {
        assert t !in ready;
      }
    }
  }
}
