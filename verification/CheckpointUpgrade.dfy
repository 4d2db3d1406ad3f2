/** Migrating one checkpoint: `process_file` (gem5/util/cpt_upgrader.py:195-279). */
module CheckpointUpgrade {
  import opened Wrappers
  import opened Collections
  import opened UpgradeEngine
  import opened UpgradeRegistry

  /** What the checkpoint says about its version. */
  datatype VersionInfo = Version(number: int) | VersionTags(tags: set<Tag>) | NoVersion

  datatype Status =
    | FatalNoVersion
    | UnknownVersion
    | Aborted(left: set<Tag>)
    | Crashed
    | NothingToDo
    | Completed(written: set<Tag>)

  /** `Upgrader.ready` */
  predicate IsReady(s: Script, tags: set<Tag>) {
    forall d :: d in s.depends ==> d in tags
  }

  lemma ReadyMeansIncluded(s: Script, tags: set<Tag>)
    ensures IsReady(s, tags) <==> Elements(s.depends) <= tags
  {
  }

  class Checkpoint {
    var tags: set<Tag>
    var applied: seq<Tag>   // the migrations run so far, in order

    constructor ()
      ensures tags == {} && applied == []
    {
      tags, applied := {}, [];
    }

    /** `Upgrader.update`; the migration itself only shows as an entry of `applied`. */
    method UpdateTag(reg: Registry, t: Tag) returns (ok: bool)
      requires reg.Valid() && t in reg.byTag
      modifies this
      ensures applied == old(applied) + [t]
      ensures ok <==> Update(reg.View(), old(tags), t).Some?
      ensures tags == if ok then Update(reg.View(), old(tags), t).value else old(tags)
    {
      applied := applied + [t];
      if reg.scripts[reg.byTag[t]].kind.Upgrade? {
        tags := tags + {t};
      } else if t in tags {
        tags := tags - {t};
      } else {
        return false;
      }
      return true;
    }

    /** One round: lines 265-267 over a given visiting order. */
    method UpdateRound(reg: Registry, order: seq<Tag>) returns (ok: bool)
      requires reg.Valid() && forall t :: t in order ==> t in reg.byTag
      modifies this
      ensures ok <==> UpdateAll(reg.View(), old(tags), order).Some?
      ensures applied == old(applied) + Ran(reg.View(), old(tags), order)
      ensures tags == TagsAfter(reg.View(), old(tags), order)
    {
      ghost var c, start := reg.View(), tags;
      for i := 0 to |order|
        invariant applied == old(applied) + order[..i]
        invariant UpdateAll(c, start, order[..i]) == Some(tags)
      {
        RoundStep(c, start, order, i);
        var done := UpdateTag(reg, order[i]);
        if !done {
          return false;
        }
      }
      assert order[..|order|] == order;
      AllRan(c, start, order);
      return true;
    }

    /** Line 259. */
    method ReadyTags(reg: Registry, toApply: set<Tag>) returns (ready: set<Tag>)
      requires reg.Valid() && toApply <= reg.byTag.Keys
      ensures ready == Ready(reg.View(), toApply, tags)
    {
      ghost var c := reg.View();
      ready := set t | t in toApply && IsReady(reg.scripts[reg.byTag[t]], tags);
      forall t | t in toApply ensures c.deps[t] <= tags <==> IsReady(reg.scripts[reg.byTag[t]], tags) {
        ReadyMeansIncluded(reg.scripts[reg.byTag[t]], tags);
      }
    }

    /** Lines 265-267: visit the ready tags in some order. */
    method ApplyRound(reg: Registry, ready: set<Tag>, ghost run: Run) returns (ok: bool, ghost order: seq<Tag>)
      requires reg.Valid() && run.c == reg.View() && run.Valid() && run.Progress(tags, applied)
      requires ready == Ready(run.c, run.toApply, tags) != {}
      modifies this
      ensures ok ==> run.Next(order, ready).Valid() && run.Next(order, ready).Progress(tags, applied)
      ensures !ok ==> run.Next(order, ready).Ended(RemoveFailed, tags, applied)
    {
      var visited := Visit(ready);
      order := visited;
      OrderMembers(order, ready);
      ghost var before := tags;
      ok := UpdateRound(reg, visited);
      if ok {
        RoundDone(run, before, old(applied), order, ready, tags, applied);
      } else {
        RoundFails(run, before, old(applied), order, ready, tags, applied);
      }
    }

    /** The apply loop, lines 257-269, whatever order each ready set is visited in. */
    method Migrate(reg: Registry) returns (outcome: Outcome, ghost rounds: seq<seq<Tag>>)
      requires reg.Valid()
      modifies this
      ensures IsRun(reg.View(), old(tags), reg.View().ToApply(old(tags)), rounds, outcome)
      ensures Known(reg.View(), Flatten(rounds))
      ensures applied == old(applied) + Ran(reg.View(), old(tags), Flatten(rounds))
      ensures tags == TagsAfter(reg.View(), old(tags), Flatten(rounds))
      ensures !outcome.RemoveFailed? ==> tags == outcome.tags && applied == old(applied) + Flatten(rounds)
    {
      var toApply := (reg.tagSet - tags) + (reg.untagSet * tags);
      ghost var run := Run(reg.View(), tags, toApply, applied, [], toApply);
      NothingYet(run);
      while toApply != {}
        invariant toApply == run.toApply && run.From(reg.View(), old(tags), old(applied))
        invariant run.Valid() && run.Progress(tags, applied)
        decreases toApply
      {
        var ready := ReadyTags(reg, toApply);
        if ready == {} {
          outcome, rounds := Impossible(toApply, tags), run.rounds;
          RunEnds(run, tags, applied, outcome);
          return;
        }
        ghost var order;
        var ok;
        ok, order := ApplyRound(reg, ready, run);
        run := run.Next(order, ready);
        if !ok {
          outcome, rounds := RemoveFailed, run.rounds;
          return;
        }
        FewerLeft(toApply, ready);
        toApply := toApply - ready;
      }
      outcome, rounds := Done(tags), run.rounds;
      RunEnds(run, tags, applied, outcome);
    }

    /** `process_file` from the version information on. */
    method ProcessFile(reg: Registry, info: VersionInfo) returns (status: Status)
      requires reg.Valid() && applied == []
      modifies this
      ensures status.FatalNoVersion? <==> info.NoVersion?
      ensures status.UnknownVersion? <==> info.Version? && exists i :: 2 <= i <= info.number && i !in reg.legacy
      ensures info.VersionTags? ==> Verdict(reg.View(), info.tags, false, status)
      ensures info.Version? && !status.UnknownVersion? ==>
                Verdict(reg.View(), set i | 2 <= i <= info.number && i in reg.legacy :: reg.scripts[reg.legacy[i]].tag, true, status)
      ensures status.NothingToDo? <==> info.VersionTags? && reg.tagSet <= info.tags && reg.untagSet !! info.tags
      ensures info.VersionTags? && status.Completed? && reg.tagSet !! reg.untagSet ==>
                status.written == (info.tags + reg.tagSet) - reg.untagSet
      ensures info.Version? && status.Completed? && reg.tagSet !! reg.untagSet ==>
                status.written == ((set i | 2 <= i <= info.number && i in reg.legacy :: reg.scripts[reg.legacy[i]].tag) + reg.tagSet) - reg.untagSet
    {
      match info {
        case NoVersion => return FatalNoVersion;
        case VersionTags(found) => tags := found;
        case Version(number) =>
          var found := reg.LegacyTags(number);
          if found.None? {
            return UnknownVersion;
          }
          tags := found.value;
      }
      ghost var start := tags;
      ghost var todo := reg.View().ToApply(start);
      var outcome, rounds := Migrate(reg);
      OutcomeIsOrderFree(reg.View(), start, todo, rounds, outcome);
      match outcome {
        case RemoveFailed => status := Crashed;
        case Impossible(left, _) => status := Aborted(left);
        case Done(_) =>
          SomethingApplied(reg.View(), start, todo, rounds, outcome);
          if info.Version? || applied != [] {
            status := Completed(tags);
          } else {
            status := NothingToDo;
          }
      }
      VerdictMeans(reg.View(), start, info.Version?, status);
    }
  }

  /** The next migration of a round. */
  lemma RoundStep(c: Catalog, tags: set<Tag>, order: seq<Tag>, i: nat)
    requires c.Valid() && i < |order| && Known(c, order) && UpdateAll(c, tags, order[..i]).Some?
    ensures var now, t := UpdateAll(c, tags, order[..i]).value, order[i];
            && UpdateAll(c, tags, order[..i + 1]) == Update(c, now, t)
            && (Update(c, now, t).None? ==> UpdateAll(c, tags, order).None?
                                            && Ran(c, tags, order) == order[..i] + [t] && TagsAfter(c, tags, order) == now)
  {
    var front, t, back := order[..i], order[i], order[i..];
    RanConcat(c, tags, front, [t]);
    assert order[..i + 1] == front + [t];
    RanConcat(c, tags, front, back);
    assert order == front + back && back[0] == t;
    assert [t][1..] == [];
  }

  /** What the tool answers for a checkpoint that starts with the tags `start`, which were converted from a
      legacy version or found as they are. */
  ghost predicate Verdict(c: Catalog, start: set<Tag>, converted: bool, status: Status)
    requires c.Valid()
  {
    match Resolve(c, start, c.ToApply(start))
    case RemoveFailed => status == Crashed
    case Impossible(left, _) => status == Aborted(left)
    case Done(final) => status == if converted || c.ToApply(start) != {} then Completed(final) else NothingToDo
  }

  /** What that answer means. There is nothing to do exactly when the found tags hold every upgrade and
      nothing to downgrade. With no tag in both roles the tool never crashes and writes the found tags with
      all upgrades added and all downgrades removed. With upgraders only and audited dependencies it aborts
      exactly on a dependency cycle among the missing tags. */
  lemma VerdictMeans(c: Catalog, start: set<Tag>, converted: bool, status: Status)
    requires c.Valid() && Verdict(c, start, converted, status)
    ensures !status.FatalNoVersion? && !status.UnknownVersion?
    ensures status.NothingToDo? <==> !converted && c.up <= start && c.down !! start
    ensures c.up !! c.down ==> !status.Crashed? && (status.Completed? ==> status.written == (start + c.up) - c.down)
    ensures c.down == {} && c.Audited() ==> (status.Aborted? <==> exists p :: IsCycle(c, c.up - start, p))
    ensures status.Aborted? ==> status.left != {} && status.left <= (c.up - start) + (c.down * start)
  {
    NothingToApplyIff(c, start);
    LeftIsToApply(c, start, c.ToApply(start));
    if c.up !! c.down {
      MixedRun(c, start);
    }
    if c.down == {} && c.Audited() {
      AbortIffCycle(c, start);
    }
  }

  lemma NothingToApplyIff(c: Catalog, tags: set<Tag>)
    ensures c.ToApply(tags) == {} <==> c.up <= tags && c.down !! tags
  {
    if c.ToApply(tags) == {} {
      forall t | t in c.up
        ensures t in tags
      {
        assert t !in c.ToApply(tags);
      }
      forall t | t in c.down
        ensures t !in tags
      {
        assert t !in c.ToApply(tags);
      }
    }
  }

  lemma {:induction false} LeftIsToApply(c: Catalog, tags: set<Tag>, todo: set<Tag>)
    requires c.Valid() && todo <= c.up + c.down
    ensures var o := Resolve(c, tags, todo); o.Impossible? ==> o.left != {} && o.left <= todo
    decreases todo
  {
    var ready := Ready(c, todo, tags);
    if todo != {} && ready != {} {
      FewerLeft(todo, ready);
      LeftIsToApply(c, AfterRound(c, tags, ready), todo - ready);
    }
  }

  /** A run in progress: where it started, the rounds so far and what is still to be applied. */
  datatype Run = Run(c: Catalog, start: set<Tag>, todo: set<Tag>, base: seq<Tag>, rounds: seq<seq<Tag>>, toApply: set<Tag>) {
    ghost predicate Valid() {
      c.Valid() && todo <= c.up + c.down && toApply <= c.up + c.down
    }

    ghost predicate From(catalog: Catalog, tags: set<Tag>, applied: seq<Tag>) {
      c == catalog && start == tags && base == applied && todo == c.ToApply(tags)
    }

    ghost function Next(order: seq<Tag>, ready: set<Tag>): Run {
      this.(rounds := rounds + [order], toApply := toApply - ready)
    }

    /** What remains to be run from `tags` and `toApply`, put after `rounds`, is a run from the start. */
    ghost predicate Continues(tags: set<Tag>)
      requires Valid()
    {
      forall more, o :: IsRun(c, tags, toApply, more, o) ==> IsRun(c, start, todo, rounds + more, o)
    }

    /** The rounds so far have run in full, and what remains continues them. */
    ghost predicate Progress(tags: set<Tag>, applied: seq<Tag>)
      requires Valid()
    {
      && Continues(tags)
      && Known(c, Flatten(rounds))
      && UpdateAll(c, start, Flatten(rounds)) == Some(tags)
      && applied == base + Flatten(rounds)
    }

    /** The rounds are a complete run, and `tags` and `applied` are what it leaves. */
    ghost predicate Ended(o: Outcome, tags: set<Tag>, applied: seq<Tag>) {
      && c.Valid() && todo <= c.up + c.down
      && IsRun(c, start, todo, rounds, o)
      && Known(c, Flatten(rounds))
      && applied == base + Ran(c, start, Flatten(rounds))
      && tags == TagsAfter(c, start, Flatten(rounds))
    }
  }

  lemma OrderMembers(order: seq<Tag>, s: set<Tag>)
    requires OrderOf(order, s)
    ensures forall t :: t in order ==> t in s
  {
    forall t | t in order ensures t in s {
      assert t in Elements(order);
    }
  }

  lemma NothingYet(run: Run)
    requires run.Valid() && run.rounds == [] && run.toApply == run.todo
    ensures run.Progress(run.start, run.base)
  {
    forall more, o | IsRun(run.c, run.start, run.todo, more, o) ensures IsRun(run.c, run.start, run.todo, [] + more, o) {
      assert [] + more == more;
    }
    assert run.base + [] == run.base;
  }

  lemma ContinueRound(run: Run, tags: set<Tag>, order: seq<Tag>, ready: set<Tag>, next: set<Tag>)
    requires run.Valid() && run.Continues(tags)
    requires ready == Ready(run.c, run.toApply, tags) != {} && OrderOf(order, ready)
    requires UpdateAll(run.c, tags, order) == Some(next)
    ensures run.Next(order, ready).Valid() && run.Next(order, ready).Continues(next)
  {
    var c, left := run.c, run.toApply - ready;
    forall more, o | IsRun(c, next, left, more, o) ensures IsRun(c, run.start, run.todo, run.rounds + [order] + more, o) {
      assert ([order] + more)[1..] == more;
      assert IsRun(c, tags, run.toApply, [order] + more, o);
      assert run.rounds + [order] + more == run.rounds + ([order] + more);
    }
  }

  lemma RoundDone(run: Run, tags: set<Tag>, applied: seq<Tag>, order: seq<Tag>, ready: set<Tag>, next: set<Tag>, log: seq<Tag>)
    requires run.Valid() && run.Progress(tags, applied)
    requires ready == Ready(run.c, run.toApply, tags) != {} && OrderOf(order, ready) && Known(run.c, order)
    requires UpdateAll(run.c, tags, order).Some? && next == TagsAfter(run.c, tags, order) && log == applied + Ran(run.c, tags, order)
    ensures run.Next(order, ready).Valid() && run.Next(order, ready).Progress(next, log)
  {
    var after, trace := run.Next(order, ready), Flatten(run.rounds);
    TraceDone(run.c, run.start, run.base, trace, tags, order);
    ContinueRound(run, tags, order, ready, next);
    assert Flatten(after.rounds) == trace + order by {
      FlattenAppend(run.rounds, order);
    }
  }

  lemma TraceDone(c: Catalog, start: set<Tag>, base: seq<Tag>, trace: seq<Tag>, tags: set<Tag>, order: seq<Tag>)
    requires c.Valid() && Known(c, trace) && Known(c, order)
    requires UpdateAll(c, start, trace) == Some(tags) && UpdateAll(c, tags, order).Some?
    ensures Known(c, trace + order)
    ensures UpdateAll(c, tags, order) == Some(TagsAfter(c, tags, order)) == UpdateAll(c, start, trace + order)
    ensures base + trace + Ran(c, tags, order) == base + (trace + order)
  {
    AllRan(c, tags, order);
    RanConcat(c, start, trace, order);
  }

  lemma RoundFails(run: Run, tags: set<Tag>, applied: seq<Tag>, order: seq<Tag>, ready: set<Tag>, next: set<Tag>, log: seq<Tag>)
    requires run.Valid() && run.Progress(tags, applied)
    requires ready == Ready(run.c, run.toApply, tags) != {} && OrderOf(order, ready) && Known(run.c, order)
    requires UpdateAll(run.c, tags, order).None? && next == TagsAfter(run.c, tags, order) && log == applied + Ran(run.c, tags, order)
    ensures run.Next(order, ready).Ended(RemoveFailed, next, log)
  {
    var c, trace, ran := run.c, Flatten(run.rounds), Ran(run.c, tags, order);
    assert IsRun(c, tags, run.toApply, [order], RemoveFailed);
    FlattenAppend(run.rounds, order);
    RanConcat(c, run.start, trace, order);
    assert run.base + trace + ran == run.base + (trace + ran);
  }

  lemma RunEnds(run: Run, tags: set<Tag>, applied: seq<Tag>, o: Outcome)
    requires run.Valid() && run.Progress(tags, applied)
    requires if run.toApply == {} then o == Done(tags) else Ready(run.c, run.toApply, tags) == {} && o == Impossible(run.toApply, tags)
    ensures run.Ended(o, tags, applied) && Ran(run.c, run.start, Flatten(run.rounds)) == Flatten(run.rounds)
  {
    assert IsRun(run.c, tags, run.toApply, [], o);
    assert run.rounds + [] == run.rounds;
    AllRan(run.c, run.start, Flatten(run.rounds));
  }

  lemma FewerLeft(toApply: set<Tag>, ready: set<Tag>)
    requires ready != {} && ready <= toApply
    ensures toApply - ready < toApply
  {
    var t :| t in ready;
    assert t in toApply;
  }

  /** A run that completes applies something exactly when there was something to apply. */
  lemma SomethingApplied(c: Catalog, tags: set<Tag>, todo: set<Tag>, rounds: seq<seq<Tag>>, o: Outcome)
    requires c.Valid() && todo <= c.up + c.down && IsRun(c, tags, todo, rounds, o) && o.Done?
    ensures Flatten(rounds) != [] <==> todo != {}
  {
    if todo != {} {
      var t :| t in Ready(c, todo, tags);
      assert t in Elements(rounds[0]);
    }
  }

  /** Linking makes the version before the only listed dependency. */
  lemma ChainLinks(files: seq<Script>, v: int)
    requires Loadable(files) && InChain(Legacy(files), v)
    ensures v in Legacy(files) && v - 1 in Legacy(files)
    ensures Legacy(files)[v] < |files| && Legacy(files)[v - 1] < |files|
    ensures LinkedFiles(files)[Legacy(files)[v]].depends == [files[Legacy(files)[v - 1]].tag]
  {
    var legacy := Legacy(files);
    FilesIndexed(files);
    assert v > 3 ==> InChain(legacy, v - 1);
  }

  lemma LoadedKeys(files: seq<Script>, k: nat)
    requires Loadable(files) && k < |files|
    ensures files[k].tag in ByTag(files) && files[k].tag in Loaded(files).deps
    ensures ByTag(files)[files[k].tag] == k ==> Elements(LinkedFiles(files)[k].depends) <= Loaded(files).deps[files[k].tag]
  {
    FilesIndexed(files);
    assert files[k].tag in TagsOfKind(files, files[k].kind);
  }

  /** A loaded legacy version of the chain depends on the version before it, unless another script has
      taken over its tag. */
  lemma LegacyDependsOnPrevious(files: seq<Script>, v: int)
    requires Loadable(files) && InChain(Legacy(files), v)
    ensures v in Legacy(files) && v - 1 in Legacy(files)
    ensures Legacy(files)[v] < |files| && Legacy(files)[v - 1] < |files|
    ensures var k := Legacy(files)[v];
            files[k].tag in ByTag(files) && (ByTag(files)[files[k].tag] == k ==>
              files[Legacy(files)[v - 1]].tag in Loaded(files).deps[files[k].tag])
  {
    ChainLinks(files, v);
    LoadedKeys(files, Legacy(files)[v]);
  }

  /** Along a chain of dependencies, tags run in chain order: when a link runs, every earlier link was
      present at the start or has run, if the links present at the start are the first ones. */
  lemma {:induction false} ChainInOrder(c: Catalog, tags: set<Tag>, trace: seq<Tag>, chain: seq<Tag>, a: nat, b: nat, j: nat)
    requires c.Valid() && Elements(trace) <= c.up + c.down && Topological(c, tags, trace)
    requires forall i :: 0 <= i < |chain| ==> chain[i] in c.deps
    requires forall i :: 0 < i < |chain| ==> chain[i - 1] in c.deps[chain[i]]
    requires forall i :: 0 < i < |chain| && chain[i] in tags ==> chain[i - 1] in tags
    requires a < b < |chain| && j < |trace| && trace[j] == chain[b]
    ensures chain[a] in tags + Elements(trace[..j])
    decreases b
  {
    assert InKeys(c, trace, j);
    var previous := chain[b - 1];
    assert previous in tags + Elements(trace[..j]);
    if a < b - 1 {
      if previous in tags {
        PresentBelow(tags, chain, a, b - 1);
      } else {
        var i :| 0 <= i < j && trace[..j][i] == previous;
        ChainInOrder(c, tags, trace, chain, a, b - 1, i);
        assert Elements(trace[..i]) <= Elements(trace[..j]);
      }
    }
  }

  lemma {:induction false} PresentBelow(tags: set<Tag>, chain: seq<Tag>, a: nat, b: nat)
    requires forall i :: 0 < i < |chain| && chain[i] in tags ==> chain[i - 1] in tags
    requires a <= b < |chain| && chain[b] in tags
    ensures chain[a] in tags
    decreases b
  {
    if a < b {
      PresentBelow(tags, chain, a, b - 1);
    }
  }
}
