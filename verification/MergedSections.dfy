/** The sections of the merged file, option by option (gem5/util/checkpoint_aggregator.py:67-94). */
module MergedSections {
  import opened Bytes
  import opened Wrappers
  import opened Text
  import opened Aggregator
  import opened CheckpointMerge

  // ---------- Names ----------

  predicate CpuAt(s: string, k: int) {
    0 <= k && k + 3 <= |s| && s[k..k + 3] == "cpu"
  }

  lemma CpuLetters(s: string, k: int)
    ensures CpuAt(s, k) <==> 0 <= k && k + 3 <= |s| && s[k] == 'c' && s[k + 1] == 'p' && s[k + 2] == 'u'
  {
    if 0 <= k && k + 3 <= |s| {
      var t := s[k..k + 3];
      assert t[0] == s[k] && t[1] == s[k + 1] && t[2] == s[k + 2];
      assert t == [t[0], t[1], t[2]];
    }
  }

  lemma CpuInTail(s: string, k: int)
    requires s != [] && k > 0
    ensures CpuAt(s, k) <==> CpuAt(s[1..], k - 1)
  {
    CpuLetters(s, k);
    CpuLetters(s[1..], k - 1);
  }

  lemma {:induction false} HasCpuIff(s: string)
    ensures HasCpu(s) <==> exists k :: CpuAt(s, k)
  {
    if s != [] {
      HasCpuIff(s[1..]);
      CpuLetters(s, 0);
      if k :| CpuAt(s[1..], k) {
        CpuInTail(s, k + 1);
      }
      if k :| CpuAt(s, k) {
        if k > 0 {
          CpuInTail(s, k);
        }
      }
    }
  }

  lemma NoneInTail(s: string, t: string, n: nat)
    requires 0 < n <= |s| && t == s[1..] && forall k :: 0 <= k < n ==> !CpuAt(s, k)
    ensures forall k :: 0 <= k < n - 1 ==> !CpuAt(t, k)
  {
    forall k | 0 <= k < n - 1 ensures !CpuAt(t, k) {
      CpuInTail(s, k + 1);
    }
  }

  /** A name without "cpu" keeps its name. */
  lemma {:induction false} RenameWithoutCpu(s: string, z: string)
    requires !HasCpu(s)
    ensures Rename(s, z) == s
  {
    if s != [] {
      RenameWithoutCpu(s[1..], z);
    }
  }

  /** At the first "cpu" of a name the number is put behind it, and the rest is renamed in turn. */
  lemma {:induction false} RenameAtCpu(a: string, b: string, z: string)
    requires forall k :: 0 <= k < |a| ==> !CpuAt(a + "cpu" + b, k)
    ensures Rename(a + "cpu" + b, z) == a + "cpu" + z + Rename(b, z)
  {
    var s := a + "cpu" + b;
    if a == [] {
      assert s == "cpu" + b && s[3..] == b;
    } else {
      var t := a[1..] + "cpu" + b;
      assert s[1..] == t;
      assert !CpuAt(s, 0);
      CpuLetters(s, 0);
      NoneInTail(s, t, |a|);
      RenameAtCpu(a[1..], b, z);
      var renamed := Rename(t, z);
      assert Rename(s, z) == [s[0]] + renamed;
    }
  }

  lemma {:induction false} RenameKeepsCpu(s: string, z: string)
    requires HasCpu(s)
    ensures HasCpu(Rename(s, z))
  {
    if StartsCpu(s) {
      assert StartsCpu(Rename(s, z));
    } else {
      RenameKeepsCpu(s[1..], z);
      assert Rename(s, z)[1..] == Rename(s[1..], z);
    }
  }

  // ---------- Sections of the last checkpoint ----------

  /** The options are the same, in the same order, with their text unchanged. */
  ghost predicate IsCopy(items: seq<(string, string)>, out: seq<(string, Value)>) {
    |out| == |items| && forall k :: 0 <= k < |items| ==> out[k] == (items[k].0, Raw(items[k].1))
  }

  lemma {:induction false} CopyMeans(items: seq<(string, string)>)
    ensures IsCopy(items, Copy(items))
  {
    if items != [] {
      CopyMeans(items[..|items| - 1]);
    }
  }

  /** The file holds a section of that name with those options. */
  ghost predicate HoldsCopy(sections: seq<OutSection>, sec: Section) {
    exists o :: o in sections && o.name == sec.name && IsCopy(sec.items, o.items)
  }

  /** Every section of the last checkpoint without "cpu" in its name is written as it is. */
  lemma OtherSectionsAreKept(cpts: seq<Checkpoint>, memorySize: int, m: Merged, s: nat, sec: Section)
    requires cpts != [] && AggregateResult(cpts, memorySize) == Ok(m)
    requires s < |cpts[|cpts| - 1].sections| && cpts[|cpts| - 1].sections[s] == sec
    requires !exists k :: CpuAt(sec.name, k)
    ensures HoldsCopy(m.sections, sec)
  {
    var last := |cpts| - 1;
    HasCpuIff(sec.name);
    SectionIsWritten(cpts, last, s, sec, Offset(cpts, last));
    CopyMeans(sec.items);
    var o := OutSection(sec.name, Copy(sec.items));
    assert MergeSection(sec, last, |cpts|, Offset(cpts, last)).value == [o];
    assert o in m.sections;
  }

  lemma {:induction false} ComesFromSection(secs: seq<Section>, i: nat, n: nat, offset: int, o: OutSection) returns (s: nat)
    requires i < n && MergeSections(secs, i, n, offset).Ok? && o in MergeSections(secs, i, n, offset).value
    ensures s < |secs| && MergeSection(secs[s], i, n, offset).Ok? && o in MergeSection(secs[s], i, n, offset).value
  {
    var m := |secs| - 1;
    if o in MergeSection(secs[m], i, n, offset).value {
      s := m;
    } else {
      s := ComesFromSection(secs[..m], i, n, offset, o);
    }
  }

  /** Whatever is written was contributed by some section of some checkpoint. */
  lemma {:induction false} ComesFromCheckpoint(cpts: seq<Checkpoint>, k: nat, o: OutSection) returns (i: nat, s: nat)
    requires k <= |cpts| && AllSections(cpts, k).Ok? && o in AllSections(cpts, k).value
    ensures i < k && s < |cpts[i].sections|
    ensures MergeSection(cpts[i].sections[s], i, |cpts|, Offset(cpts, i)).Ok?
    ensures o in MergeSection(cpts[i].sections[s], i, |cpts|, Offset(cpts, i)).value
  {
    var j := k - 1;
    if o in AllSections(cpts, j).value {
      i, s := ComesFromCheckpoint(cpts, j, o);
    } else {
      i := j;
      s := ComesFromSection(cpts[j].sections, j, |cpts|, Offset(cpts, j), o);
    }
  }

  /** Nothing else without "cpu" in its name is written. */
  lemma NoOtherSections(cpts: seq<Checkpoint>, memorySize: int, m: Merged, o: OutSection) returns (s: nat)
    requires cpts != [] && AggregateResult(cpts, memorySize) == Ok(m) && o in m.sections
    requires !exists k :: CpuAt(o.name, k)
    ensures s < |cpts[|cpts| - 1].sections|
    ensures cpts[|cpts| - 1].sections[s].name == o.name && IsCopy(cpts[|cpts| - 1].sections[s].items, o.items)
  {
    var i;
    i, s := ComesFromCheckpoint(cpts, |cpts|, o);
    var sec := cpts[i].sections[s];
    HasCpuIff(o.name);
    if HasCpu(sec.name) {
      RenameKeepsCpu(sec.name, IndexText(i, |cpts|));
    }
    CopyMeans(sec.items);
  }

  // ---------- Sections of a cpu ----------

  /** `paddr` is a number and moves by the offset; every other option is copied. */
  ghost predicate AreMoved(items: seq<(string, string)>, offset: int, out: seq<(string, Value)>) {
    && |out| == |items|
    && forall k :: 0 <= k < |items| ==> IsMoved(items[k], offset, out[k])
  }

  predicate IsMoved(item: (string, string), offset: int, out: (string, Value)) {
    if item.0 == "paddr" then ParseInt(item.1).Some? && out == ("paddr", Number(ParseInt(item.1).value + offset))
    else out == (item.0, Raw(item.1))
  }

  lemma MovedItems(items: seq<(string, string)>, offset: int)
    requires MoveItems(items, offset).Ok?
    ensures AreMoved(items, offset, MoveItems(items, offset).value)
  {
    var out := MoveItems(items, offset).value;
    if items == [] {
      assert out == [];
    } else {
      ItemsMoved(items, offset, 0);
      forall k | 0 <= k < |items| ensures IsMoved(items[k], offset, out[k]) {
        ItemsMoved(items, offset, k);
        assert out[k] == (out[k].0, out[k].1);
      }
    }
  }

  lemma {:induction false} EndsWithIff(s: string, t: string)
    ensures EndsWith(s, t) <==> |t| <= |s| && s[|s| - |t|..] == t
  {
    if t != [] && s != [] {
      var a, b := s[..|s| - 1], t[..|t| - 1];
      EndsWithIff(a, b);
      assert t == b + [t[|t| - 1]];
      if |t| <= |s| {
        assert s[|s| - |t|..] == a[|a| - |b|..] + [s[|s| - 1]];
      }
    }
  }

  /** The name ends in "workload", one character that is not a line break, and "FdMap256". */
  ghost predicate NamesFdMap(s: string) {
    exists a, c :: c != '\n' && IsFdMapName(s, a, c)
  }

  predicate IsFdMapName(s: string, a: string, c: char) {
    s == a + "workload" + [c] + "FdMap256"
  }

  lemma FdMapIff(s: string)
    ensures IsFdMap(s) <==> NamesFdMap(s)
  {
    EndsWithIff(s, "FdMap256");
    if |s| >= 9 {
      EndsWithIff(s[..|s| - 9], "workload");
    }
    if IsFdMap(s) {
      var front := s[..|s| - 9];
      var a, c := front[..|front| - 8], s[|s| - 9];
      assert front == a + "workload";
      assert s == front + [c] + s[|s| - 8..];
      assert IsFdMapName(s, a, c);
    }
    if NamesFdMap(s) {
      var a, c :| c != '\n' && IsFdMapName(s, a, c);
      assert s[..|s| - 9] == a + "workload" && s[|s| - 8..] == "FdMap256";
    }
  }

  /** The option is set: replaced at its first place, or added at the end. */
  ghost predicate IsSet(items: seq<(string, Value)>, key: string, v: Value, out: seq<(string, Value)>) {
    || (exists k {:trigger items[k]} :: 0 <= k < |items| && items[k].0 == key && NotBefore(items, key, k) && out == items[k := (key, v)])
    || (NotBefore(items, key, |items|) && out == items + [(key, v)])
  }

  ghost predicate NotBefore(items: seq<(string, Value)>, key: string, k: int)
    requires k <= |items|
  {
    forall j :: 0 <= j < k ==> items[j].0 != key
  }

  lemma {:induction false} PutMeans(items: seq<(string, Value)>, key: string, v: Value)
    ensures IsSet(items, key, v, Put(items, key, v))
  {
    if items != [] {
      var rest, out := items[1..], Put(items, key, v);
      if items[0].0 == key {
        assert out == items[0 := (key, v)];
        assert NotBefore(items, key, 0);
      } else {
        PutMeans(rest, key, v);
        PutBehind(items, rest, key, v, out);
      }
    }
  }

  lemma PutBehind(items: seq<(string, Value)>, rest: seq<(string, Value)>, key: string, v: Value, out: seq<(string, Value)>)
    requires items != [] && rest == items[1..] && items[0].0 != key && out == [items[0]] + Put(rest, key, v)
    requires IsSet(rest, key, v, Put(rest, key, v))
    ensures IsSet(items, key, v, out)
  {
    if k :| 0 <= k < |rest| && rest[k].0 == key && NotBefore(rest, key, k) && Put(rest, key, v) == rest[k := (key, v)] {
      var j := k + 1;
      assert items[j] == rest[k];
      assert NotBefore(items, key, j) by {
        assert forall i :: 0 < i < j ==> items[i] == rest[i - 1];
      }
      assert out == items[j := (key, v)];
    } else {
      assert NotBefore(items, key, |items|) by {
        assert forall i :: 0 < i < |items| ==> items[i] == rest[i - 1];
      }
    }
  }

  /** The options written for a cpu section: those of the section, moved, and for the descriptor map of a workload
      also the number of the checkpoint as `M5_pid`. */
  ghost predicate CpuItems(sec: Section, i: nat, offset: int, out: seq<(string, Value)>) {
    exists moved :: AreMoved(sec.items, offset, moved) &&
                    if NamesFdMap(sec.name) then IsSet(moved, "M5_pid", Number(i), out) else out == moved
  }

  lemma CpuSectionMeans(sec: Section, i: nat, n: nat, offset: int)
    requires i < n && HasCpu(sec.name) && MergeSection(sec, i, n, offset).Ok?
    ensures var out := MergeSection(sec, i, n, offset).value;
            |out| == 1 && out[0].name == Rename(sec.name, IndexText(i, n)) && CpuItems(sec, i, offset, out[0].items)
  {
    var moved := MoveItems(sec.items, offset).value;
    MovedItems(sec.items, offset);
    FdMapIff(sec.name);
    PutMeans(moved, "M5_pid", Number(i));
  }

  /** The file holds what a cpu section of checkpoint `i` becomes. */
  ghost predicate HoldsCpu(sections: seq<OutSection>, name: string, sec: Section, i: nat, offset: int) {
    exists o :: o in sections && o.name == name && CpuItems(sec, i, offset, o.items)
  }

  /** Every section with "cpu" in its name, of every checkpoint, is written under its new name. */
  lemma CpuSectionsAreWritten(cpts: seq<Checkpoint>, memorySize: int, m: Merged, i: nat, s: nat, sec: Section)
    requires cpts != [] && AggregateResult(cpts, memorySize) == Ok(m)
    requires i < |cpts| && s < |cpts[i].sections| && cpts[i].sections[s] == sec && exists k :: CpuAt(sec.name, k)
    ensures HoldsCpu(m.sections, Rename(sec.name, IndexText(i, |cpts|)), sec, i, Offset(cpts, i))
  {
    HasCpuIff(sec.name);
    SectionIsWritten(cpts, i, s, sec, Offset(cpts, i));
    CpuSectionMeans(sec, i, |cpts|, Offset(cpts, i));
    var o := MergeSection(sec, i, |cpts|, Offset(cpts, i)).value[0];
    assert o in MergeSection(sec, i, |cpts|, Offset(cpts, i)).value;
  }

  // ---------- When merging fails ----------

  /** A physical address that is no number. */
  ghost predicate BadAddress(items: seq<(string, string)>) {
    exists k :: 0 <= k < |items| && items[k].0 == "paddr" && ParseInt(items[k].1).None?
  }

  lemma {:induction false} MoveFailsIff(items: seq<(string, string)>, offset: int)
    ensures MoveItems(items, offset).Err? <==> BadAddress(items)
  {
    if items != [] {
      var n := |items| - 1;
      var front := items[..n];
      MoveFailsIff(front, offset);
      if BadAddress(front) {
        var k :| 0 <= k < |front| && front[k].0 == "paddr" && ParseInt(front[k].1).None?;
        assert items[k] == front[k];
      }
      if BadAddress(items) {
        var k :| 0 <= k < |items| && items[k].0 == "paddr" && ParseInt(items[k].1).None?;
        assert k < n ==> items[k] == front[k];
      }
    }
  }

  ghost predicate BadSection(secs: seq<Section>, s: nat) {
    s < |secs| && HasCpu(secs[s].name) && BadAddress(secs[s].items)
  }

  lemma BadSectionsGrow(front: seq<Section>, last: Section, secs: seq<Section>)
    requires secs == front + [last]
    ensures (exists s :: BadSection(secs, s)) <==>
            (exists s :: BadSection(front, s)) || (HasCpu(last.name) && BadAddress(last.items))
  {
    if s: nat :| BadSection(front, s) {
      assert BadSection(secs, s);
    }
    if s: nat :| BadSection(secs, s) {
      assert s < |front| ==> BadSection(front, s);
    }
    if HasCpu(last.name) && BadAddress(last.items) {
      assert BadSection(secs, |front|);
    }
  }

  lemma {:induction false} MergeFailsIff(secs: seq<Section>, i: nat, n: nat, offset: int)
    requires i < n
    ensures MergeSections(secs, i, n, offset).Err? <==> exists s :: BadSection(secs, s)
  {
    if secs != [] {
      var m := |secs| - 1;
      var front := secs[..m];
      MergeFailsIff(front, i, n, offset);
      MoveFailsIff(secs[m].items, offset);
      BadSectionsGrow(front, secs[m], secs);
    }
  }

  ghost predicate BadCheckpoint(cpts: seq<Checkpoint>, i: nat, s: nat) {
    i < |cpts| && BadSection(cpts[i].sections, s)
  }

  lemma {:induction false} AllFailIff(cpts: seq<Checkpoint>, k: nat)
    requires k <= |cpts|
    ensures AllSections(cpts, k).Err? <==> exists i: nat, s: nat :: i < k && BadCheckpoint(cpts, i, s)
  {
    if k > 0 {
      var j := k - 1;
      AllFailIff(cpts, j);
      MergeFailsIff(cpts[j].sections, j, |cpts|, Pages(cpts[..j]) * PAGE);
      if s: nat :| BadSection(cpts[j].sections, s) {
        assert BadCheckpoint(cpts, j, s);
      }
    }
  }

  /** Merging fails exactly on a cpu section with a physical address that is no number, or when the last checkpoint
      has no section for the memory to be recorded in. */
  lemma AggregateFailsIff(cpts: seq<Checkpoint>, memorySize: int)
    requires cpts != []
    ensures var last := cpts[|cpts| - 1].sections;
            AggregateResult(cpts, memorySize).Err? <==>
              || (exists i: nat, s: nat :: BadCheckpoint(cpts, i, s))
              || (forall s :: 0 <= s < |last| ==> last[s].name != "system.physmem.store0")
  {
    AllFailIff(cpts, |cpts|);
  }

  /** Padding is made of the character '0', in whole pages of 4096. */
  lemma {:induction false} PaddingMeans(n: nat, k: nat)
    ensures |Padding(n)| == 4096 * n
    ensures k < 4096 * n ==> Padding(n)[k] == 48
  {
    if n > 0 {
      PaddingMeans(n - 1, k);
    }
  }
}
