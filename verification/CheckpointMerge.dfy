/** What merging keeps: every address still reads its own byte, and section names stay apart. */
module CheckpointMerge {
  import opened Bytes
  import opened Wrappers
  import opened Text
  import opened Aggregator

  /** The image holds at least the pages the checkpoint states. */
  predicate Full(c: Checkpoint) {
    |c.image| >= c.pages * PAGE
  }

  predicate FullBefore(cpts: seq<Checkpoint>, i: nat)
    requires i <= |cpts|
  {
    forall j :: 0 <= j < i ==> Full(cpts[j])
  }

  /** Where the bytes of checkpoint `i` really start in the merged image. */
  function Start(cpts: seq<Checkpoint>, i: nat): nat
    requires i <= |cpts|
  {
    |Images(cpts[..i])|
  }

  /** Where its physical addresses are moved to. */
  function Offset(cpts: seq<Checkpoint>, i: nat): nat
    requires i <= |cpts|
  {
    Pages(cpts[..i]) * PAGE
  }

  lemma Step(cpts: seq<Checkpoint>, i: nat)
    requires i < |cpts|
    ensures Images(cpts[..i + 1]) == Images(cpts[..i]) + Copied(cpts[i])
    ensures Start(cpts, i + 1) == Start(cpts, i) + |Copied(cpts[i])|
    ensures Offset(cpts, i + 1) == Offset(cpts, i) + cpts[i].pages * PAGE
  {
    assert cpts[..i + 1][..i] == cpts[..i];
  }

  /** The bytes of a checkpoint start where its addresses point exactly when every image before it is full. */
  lemma {:induction false} StartIsOffsetIff(cpts: seq<Checkpoint>, i: nat)
    requires i <= |cpts|
    ensures Start(cpts, i) <= Offset(cpts, i)
    ensures Start(cpts, i) == Offset(cpts, i) <==> FullBefore(cpts, i)
  {
    if i > 0 {
      StartIsOffsetIff(cpts, i - 1);
      Step(cpts, i - 1);
    } else {
      assert cpts[..0] == [];
    }
  }

  lemma {:induction false} ImagesExtend(cpts: seq<Checkpoint>, i: nat, k: nat)
    requires i <= k <= |cpts|
    ensures Images(cpts[..i]) <= Images(cpts[..k])
  {
    if i < k {
      ImagesExtend(cpts, i, k - 1);
      Step(cpts, k - 1);
    }
  }

  /** A copied byte is found in the merged image behind everything copied before. */
  lemma CopiedByte(cpts: seq<Checkpoint>, i: nat, a: nat)
    requires i < |cpts| && a < |Copied(cpts[i])|
    ensures Start(cpts, i) + a < |Images(cpts)|
    ensures Images(cpts)[Start(cpts, i) + a] == cpts[i].image[a]
  {
    Step(cpts, i);
    ImagesExtend(cpts, i + 1, |cpts|);
    assert cpts[..|cpts|] == cpts;
  }

  lemma PaddingLength(n: nat)
    ensures |Padding(n)| == n * PAGE
  {
  }

  /** Relocation is right: when the images before checkpoint `i` are full, every address of it that was
      copied, moved by its offset, reads in the merged image the byte it read before. */
  lemma RelocationReadsSameByte(cpts: seq<Checkpoint>, memorySize: int, i: nat, a: nat)
    requires cpts != [] && AggregateResult(cpts, memorySize).Ok?
    requires i < |cpts| && FullBefore(cpts, i) && a < |Copied(cpts[i])|
    ensures var image := AggregateResult(cpts, memorySize).value.image;
            && a < |cpts[i].image|
            && a + Offset(cpts, i) < |image| && image[a + Offset(cpts, i)] == cpts[i].image[a]
  {
    StartIsOffsetIff(cpts, i);
    CopiedByte(cpts, i, a);
  }

  /** Addresses of different checkpoints never meet after relocation. */
  lemma {:induction false} SegmentsDisjoint(cpts: seq<Checkpoint>, i: nat, j: nat, a: nat, b: nat)
    requires i < j < |cpts| && a < cpts[i].pages * PAGE
    ensures a + Offset(cpts, i) < b + Offset(cpts, j)
    decreases j
  {
    Step(cpts, j - 1);
    if i < j - 1 {
      SegmentsDisjoint(cpts, i, j - 1, a, 0);
    }
  }

  /** The stated range size is the length of the merged image exactly when all images are full, and it
      is the larger of the total pages and the requested size rounded up to whole pages. */
  lemma RangeSizeIsLength(cpts: seq<Checkpoint>, memorySize: int)
    requires cpts != [] && AggregateResult(cpts, memorySize).Ok?
    ensures var m := AggregateResult(cpts, memorySize).value;
            && (|m.image| == m.rangeSize <==> FullBefore(cpts, |cpts|))
            && m.rangeSize == Max(Pages(cpts), RoundUp(memorySize)) * PAGE
            && m.rangeSize >= memorySize
  {
    var m := AggregateResult(cpts, memorySize).value;
    var total := Pages(cpts);
    var pad := PadPages(total, memorySize);
    StartIsOffsetIff(cpts, |cpts|);
    assert cpts[..|cpts|] == cpts;
    PaddingLength(pad);
    RoundUpFacts(memorySize);
    if total * PAGE < memorySize {
      RoundUpShift(memorySize, total);
    }
  }

  /** Whole pages needed to hold `n` bytes. */
  function RoundUp(n: int): int {
    (n + PAGE - 1) / PAGE
  }

  lemma RoundUpFacts(n: int)
    ensures RoundUp(n) * PAGE >= n && (RoundUp(n) - 1) * PAGE < n
  {
  }

  lemma RoundUpShift(n: int, k: int)
    ensures RoundUp(n - k * PAGE) == RoundUp(n) - k
  {
  }

  /** The clock of the merged checkpoint is the latest of all. */
  lemma {:induction false} LatestIsMaximum(cpts: seq<Checkpoint>)
    ensures forall i :: 0 <= i < |cpts| ==> cpts[i].curTick <= LatestTick(cpts)
    ensures cpts != [] ==> exists i :: 0 <= i < |cpts| && cpts[i].curTick == LatestTick(cpts)
  {
    if cpts != [] {
      var n := |cpts| - 1;
      var t := cpts[..n];
      LatestIsMaximum(t);
      forall i | 0 <= i < |cpts| ensures cpts[i].curTick <= LatestTick(cpts) {
        assert i < n ==> t[i] == cpts[i];
      }
      assert LatestTick(cpts) == Max(LatestTick(t), cpts[n].curTick);
      if LatestTick(cpts) == cpts[n].curTick {
        assert 0 <= n < |cpts|;
      } else {
        assert t == [] ==> LatestTick(t) == 0;
        var i :| 0 <= i < |t| && t[i].curTick == LatestTick(t);
        assert cpts[i] == t[i];
      }
    }
  }

  /** The options of a cpu section keep their order; only `paddr` changes, by the offset. */
  lemma {:induction false} ItemsMoved(items: seq<(string, string)>, offset: int, k: nat)
    requires MoveItems(items, offset).Ok? && k < |items|
    ensures var out := MoveItems(items, offset).value;
            && |out| == |items|
            && out[k].0 == items[k].0
            && (items[k].0 == "paddr" ==> ParseInt(items[k].1).Some? && out[k].1 == Number(ParseInt(items[k].1).value + offset))
            && (items[k].0 != "paddr" ==> out[k].1 == Raw(items[k].1))
    decreases |items|
  {
    var n := |items| - 1;
    if n > 0 {
      ItemsMoved(items[..n], offset, if k < n then k else 0);
    }
  }

  // ---------- Section names ----------

  lemma {:induction false} PutKeeps(items: seq<(string, Value)>, key: string, v: Value, k: nat)
    requires k < |items| && items[k].0 != key
    ensures k < |Put(items, key, v)| && Put(items, key, v)[k] == items[k]
    decreases |items|
  {
    if items[0].0 != key && k > 0 {
      var rest, j := items[1..], k - 1;
      assert rest[j] == items[k];
      PutKeeps(rest, key, v, j);
    }
  }

  ghost predicate Included(some: seq<OutSection>, all: seq<OutSection>) {
    forall o :: o in some ==> o in all
  }

  /** Whatever a section contributes is among what all sections contribute. */
  lemma {:induction false} SectionIsMerged(secs: seq<Section>, i: nat, n: nat, offset: int, s: nat)
    requires i < n && s < |secs| && MergeSections(secs, i, n, offset).Ok?
    ensures MergeSection(secs[s], i, n, offset).Ok?
    ensures Included(MergeSection(secs[s], i, n, offset).value, MergeSections(secs, i, n, offset).value)
    decreases |secs|
  {
    var m := |secs| - 1;
    if s < m {
      var before := secs[..m];
      SectionIsMerged(before, i, n, offset, s);
      assert before[s] == secs[s];
    }
  }

  lemma {:induction false} CheckpointIsMerged(cpts: seq<Checkpoint>, k: nat, i: nat)
    requires i < k <= |cpts| && AllSections(cpts, k).Ok?
    ensures MergeSections(cpts[i].sections, i, |cpts|, Offset(cpts, i)).Ok?
    ensures Included(MergeSections(cpts[i].sections, i, |cpts|, Offset(cpts, i)).value, AllSections(cpts, k).value)
  {
    var j := k - 1;
    if i < j {
      CheckpointIsMerged(cpts, j, i);
    }
  }

  /** Option `k` of the section called `name` is the physical address `b`. */
  ghost predicate HoldsPaddr(sections: seq<OutSection>, name: string, k: nat, b: int) {
    exists o :: o in sections && o.name == name && k < |o.items| && o.items[k] == ("paddr", Number(b))
  }

  lemma PaddrIsMoved(sec: Section, i: nat, n: nat, offset: int, k: nat)
    requires i < n && HasCpu(sec.name) && MergeSection(sec, i, n, offset).Ok?
    requires k < |sec.items| && sec.items[k].0 == "paddr"
    ensures ParseInt(sec.items[k].1).Some?
    ensures HoldsPaddr(MergeSection(sec, i, n, offset).value, Rename(sec.name, IndexText(i, n)), k,
                       ParseInt(sec.items[k].1).value + offset)
  {
    var items := MoveItems(sec.items, offset).value;
    ItemsMoved(sec.items, offset, k);
    var o := MergeSection(sec, i, n, offset).value[0];
    assert o in MergeSection(sec, i, n, offset).value;
    if IsFdMap(sec.name) {
      PutKeeps(items, "M5_pid", Number(i), k);
    }
    assert items[k] == (items[k].0, items[k].1);
  }

  /** What a section contributes, with the offset of its checkpoint, is in the merged file. */
  lemma SectionIsWritten(cpts: seq<Checkpoint>, i: nat, s: nat, sec: Section, offset: int)
    requires AllSections(cpts, |cpts|).Ok? && i < |cpts| && s < |cpts[i].sections|
    requires sec == cpts[i].sections[s] && offset == Offset(cpts, i)
    ensures MergeSection(sec, i, |cpts|, offset).Ok?
    ensures Included(MergeSection(sec, i, |cpts|, offset).value, AllSections(cpts, |cpts|).value)
  {
    CheckpointIsMerged(cpts, |cpts|, i);
    SectionIsMerged(cpts[i].sections, i, |cpts|, offset, s);
  }

  /** The address `b` reads in the merged image what `a` read in the old one. */
  ghost predicate ReadsSame(image: seq<byte>, merged: seq<byte>, a: nat, b: nat) {
    a < |image| && b < |merged| && merged[b] == image[a]
  }

  lemma PaddrIsWritten(cpts: seq<Checkpoint>, i: nat, s: nat, sec: Section, name: string, k: nat, b: int)
    requires AllSections(cpts, |cpts|).Ok? && i < |cpts| && s < |cpts[i].sections| && cpts[i].sections[s] == sec
    requires MergeSection(sec, i, |cpts|, Offset(cpts, i)).Ok?
    requires HoldsPaddr(MergeSection(sec, i, |cpts|, Offset(cpts, i)).value, name, k, b)
    ensures HoldsPaddr(AllSections(cpts, |cpts|).value, name, k, b)
  {
    SectionIsWritten(cpts, i, s, sec, Offset(cpts, i));
  }

  /** From file to file: a physical address in a cpu section, if its byte was copied and the images before
      are full, is written under the new section name, in its place, as an address at which the merged image holds
      the byte the old image held. */
  lemma PaddrFollowsItsByte(cpts: seq<Checkpoint>, memorySize: int, m: Merged, i: nat, s: nat, sec: Section, k: nat, a: nat, b: nat)
    requires cpts != [] && AggregateResult(cpts, memorySize) == Ok(m)
    requires i < |cpts| && FullBefore(cpts, i) && s < |cpts[i].sections| && cpts[i].sections[s] == sec
    requires HasCpu(sec.name) && k < |sec.items| && sec.items[k].0 == "paddr"
    requires ParseInt(sec.items[k].1) == Some(a) && a < |Copied(cpts[i])| && b == a + Offset(cpts, i)
    ensures HoldsPaddr(m.sections, Rename(sec.name, IndexText(i, |cpts|)), k, b)
    ensures ReadsSame(cpts[i].image, m.image, a, b)
  {
    RelocationReadsSameByte(cpts, memorySize, i, a);
    PaddrOfSection(cpts, i, s, sec, k, a, b);
  }

  lemma PaddrOfSection(cpts: seq<Checkpoint>, i: nat, s: nat, sec: Section, k: nat, a: nat, b: nat)
    requires AllSections(cpts, |cpts|).Ok? && i < |cpts| && s < |cpts[i].sections| && cpts[i].sections[s] == sec
    requires HasCpu(sec.name) && k < |sec.items| && sec.items[k].0 == "paddr"
    requires ParseInt(sec.items[k].1) == Some(a) && b == a + Offset(cpts, i)
    ensures HoldsPaddr(AllSections(cpts, |cpts|).value, Rename(sec.name, IndexText(i, |cpts|)), k, b)
  {
    var n, offset := |cpts|, Offset(cpts, i);
    var name := Rename(sec.name, IndexText(i, n));
    SectionIsWritten(cpts, i, s, sec, offset);
    PaddrIsMoved(sec, i, n, offset, k);
    PaddrIsWritten(cpts, i, s, sec, name, k, b);
  }

  /** Renaming does not make or break a "cpu" at the front. */
  lemma RenameStart(s: string, z: string)
    ensures StartsCpu(Rename(s, z)) <==> StartsCpu(s)
  {
    if s != [] && !StartsCpu(s) {
      var r := Rename(s, z);
      var t := s[1..];
      assert r == [s[0]] + Rename(t, z);
      if t != [] {
        assert Rename(t, z)[0] == t[0];
        if !StartsCpu(t) {
          var u := t[1..];
          assert Rename(t, z) == [t[0]] + Rename(u, z);
          assert u != [] ==> Rename(u, z)[0] == u[0];
          assert u == [] ==> Rename(u, z) == [];
        }
      }
    }
  }

  /** Names stay apart: with numbers of equal length, two renamed names agree only if the names agree
      and, when they contain "cpu", the numbers do too. */
  lemma {:induction false} RenameInjective(s: string, t: string, y: string, z: string)
    requires |y| == |z| && Rename(s, y) == Rename(t, z)
    ensures s == t && (HasCpu(s) ==> y == z)
    decreases |s|
  {
    RenameStart(s, y);
    RenameStart(t, z);
    if s != [] && t != [] {
      if StartsCpu(s) {
        var r, q := Rename(s, y), Rename(t, z);
        assert r == "cpu" + y + Rename(s[3..], y) && q == "cpu" + z + Rename(t[3..], z);
        assert r[3..3 + |y|] == y && q[3..3 + |z|] == z;
        assert r[3 + |y|..] == Rename(s[3..], y) && q[3 + |z|..] == Rename(t[3..], z);
        RenameInjective(s[3..], t[3..], y, z);
        assert s == s[..3] + s[3..] && t == t[..3] + t[3..];
        assert s[..3] == ['c', 'p', 'u'] == t[..3];
      } else {
        var r, q := Rename(s, y), Rename(t, z);
        assert r[1..] == Rename(s[1..], y) && q[1..] == Rename(t[1..], z);
        RenameInjective(s[1..], t[1..], y, z);
        assert s == [s[0]] + s[1..] && t == [t[0]] + t[1..];
      }
    }
  }

  lemma {:induction false} ZerosFacts(k: int, s: string)
    requires AllDigits(s) && s != []
    ensures |Zeros(k)| == (if k <= 0 then 0 else k) && AllDigits(Zeros(k) + s)
    ensures ParseDigits(Zeros(k) + s) == ParseDigits(s)
  {
    if k > 0 {
      var j := k - 1;
      ZerosFacts(j, s);
      var t := Zeros(j) + s;
      LeadingZero(t);
      assert Zeros(k) + s == "0" + t;
    } else {
      assert Zeros(k) + s == s;
    }
  }

  lemma {:induction false} LeadingZero(s: string)
    requires AllDigits(s) && s != []
    ensures ParseDigits("0" + s) == ParseDigits(s)
    decreases |s|
  {
    var t := "0" + s;
    if |s| == 1 {
      assert t[..1] == "0" && t[0] == '0';
      assert ParseDigits("0") == Some(0);
    } else {
      var front := s[..|s| - 1];
      LeadingZero(front);
      assert t[..|t| - 1] == "0" + front;
      assert IsDigit(s[|s| - 2]) && t[|t| - 2] == s[|s| - 2];
    }
  }

  lemma {:induction false} DecimalLengthMonotone(a: nat, b: nat)
    requires a <= b
    ensures |Decimal(a)| <= |Decimal(b)|
    decreases b
  {
    if a >= 10 {
      DecimalLengthMonotone(a / 10, b / 10);
    }
  }

  lemma ZeroFilled(k: nat, s: string, i: nat)
    requires AllDigits(s) && s != [] && ParseDigits(s) == Some(i)
    ensures |Zeros(k) + s| == k + |s| && AllDigits(Zeros(k) + s) && ParseDigits(Zeros(k) + s) == Some(i)
  {
    ZerosFacts(k, s);
  }

  /** Checkpoint numbers all have the same length and differ from each other. */
  lemma IndexTextFacts(i: nat, n: nat)
    requires i < n
    ensures |IndexText(i, n)| == |Decimal(n - 1)| && AllDigits(IndexText(i, n)) && ParseDigits(IndexText(i, n)) == Some(i)
  {
    var last := n - 1;
    DecimalLengthMonotone(i, last);
    DecimalFacts(i);
    ZeroFilled(|Decimal(last)| - |Decimal(i)|, Decimal(i), i);
  }

  /** No two cpu sections of the merged file share a name unless they are the same section of the same checkpoint. */
  lemma CpuSectionsStayApart(s: string, t: string, i: nat, j: nat, n: nat)
    requires i < n && j < n && HasCpu(s) && HasCpu(t)
    requires Rename(s, IndexText(i, n)) == Rename(t, IndexText(j, n))
    ensures s == t && i == j
  {
    IndexTextFacts(i, n);
    IndexTextFacts(j, n);
    RenameInjective(s, t, IndexText(i, n), IndexText(j, n));
  }
}
