/** The cache and tester tree of the memory stress test (gem5/configs/example/memtest.py:149-351). */
module CacheTree {
  import opened Text

  const BLOCK_SIZE: nat := 64

  // ---------- How many testers there should be ----------

  /** Testers below one crossbar: its own, and a subtree for each of its caches. */
  function Testers(caches: seq<int>, testers: seq<int>): int
    requires |testers| == |caches| + 1
  {
    if caches == [] then testers[0] else testers[0] + caches[0] * Testers(caches[1..], testers[1..])
  }

  function Product(s: seq<int>): int {
    if s == [] then 1 else s[0] * Product(s[1..])
  }

  /** The sum that `numtesters` forms: testers per subsystem times the number of subsystems, level by level. */
  function WeightedSum(caches: seq<int>, testers: seq<int>, k: nat): int
    requires k <= |testers| && |testers| == |caches| + 1
  {
    if k == 0 then 0 else WeightedSum(caches, testers, k - 1) + testers[k - 1] * Product(caches[..k - 1])
  }

  lemma {:induction false} ProductAppend(s: seq<int>, x: int)
    ensures Product(s + [x]) == Product(s) * x
  {
    if s == [] {
      assert s + [x] == [x] && [x][1..] == [];
    } else {
      assert (s + [x])[1..] == s[1..] + [x];
      ProductAppend(s[1..], x);
    }
  }

  /** The sum over levels, seen from the first level. */
  lemma {:induction false} SumFromFirst(caches: seq<int>, testers: seq<int>, k: nat)
    requires 1 <= k <= |testers| && |testers| == |caches| + 1 && caches != []
    ensures WeightedSum(caches, testers, k) == testers[0] + caches[0] * WeightedSum(caches[1..], testers[1..], k - 1)
  {
    var rest, more := caches[1..], testers[1..];
    if k == 1 {
      assert caches[..0] == [];
      assert WeightedSum(caches, testers, 1) == WeightedSum(caches, testers, 0) + testers[0] * 1;
    } else {
      var j := k - 1;
      SumFromFirst(caches, testers, j);
      assert caches[..j][1..] == rest[..j - 1];
      var a, b, c := testers[j], caches[0], Product(rest[..j - 1]);
      assert Product(caches[..j]) == b * c;
      assert a * (b * c) == b * (a * c);
      assert WeightedSum(rest, more, j) == WeightedSum(rest, more, j - 1) + a * c;
    }
  }

  /** The closed form counts the tree. */
  lemma {:induction false} SumCountsTree(caches: seq<int>, testers: seq<int>)
    requires |testers| == |caches| + 1
    ensures WeightedSum(caches, testers, |testers|) == Testers(caches, testers)
  {
    if caches == [] {
      assert caches[..0] == [];
      assert WeightedSum(caches, testers, 1) == WeightedSum(caches, testers, 0) + testers[0] * 1;
    } else {
      SumFromFirst(caches, testers, |testers|);
      SumCountsTree(caches[1..], testers[1..]);
    }
  }

  /** `numtesters` */
  method NumTesters(caches: seq<int>, testers: seq<int>) returns (total: int)
    requires |testers| == |caches| + 1
    ensures total == Testers(caches, testers)
  {
    var multiplier := [1];
    for k := 0 to |caches|
      invariant |multiplier| == k + 1
      invariant forall j :: 0 <= j <= k ==> multiplier[j] == Product(caches[..j])
    {
      assert caches[..k + 1] == caches[..k] + [caches[k]];
      ProductAppend(caches[..k], caches[k]);
      multiplier := multiplier + [multiplier[|multiplier| - 1] * caches[k]];
    }
    total := 0;
    for k := 0 to |testers|
      invariant total == WeightedSum(caches, testers, k)
    {
      total := total + testers[k] * multiplier[k];
    }
    SumCountsTree(caches, testers);
  }

  /** The checks of lines 191-217. */
  predicate Accepted(caches: seq<int>, testers: seq<int>) {
    && |caches| >= 1 && |testers| == |caches| + 1
    && testers[|testers| - 1] != 0
    && (forall k :: 0 <= k < |testers| ==> testers[k] >= 0)
    && (forall k :: 0 <= k < |caches| ==> caches[k] >= 1)
    && Testers(caches, testers) <= BLOCK_SIZE
  }

  // ---------- Building the tree ----------

  /** The parameters of a cache that the script sets. */
  datatype Prototype = Prototype(size: int, assoc: int, mshrs: int, tagLatency: int, dataLatency: int, responseLatency: int,
                                 mostlyInclusive: bool, writebackClean: bool)

  const KIB: int := 1024

  /** Lines 220-234. */
  function ProtoL1(blocking: bool): Prototype {
    Prototype(32 * KIB, 4, if blocking then 1 else 4, 1, 1, 1, true, true)
  }

  function Power10(k: nat): int {
    if k == 0 then 1 else 10 * Power10(k - 1)
  }

  /** The prototype `k` levels away from the level-one cache, in closed form. */
  function ProtoAt(caches: seq<int>, blocking: bool, k: nat): Prototype
    requires k <= |caches|
  {
    var scale, l1 := Product(caches[..k]), ProtoL1(blocking);
    Prototype(l1.size * scale, l1.assoc * scale, l1.mshrs * scale, Power10(k), Power10(k), Power10(k), k % 2 == 0, k % 2 == 0)
  }

  /** Lines 242-258: clone the previous prototype and scale it. */
  function Scaled(prev: Prototype, scale: int): Prototype {
    Prototype(prev.size * scale, prev.assoc * scale, prev.mshrs * scale,
              prev.tagLatency * 10, prev.dataLatency * 10, prev.responseLatency * 10,
              !prev.mostlyInclusive, !prev.writebackClean)
  }

  lemma NextPrototype(caches: seq<int>, blocking: bool, k: nat)
    requires k < |caches|
    ensures Scaled(ProtoAt(caches, blocking, k), caches[k]) == ProtoAt(caches, blocking, k + 1)
  {
    assert caches[..k + 1] == caches[..k] + [caches[k]];
    ProductAppend(caches[..k], caches[k]);
    var scale, c := Product(caches[..k]), caches[k];
    var l1 := ProtoL1(blocking);
    assert l1.size * scale * c == l1.size * (scale * c);
    assert l1.assoc * scale * c == l1.assoc * (scale * c);
    assert l1.mshrs * scale * c == l1.mshrs * (scale * c);
  }

  /** Lines 236-260: one prototype per level, the one next to memory first. */
  method MakePrototypes(caches: seq<int>, blocking: bool) returns (protos: seq<Prototype>)
    requires |caches| >= 1
    ensures |protos| == |caches|
    ensures forall i :: 0 <= i < |protos| ==> protos[i] == ProtoAt(caches, blocking, |caches| - 1 - i)
    ensures protos[|protos| - 1] == Prototype(32 * 1024, 4, if blocking then 1 else 4, 1, 1, 1, true, true)
    ensures forall i :: 0 < i < |protos| ==>
              var k := |caches| - 1 - i;
              && protos[i - 1].size == protos[i].size * caches[k]
              && protos[i - 1].assoc == protos[i].assoc * caches[k]
              && protos[i - 1].mshrs == protos[i].mshrs * caches[k]
              && protos[i - 1].tagLatency == protos[i].tagLatency * 10
              && protos[i - 1].dataLatency == protos[i].dataLatency * 10
              && protos[i - 1].responseLatency == protos[i].responseLatency * 10
              && protos[i - 1].mostlyInclusive == !protos[i].mostlyInclusive
              && protos[i - 1].writebackClean == !protos[i].writebackClean
  {
    protos := [ProtoL1(blocking)];
    assert caches[..0] == [];
    for n := 0 to |caches| - 1
      invariant |protos| == n + 1
      invariant forall i :: 0 <= i <= n ==> protos[i] == ProtoAt(caches, blocking, n - i)
    {
      var next := Scaled(protos[0], caches[n]);
      NextPrototype(caches, blocking, n);
      ghost var before := protos;
      protos := [next] + protos;
      assert forall i :: 1 <= i <= n + 1 ==> protos[i] == before[i - 1];
    }
    forall i | 0 < i < |protos|
      ensures protos[i - 1] == Scaled(protos[i], caches[|caches| - 1 - i])
    {
      NextPrototype(caches, blocking, |caches| - 1 - i);
    }
  }

  datatype Name = Name(level: nat, index: int)

  /** The attribute name of a subsystem. */
  function NameText(n: Name): string {
    "l" + Format(n.level) + "subsys" + Format(n.index)
  }

  /** How many subsystems a subtree over `caches` has at level `l`. */
  function SubsystemsAt(caches: seq<int>, l: nat): int {
    if l <= |caches| then Product(caches[..|caches| - l]) else 0
  }

  /** The counters have moved by `times` subtrees over `caches`. */
  ghost predicate Moved(before: seq<int>, after: seq<int>, caches: seq<int>, times: int) {
    |after| == |before| && forall l :: 0 <= l < |before| ==> after[l] == before[l] + times * SubsystemsAt(caches, l)
  }

  /** One crossbar and a subtree per cache make a subtree. */
  lemma MovedSubtree(before: seq<int>, after: seq<int>, caches: seq<int>)
    requires caches != [] && |caches| < |before|
    requires Moved(before[|caches| := before[|caches|] + 1], after, caches[1..], caches[0])
    ensures Moved(before, after, caches, 1)
  {
    var level, rest := |caches|, caches[1..];
    forall l | 0 <= l < |before| ensures after[l] == before[l] + 1 * SubsystemsAt(caches, l) {
      if l == level {
        assert caches[..0] == [];
        assert caches[0] * SubsystemsAt(rest, l) == 0;
      } else if l < level {
        assert caches[..level - l][1..] == rest[..level - 1 - l];
      } else {
        assert caches[0] * SubsystemsAt(rest, l) == 0;
      }
    }
  }

  lemma MovedOnce(before: seq<int>, middle: seq<int>, after: seq<int>, caches: seq<int>, times: int)
    requires Moved(before, middle, caches, times) && Moved(middle, after, caches, 1)
    ensures Moved(before, after, caches, times + 1)
  {
    forall l | 0 <= l < |before| ensures after[l] == before[l] + (times + 1) * SubsystemsAt(caches, l) {
      var n := SubsystemsAt(caches, l);
      assert (times + 1) * n == times * n + 1 * n;
    }
  }

  class Builder {
    const depth: nat
    const testers: seq<int>
    var nextIndex: seq<int>
    var names: seq<Name>
    var created: int

    /** Exactly the names handed out so far are in use, each once. */
    ghost predicate Valid()
      reads this
    {
      && |testers| == depth + 1 && testers[depth] > 0
      && |nextIndex| == depth + 1
      && (forall l :: 0 <= l <= depth ==> nextIndex[l] >= 0)
      && (forall i, j :: 0 <= i < j < |names| ==> names[i] != names[j])
      && (forall n: Name :: n in names <==> n.level <= depth && 0 <= n.index < nextIndex[n.level])
    }

    constructor (spec: seq<int>)
      requires |spec| >= 1 && spec[|spec| - 1] > 0
      ensures Valid() && depth == |spec| - 1 && testers == spec
      ensures created == 0 && names == [] && nextIndex == seq(|spec|, i => 0)
    {
      depth, testers := |spec| - 1, spec;
      nextIndex, names, created := seq(|spec|, i => 0), [], 0;
    }

    /** Lines 288-294: take the next index of the level and register the subsystem under it. */
    method NewSubsystem(level: nat)
      requires Valid() && level <= depth
      modifies this`nextIndex, this`names
      ensures Valid()
      ensures names == old(names) + [Name(level, old(nextIndex)[level])]
      ensures nextIndex == old(nextIndex)[level := old(nextIndex)[level] + 1]
    {
      var index := nextIndex[level];
      nextIndex := nextIndex[level := index + 1];
      names := names + [Name(level, index)];
    }

    /** `make_cache_level`: `prototypes` is the length of the prototype list handed down, `hasNext`
        says whether there is a cache below. */
    method MakeCacheLevel(caches: seq<int>, prototypes: int, level: nat, hasNext: bool)
      requires Valid() && |caches| == level == prototypes && level <= depth && (level == 0 ==> hasNext)
      requires forall k :: 0 <= k < |caches| ==> caches[k] >= 1
      modifies this`nextIndex, this`names, this`created
      ensures Valid()
      ensures created == old(created) + Testers(caches, testers[depth - level..])
      ensures Moved(old(nextIndex), nextIndex, caches, 1)
      decreases level
    {
      NewSubsystem(level);
      var ntesters := testers[depth - level];
      created := created + ntesters;
      if level != 0 {
        assert 0 < prototypes;
        ghost var middle, so := nextIndex, created;
        ghost var below := Testers(caches[1..], testers[depth - level + 1..]);
        var k := 0;
        while k < caches[0]
          invariant 0 <= k <= caches[0] && Valid()
          invariant created == so + k * below
          invariant Moved(middle, nextIndex, caches[1..], k)
        {
          ghost var now := nextIndex;
          MakeCacheLevel(caches[1..], prototypes - 1, level - 1, true);
          assert (k + 1) * below == k * below + below;
          MovedOnce(middle, now, nextIndex, caches[1..], k);
          k := k + 1;
        }
        MovedSubtree(old(nextIndex), nextIndex, caches);
        assert testers[depth - level..][1..] == testers[depth - level + 1..];
      } else {
        assert 0 < ntesters;
        assert caches[..0] == [];
      }
    }
  }

  /** The script from the accepted specification to the finished tree. */
  method BuildTree(caches: seq<int>, testers: seq<int>, blocking: bool) returns (b: Builder)
    requires Accepted(caches, testers)
    ensures b.Valid() && b.depth == |caches|
    ensures b.created == Testers(caches, testers) <= BLOCK_SIZE
    ensures forall k :: 0 <= k <= |caches| ==> b.nextIndex[|caches| - k] == Product(caches[..k])
    ensures |b.names| > 0 && forall n: Name :: n in b.names <==> n.level <= |caches| && 0 <= n.index < b.nextIndex[n.level]
  {
    var protos := MakePrototypes(caches, blocking);
    b := new Builder(testers);
    ghost var zero := b.nextIndex;
    b.MakeCacheLevel(caches, |protos|, |caches|, false);
    assert testers[0..] == testers;
    forall k | 0 <= k <= |caches| ensures b.nextIndex[|caches| - k] == Product(caches[..k]) {
      assert b.nextIndex[|caches| - k] == zero[|caches| - k] + 1 * SubsystemsAt(caches, |caches| - k);
    }
    assert caches[..0] == [];
    assert Name(|caches|, 0) in b.names;
  }

  /** Different subsystems get different attribute names. */
  lemma NamesDiffer(a: Name, b: Name)
    requires NameText(a) == NameText(b)
    ensures a == b
  {
    NameSplits(a);
    NameSplits(b);
    FormatFacts(a.level);
    FormatFacts(a.index);
    FormatFacts(b.level);
    FormatFacts(b.index);
    assert ("l" + Format(a.level))[1..] == Format(a.level) && ("l" + Format(b.level))[1..] == Format(b.level);
  }

  lemma NameSplits(n: Name)
    ensures Split(NameText(n), 's') == ["l" + Format(n.level), "ub", "y", Format(n.index)]
  {
    var a, d := "l" + Format(n.level), Format(n.index);
    FreeOfS(n.level);
    FreeOfS(n.index);
    FourParts(a, "ub", "y", d, 's');
    assert NameText(n) == a + ['s'] + ("ub" + ['s'] + ("y" + ['s'] + d));
  }

  lemma FourParts(a: string, b: string, c: string, d: string, sep: char)
    requires Free(a, sep) && Free(b, sep) && Free(c, sep) && Free(d, sep)
    ensures Split(a + [sep] + (b + [sep] + (c + [sep] + d)), sep) == [a, b, c, d]
  {
    var two := c + [sep] + d;
    var three := b + [sep] + two;
    SplitPart(d, "", sep);
    SplitPart(c, d, sep);
    SplitPart(b, two, sep);
    SplitPart(a, three, sep);
  }

  lemma FreeOfS(i: int)
    ensures Free(Format(i), 's')
  {
    var n := if i < 0 then -i else i;
    DecimalFacts(n);
    DigitsAreClean(Decimal(n), 's');
  }
}
