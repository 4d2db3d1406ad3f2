/** Port assignment of the GPU TLB hierarchy: `config_tlb_hierarchy` (gem5/configs/common/GPUTLBConfig.py:121-310)
    with the widths set in gem5/configs/example/apu_se.py:495-499. Divisions are exact; floating-point
    rounding is not modelled. */
module TlbWiring {
  import opened Wrappers
  import opened Arith

  datatype TlbConfig = PerLane | Mono | PerCU | TwoCU | OtherConfig

  datatype Error = BadOption | ZeroDivision

  /** `translation_port[tlb]` of compute unit `cu` is wired to port `port` of L1 coalescer `coalescer`. */
  datatype Link = Link(cu: nat, tlb: nat, coalescer: int, port: int)

  /** The number of L1 TLBs, lines 126-136. */
  function NumTlbs(config: TlbConfig, n: nat): Result<nat, Error> {
    match config
    case PerLane => Ok(64 * n)
    case Mono => Ok(1)
    case PerCU => Ok(n)
    case TwoCU => Ok(n / 2)
    case OtherConfig => Err(BadOption)
  }

  // ---------- Python's arithmetic on quotients ----------

  /** `%d` of `cu / (n / m)` */
  function SharedCoalescer(cu: nat, n: nat, m: nat): int
    requires n > 0 && m > 0
  {
    (cu as real / (n as real / m as real)).Floor
  }

  /** Python's `%` for a positive divisor. */
  function Modulo(x: real, d: real): real
    requires d > 0.0
  {
    x - d * (x / d).Floor as real
  }

  /** `%d` of `cu % (n / m)` */
  function SharedPort(cu: nat, n: nat, m: nat): int
    requires n > 0 && m > 0
  {
    var ratio := n as real / m as real;
    assert ratio > 0.0;
    Modulo(cu as real, ratio).Floor
  }

  lemma FloorUnique(x: real, k: int)
    requires k as real <= x < k as real + 1.0
    ensures x.Floor == k
  {
  }

  /** The floor of a quotient of integers is integer division. */
  lemma FloorOfQuotient(a: nat, b: nat)
    requires b > 0
    ensures (a as real / b as real).Floor == a / b
  {
    var q, r := a / b, a % b;
    assert a == q * b + r;
    var x := a as real / b as real;
    assert x * b as real == a as real;
    assert a as real == q as real * b as real + r as real;
    assert (x - q as real) * b as real == r as real;
    FractionBelowOne(x - q as real, b as real, r as real);
    FloorUnique(x, q);
  }

  lemma FractionBelowOne(f: real, b: real, r: real)
    requires b > 0.0 && f * b == r && 0.0 <= r < b
    ensures 0.0 <= f < 1.0
  {
  }

  lemma QuotientOfQuotient(a: real, n: real, m: real)
    requires n > 0.0 && m > 0.0
    ensures a / (n / m) == a * m / n
  {
    var d := n / m;
    assert d * m == n && d > 0.0;
    var x := a / d;
    assert x * d == a;
    assert x * n == x * d * m == a * m;
  }

  lemma ModuloOfQuotient(a: real, n: real, m: real, q: real, r: real)
    requires n > 0.0 && m > 0.0 && a * m == q * n + r
    ensures a - n / m * q == r / m
  {
    var d := n / m;
    assert d * m == n;
    assert (a - d * q) * m == a * m - q * (d * m) == r;
  }

  /** In whole numbers: compute unit `cu` shares coalescer `cu * m / n`, and takes its port number from
      what the division leaves. */
  lemma SharedInWholeNumbers(cu: nat, n: nat, m: nat)
    requires n > 0 && m > 0
    ensures SharedCoalescer(cu, n, m) == cu * m / n
    ensures SharedPort(cu, n, m) == cu * m % n / m
  {
    var q, r := cu * m / n, cu * m % n;
    var x, y, z := cu as real, n as real, m as real;
    QuotientOfQuotient(x, y, z);
    assert x * z == (cu * m) as real;
    FloorOfQuotient(cu * m, n);
    assert cu * m == q * n + r;
    assert (q * n + r) as real == q as real * y + r as real;
    ModuloOfQuotient(x, y, z, q as real, r as real);
    FloorOfQuotient(r, m);
  }

  // ---------- The links ----------

  /** The links of one compute unit when there are at least as many TLBs as units. */
  function PrivateLinks(cu: nat, perCu: nat, k: nat): seq<Link> {
    if k == 0 then [] else PrivateLinks(cu, perCu, k - 1) + [Link(cu, k - 1, cu * perCu + (k - 1), 0)]
  }

  function UnitLinks(cu: nat, n: nat, m: nat): seq<Link>
    requires n > 0 && m > 0
  {
    var perCu := m / n;
    if perCu > 0 then PrivateLinks(cu, perCu, perCu) else [Link(cu, 0, cu * m / n, cu * m % n / m)]
  }

  function L1Links(n: nat, m: nat, k: nat): seq<Link>
    requires n > 0 && m > 0
  {
    if k == 0 then [] else L1Links(n, m, k - 1) + UnitLinks(k - 1, n, m)
  }

  /** Lines 236-260 for one compute unit. */
  method WireUnit(cu: nat, n: nat, m: nat) returns (r: Result<seq<Link>, Error>)
    requires n > 0
    ensures r == if m == 0 then Err(ZeroDivision) else Ok(UnitLinks(cu, n, m))
  {
    var perCu := m / n;
    var links: seq<Link> := [];
    if perCu > 0 {
      for tlb := 0 to perCu
        invariant links == PrivateLinks(cu, perCu, tlb)
      {
        links := links + [Link(cu, tlb, cu * perCu + tlb, 0)];
      }
    } else {
      if m == 0 {
        return Err(ZeroDivision);
      }
      SharedInWholeNumbers(cu, n, m);
      links := [Link(cu, perCu, SharedCoalescer(cu, n, m), SharedPort(cu, n, m))];
    }
    return Ok(links);
  }

  /** Lines 126-136 and 233-260. */
  method WireL1(config: TlbConfig, n: nat) returns (r: Result<seq<Link>, Error>)
    ensures config.OtherConfig? ==> r == Err(BadOption)
    ensures !config.OtherConfig? ==>
              var m := NumTlbs(config, n).value;
              r == if n == 0 || m == 0 then Err(ZeroDivision) else Ok(L1Links(n, m, n))
  {
    var count := NumTlbs(config, n);
    if count.Err? {
      return Err(count.error);
    }
    if n == 0 {
      return Err(ZeroDivision);
    }
    var links: seq<Link> := [];
    for cu := 0 to n
      invariant count.value == 0 ==> cu == 0
      invariant count.value > 0 ==> links == L1Links(n, count.value, cu)
    {
      var unit := WireUnit(cu, n, count.value);
      if unit.Err? {
        return Err(unit.error);
      }
      links := links + unit.value;
    }
    return Ok(links);
  }

  /** What a link must look like, in whole numbers. */
  ghost predicate LinkOf(n: nat, m: nat, l: Link)
    requires n > 0 && m > 0
  {
    if m / n > 0 then PrivateLink(m / n, l) else SharedLink(n, m, l)
  }

  ghost predicate PrivateLink(p: nat, l: Link) {
    l.tlb < p && l.coalescer == l.cu * p + l.tlb && l.port == 0
  }

  ghost predicate SharedLink(n: nat, m: nat, l: Link)
    requires n > 0 && m > 0
  {
    l.tlb == 0 && l.coalescer == l.cu * m / n && l.port == l.cu * m % n / m
  }

  lemma {:induction false} PrivateLinksFacts(cu: nat, p: nat, k: nat)
    ensures forall l :: l in PrivateLinks(cu, p, k) <==> l.cu == cu && l.tlb < k && l.coalescer == cu * p + l.tlb && l.port == 0
  {
    if k > 0 {
      var j := k - 1;
      PrivateLinksFacts(cu, p, j);
    }
  }

  lemma UnitLinksFacts(cu: nat, n: nat, m: nat, l: Link)
    requires n > 0 && m > 0
    ensures l in UnitLinks(cu, n, m) <==> LinkOf(n, m, l) && l.cu == cu
  {
    if m / n > 0 {
      PrivateLinksFacts(cu, m / n, m / n);
    } else {
      DivMonotone(0, m, n);
    }
  }

  lemma {:induction false} L1LinksFacts(n: nat, m: nat, k: nat, l: Link)
    requires n > 0 && m > 0
    ensures l in L1Links(n, m, k) <==> LinkOf(n, m, l) && l.cu < k
  {
    if k > 0 {
      var cu := k - 1;
      L1LinksFacts(n, m, cu, l);
      UnitLinksFacts(cu, n, m, l);
    }
  }

  /** With one TLB per lane every unit has 64 coalescers of its own. */
  lemma PerLaneMeans(n: nat, m: nat, l: Link)
    requires n > 0 && m > 0 && l.cu < n && NumTlbs(PerLane, n) == Ok(m)
    ensures l in L1Links(n, m, n) <==> l.tlb < 64 && l.coalescer == l.cu * 64 + l.tlb && l.port == 0
  {
    L1LinksFacts(n, m, n, l);
    PrivateIff(n, m, 64, l);
  }

  /** With one TLB per unit every unit has one coalescer of its own. */
  lemma PerUnitMeans(n: nat, m: nat, l: Link)
    requires n > 0 && m > 0 && l.cu < n && NumTlbs(PerCU, n) == Ok(m)
    ensures l in L1Links(n, m, n) <==> l.tlb == 0 && l.coalescer == l.cu && l.port == 0
  {
    L1LinksFacts(n, m, n, l);
    PrivateIff(n, m, 1, l);
  }

  /** With a single TLB all units share its coalescer, each at its own port. */
  lemma MonoMeans(n: nat, m: nat, l: Link)
    requires n > 0 && m > 0 && l.cu < n && NumTlbs(Mono, n) == Ok(m)
    ensures l in L1Links(n, m, n) <==> l.tlb == 0 && l.coalescer == 0 && l.port == l.cu
  {
    L1LinksFacts(n, m, n, l);
    if n == 1 {
      PrivateIff(n, m, 1, l);
    } else {
      SharedByAll(n, l);
    }
  }

  /** With one TLB for two units, an even number of units share coalescers in pairs. */
  lemma TwoUnitsMean(n: nat, m: nat, l: Link)
    requires n > 0 && m > 0 && l.cu < n && n % 2 == 0 && NumTlbs(TwoCU, n) == Ok(m)
    ensures l in L1Links(n, m, n) <==> l.tlb == 0 && l.coalescer == l.cu / 2 && l.port == l.cu % 2
  {
    L1LinksFacts(n, m, n, l);
    TwoUnitsLink(n, m, l);
  }

  lemma PrivateIff(n: nat, m: nat, p: nat, l: Link)
    requires n > 0 && m > 0 && p > 0 && m == p * n
    ensures LinkOf(n, m, l) <==> PrivateLink(p, l)
  {
    assert (p + 1) * n == m + n;
    DivUnique(m, n, p);
  }

  lemma SharedByAll(n: nat, l: Link)
    requires n > 1 && l.cu < n
    ensures LinkOf(n, 1, l) <==> l.tlb == 0 && l.coalescer == 0 && l.port == l.cu
  {
    var cu := l.cu;
    DivUnique(1, n, 0);
    assert cu * 1 == cu;
    DivUnique(cu, n, 0);
    ModShift(cu, 0, n);
    assert cu / 1 == cu;
  }

  lemma TwoUnitsLink(n: nat, m: nat, l: Link)
    requires m > 0 && n == 2 * m
    ensures LinkOf(n, m, l) <==> l.tlb == 0 && l.coalescer == l.cu / 2 && l.port == l.cu % 2
  {
    var q, r := l.cu / 2, l.cu % 2;
    DivUnique(m, n, 0);
    assert l.cu * m == q * n + r * m by {
      assert l.cu == 2 * q + r;
      assert (2 * q + r) * m == q * (2 * m) + r * m;
    }
    assert r * m == if r == 0 then 0 else m;
    assert (q + 1) * n == q * n + n;
    DivUnique(l.cu * m, n, q);
    ModShift(l.cu * m, q, n);
    assert (r + 1) * m == r * m + m;
    DivUnique(r * m, m, r);
  }

  /** No port of an L1 coalescer is wired twice. */
  lemma NoPortTwice(n: nat, m: nat, l: Link, k: Link)
    requires n > 0 && m > 0 && l in L1Links(n, m, n) && k in L1Links(n, m, n)
    requires l.coalescer == k.coalescer && l.port == k.port
    ensures l == k
  {
    L1LinksFacts(n, m, n, l);
    L1LinksFacts(n, m, n, k);
    if m / n > 0 {
      PrivateDiffer(m / n, l, k);
    } else {
      SharedDiffer(n, m, l.cu, k.cu);
    }
  }

  /** Every link goes to a coalescer that exists. */
  lemma CoalescerExists(n: nat, m: nat, l: Link)
    requires n > 0 && m > 0 && l in L1Links(n, m, n)
    ensures 0 <= l.coalescer < m && l.port >= 0
  {
    L1LinksFacts(n, m, n, l);
    if m / n > 0 {
      DivRange(m, n);
      PrivateInRange(l.cu, l.tlb, m / n, n, m);
    } else {
      SharedInRange(l.cu, n, m);
    }
  }

  /** Every compute unit gets a translation port. */
  lemma EveryUnitWired(n: nat, m: nat, cu: nat)
    requires n > 0 && m > 0 && cu < n
    ensures exists l :: l in L1Links(n, m, n) && l.cu == cu
  {
    var l := if m / n > 0 then Link(cu, 0, cu * (m / n), 0) else Link(cu, 0, cu * m / n, cu * m % n / m);
    L1LinksFacts(n, m, n, l);
  }

  lemma PrivateDiffer(p: nat, l: Link, k: Link)
    requires PrivateLink(p, l) && PrivateLink(p, k) && l.coalescer == k.coalescer
    ensures l == k
  {
    DivUnique(l.coalescer, p, l.cu);
    DivUnique(k.coalescer, p, k.cu);
    assert (l.cu + 1) * p == l.cu * p + p;
    assert (k.cu + 1) * p == k.cu * p + p;
  }

  lemma PrivateInRange(cu: nat, tlb: nat, p: nat, n: nat, m: nat)
    requires p * n <= m && cu < n && tlb < p
    ensures 0 <= cu * p + tlb < m
  {
    MulOrder(cu + 1, n, p);
    assert (cu + 1) * p == cu * p + p;
    MulOrder(0, cu, p);
  }

  lemma SharedInRange(cu: nat, n: nat, m: nat)
    requires m > 0 && cu < n
    ensures 0 <= cu * m / n < m && cu * m % n / m >= 0
  {
    MulOrder(cu, n, m);
    MulOrder(0, cu, m);
    DivBound(cu * m, m, n);
    DivMonotone(0, cu * m, n);
    DivMonotone(0, cu * m % n, m);
  }

  /** Units that share a coalescer are a whole number of `m` apart in what the division leaves. */
  lemma SharedDiffer(n: nat, m: nat, a: nat, b: nat)
    requires n > 0 && m > 0 && a * m / n == b * m / n && a * m % n / m == b * m % n / m
    ensures a == b
  {
    var x, y := a * m, b * m;
    assert x == x / n * n + x % n && y == y / n * n + y % n;
    assert (a - b) * m == x % n - y % n;
    CloseTogether(x % n, y % n, m, a - b);
  }

  lemma CloseTogether(r: int, s: int, m: int, d: int)
    requires m > 0 && r / m == s / m && d * m == r - s
    ensures d == 0
  {
    DivRange(r, m);
    DivRange(s, m);
    var p := r / m;
    assert (p + 1) * m == p * m + m;
    MulOrder(d, 1, m);
    MulOrder(-1, d, m);
  }

  /** Shared coalescers hand out their ports from 0 without a gap, to consecutive units. */
  lemma PortsHaveNoGap(n: nat, m: nat, cu: nat)
    requires 0 < m < n && cu < n && cu * m % n / m > 0
    ensures cu > 0
    ensures (cu - 1) * m / n == cu * m / n && (cu - 1) * m % n / m == cu * m % n / m - 1
  {
    var r := cu * m % n;
    DivBound(r, 1, m);
    assert cu > 0;
    assert (cu - 1) * m == cu * m - m;
    TakeAway(cu * m, n, m);
    OneFewer(r, m);
  }

  lemma TakeAway(x: int, n: int, m: int)
    requires n > 0 && 0 <= m <= x % n
    ensures (x - m) / n == x / n && (x - m) % n == x % n - m
  {
    var q := x / n;
    assert x == q * n + x % n;
    assert (q + 1) * n == q * n + n;
    DivUnique(x - m, n, q);
    ModShift(x - m, q, n);
  }

  lemma OneFewer(r: int, m: int)
    requires m > 0
    ensures (r - m) / m == r / m - 1
  {
    var p := r / m;
    DivRange(r, m);
    assert (p + 1) * m == p * m + m && (p - 1) * m == p * m - m;
    DivUnique(r - m, m, p - 1);
  }

  // ---------- Instruction and scalar TLBs ----------

  /** `%d` of `index / per` and of `index % per`, lines 263-264 and 272-273. */
  function GroupLink(index: nat, per: nat): (int, int)
    requires per > 0
  {
    ((index as real / per as real).Floor, index % per)
  }

  /** `int(math.ceil(float(n) / per))` */
  function CeilDiv(n: nat, per: nat): int
    requires per > 0
  {
    (n + per - 1) / per
  }

  /** Every unit lands on an existing coalescer exactly when there are at least as many as groups. */
  lemma GroupsFitIff(n: nat, per: nat, width: nat)
    requires n > 0 && per > 0
    ensures (forall i: nat :: i < n ==> 0 <= GroupLink(i, per).0 < width) <==> CeilDiv(n, per) <= width
  {
    var last := n - 1;
    FloorOfQuotient(last, per);
    assert (n + per - 1) / per == last / per + 1 by {
      DivRange(last, per);
      assert (last / per + 1 + 1) * per == (last / per + 1) * per + per;
      assert (last / per + 1) * per == last / per * per + per;
      DivUnique(n + per - 1, per, last / per + 1);
    }
    if CeilDiv(n, per) <= width {
      forall i: nat | i < n ensures 0 <= GroupLink(i, per).0 < width {
        FloorOfQuotient(i, per);
        DivMonotone(i, last, per);
        DivMonotone(0, i, per);
      }
    } else {
      assert GroupLink(last, per).0 >= width;
    }
  }

  /** Groups hold `per` units each, the last one maybe fewer: unit `index` is number `index % per` of
      group `index / per`. */
  lemma GroupMeans(index: nat, per: nat)
    requires per > 0
    ensures index == GroupLink(index, per).0 * per + GroupLink(index, per).1
    ensures (CeilDiv(index, per) - 1) * per < index <= CeilDiv(index, per) * per
  {
    FloorOfQuotient(index, per);
    var c := CeilDiv(index, per);
    DivRange(index + per - 1, per);
    assert (c + 1) * per == c * per + per && (c - 1) * per == c * per - per;
  }

  /** No two units share a port, and port numbers stay below the group size. */
  lemma GroupsDiffer(i: nat, j: nat, per: nat)
    requires per > 0
    ensures GroupLink(i, per) == GroupLink(j, per) ==> i == j
    ensures 0 <= GroupLink(i, per).1 < per
  {
    FloorOfQuotient(i, per);
    FloorOfQuotient(j, per);
    assert i == i / per * per + i % per && j == j / per * per + j % per;
  }

  // ---------- From level 1 to level 2 ----------

  /** TLB `index` of the `kind`-th level-1 type goes to this port of the one L2 coalescer. */
  datatype UpLink = UpLink(kind: nat, index: nat, port: nat)

  /** The links of the first `k` TLBs of a type, ports counted from `start`. */
  function TypeUpLinks(kind: nat, start: nat, k: nat): (s: seq<UpLink>)
    ensures |s| == k
  {
    if k == 0 then [] else TypeUpLinks(kind, start, k - 1) + [UpLink(kind, k - 1, start + k - 1)]
  }

  function L2Links(widths: seq<nat>): seq<UpLink> {
    if widths == [] then []
    else
      var before := L2Links(widths[..|widths| - 1]);
      before + TypeUpLinks(|widths| - 1, |before|, widths[|widths| - 1])
  }

  /** Lines 284-293. */
  method WireL2(widths: seq<nat>) returns (links: seq<UpLink>)
    ensures links == L2Links(widths)
  {
    links := [];
    var l2Index := 0;
    for kind := 0 to |widths|
      invariant links == L2Links(widths[..kind]) && l2Index == |links|
    {
      ghost var before := links;
      for index := 0 to widths[kind]
        invariant l2Index == |before| + index && links == before + TypeUpLinks(kind, |before|, index)
      {
        links := links + [UpLink(kind, index, l2Index)];
        l2Index := l2Index + 1;
      }
      assert widths[..kind + 1][..kind] == widths[..kind];
    }
    assert widths[..|widths|] == widths;
  }

  lemma {:induction false} TypeUpLinksFacts(kind: nat, start: nat, k: nat)
    ensures forall i :: 0 <= i < k ==> TypeUpLinks(kind, start, k)[i] == UpLink(kind, i, start + i)
  {
    if k > 0 {
      var j := k - 1;
      TypeUpLinksFacts(kind, start, j);
    }
  }

  /** The ports of the L2 coalescer are used from 0 on, each once. */
  lemma {:induction false} L2UsesEachPortOnce(widths: seq<nat>)
    ensures forall i :: 0 <= i < |L2Links(widths)| ==> L2Links(widths)[i].port == i
  {
    if widths != [] {
      var n := |widths| - 1;
      L2UsesEachPortOnce(widths[..n]);
      TypeUpLinksFacts(n, |L2Links(widths[..n])|, widths[n]);
    }
  }

  /** Each TLB of each level-1 type gets one. */
  lemma {:induction false} EveryTlbHasPort(widths: seq<nat>, kind: nat, index: nat) returns (i: nat)
    requires kind < |widths| && index < widths[kind]
    ensures i < |L2Links(widths)| && L2Links(widths)[i] == UpLink(kind, index, i)
    decreases |widths|
  {
    var n := |widths| - 1;
    var before := L2Links(widths[..n]);
    if kind < n {
      i := EveryTlbHasPort(widths[..n], kind, index);
    } else {
      TypeUpLinksFacts(n, |before|, widths[n]);
      i := |before| + index;
    }
  }
}
