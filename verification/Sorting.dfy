/** Python's stable sort, over any total preorder. */
module Sorting {

  ghost predicate TotalPreorder<T(!new)>(le: (T, T) -> bool) {
    && (forall x, y :: le(x, y) || le(y, x))
    && (forall x, y, z :: le(x, y) && le(y, z) ==> le(x, z))
  }

  ghost predicate Sorted<T>(le: (T, T) -> bool, s: seq<T>) {
    forall i, j :: 0 <= i < j < |s| ==> le(s[i], s[j])
  }

  /** Put `x` behind everything that is not greater. */
  function Insert<T>(le: (T, T) -> bool, s: seq<T>, x: T): (r: seq<T>) {
    if s == [] || le(s[|s| - 1], x) then s + [x]
    else Insert(le, s[..|s| - 1], x) + [s[|s| - 1]]
  }

  function Sort<T>(le: (T, T) -> bool, s: seq<T>): (r: seq<T>) {
    if s == [] then [] else Insert(le, Sort(le, s[..|s| - 1]), s[|s| - 1])
  }

  /** The subsequence of `s` that satisfies `p`. */
  function Filter<T>(p: T -> bool, s: seq<T>): seq<T> {
    if s == [] then []
    else Filter(p, s[..|s| - 1]) + (if p(s[|s| - 1]) then [s[|s| - 1]] else [])
  }

  lemma {:induction false} FilterConcat<T>(p: T -> bool, a: seq<T>, b: seq<T>)
    ensures Filter(p, a + b) == Filter(p, a) + Filter(p, b)
  {
    if b == [] {
      assert a + b == a;
    } else {
      var n := |b| - 1;
      assert (a + b)[..|a + b| - 1] == a + b[..n];
      FilterConcat(p, a, b[..n]);
    }
  }

  lemma {:induction false} InsertPermutes<T>(le: (T, T) -> bool, s: seq<T>, x: T)
    ensures multiset(Insert(le, s, x)) == multiset(s) + multiset{x}
  {
    if s != [] && !le(s[|s| - 1], x) {
      var n := |s| - 1;
      InsertPermutes(le, s[..n], x);
      assert s == s[..n] + [s[n]];
    }
  }

  ghost predicate AllBelow<T>(le: (T, T) -> bool, s: seq<T>, x: T) {
    forall i :: 0 <= i < |s| ==> le(s[i], x)
  }

  lemma SortedAppend<T>(le: (T, T) -> bool, s: seq<T>, x: T)
    requires Sorted(le, s) && AllBelow(le, s, x)
    ensures Sorted(le, s + [x])
  {
  }

  lemma BelowLast<T(!new)>(le: (T, T) -> bool, s: seq<T>, x: T)
    requires TotalPreorder(le) && Sorted(le, s) && s != [] && le(s[|s| - 1], x)
    ensures AllBelow(le, s, x)
  {
    var n := |s| - 1;
    forall i | 0 <= i < |s| ensures le(s[i], x) {
      assert i < n ==> le(s[i], s[n]);
    }
  }

  lemma InsertAllBelow<T>(le: (T, T) -> bool, s: seq<T>, x: T, y: T)
    requires AllBelow(le, s, y) && le(x, y)
    ensures AllBelow(le, Insert(le, s, x), y)
  {
    var r := Insert(le, s, x);
    InsertPermutes(le, s, x);
    forall i | 0 <= i < |r| ensures le(r[i], y) {
      assert r[i] in multiset(r);
      assert r[i] == x || r[i] in s;
    }
  }

  lemma {:induction false} InsertSorted<T(!new)>(le: (T, T) -> bool, s: seq<T>, x: T)
    requires TotalPreorder(le) && Sorted(le, s)
    ensures Sorted(le, Insert(le, s, x))
  {
    if s == [] {
    } else if le(s[|s| - 1], x) {
      BelowLast(le, s, x);
      SortedAppend(le, s, x);
    } else {
      var n := |s| - 1;
      InsertSorted(le, s[..n], x);
      InsertAllBelow(le, s[..n], x, s[n]);
      SortedAppend(le, Insert(le, s[..n], x), s[n]);
    }
  }

  lemma {:induction false} SortPermutes<T>(le: (T, T) -> bool, s: seq<T>)
    ensures multiset(Sort(le, s)) == multiset(s)
  {
    if s != [] {
      var n := |s| - 1;
      var t := s[..n];
      SortPermutes(le, t);
      InsertPermutes(le, Sort(le, t), s[n]);
      assert s == t + [s[n]];
    }
  }

  lemma {:induction false} SortSorted<T(!new)>(le: (T, T) -> bool, s: seq<T>)
    requires TotalPreorder(le)
    ensures Sorted(le, Sort(le, s)) && multiset(Sort(le, s)) == multiset(s)
  {
    SortPermutes(le, s);
    if s != [] {
      var n := |s| - 1;
      var t := s[..n];
      SortSorted(le, t);
      InsertSorted(le, Sort(le, t), s[n]);
    }
  }

  function Same<T>(le: (T, T) -> bool, k: T): T -> bool {
    y => le(y, k) && le(k, y)
  }

  /** Elements that compare equal keep their order. */
  lemma {:induction false} InsertStable<T(!new)>(le: (T, T) -> bool, s: seq<T>, x: T, k: T)
    requires TotalPreorder(le)
    ensures Filter(Same(le, k), Insert(le, s, x)) == Filter(Same(le, k), s + [x])
  {
    var same := Same(le, k);
    if s != [] && !le(s[|s| - 1], x) {
      var n := |s| - 1;
      InsertStable(le, s[..n], x, k);
      assert !(same(s[n]) && same(x));
      FilterSwap(same, Insert(le, s[..n], x), s[..n], x, s[n]);
      assert s == s[..n] + [s[n]];
    }
  }

  lemma FilterSwap<T>(p: T -> bool, r: seq<T>, s: seq<T>, x: T, y: T)
    requires Filter(p, r) == Filter(p, s + [x]) && !(p(x) && p(y))
    ensures Filter(p, r + [y]) == Filter(p, s + [y] + [x])
  {
    FilterConcat(p, r, [y]);
    FilterConcat(p, s, [x]);
    FilterConcat(p, s, [y]);
    FilterConcat(p, s + [y], [x]);
  }

  lemma {:induction false} SortStable<T(!new)>(le: (T, T) -> bool, s: seq<T>, k: T)
    requires TotalPreorder(le)
    ensures KeepsOrder(le, s, k)
  {
    if s != [] {
      var n := |s| - 1;
      var t, x := s[..n], s[n];
      SortStable(le, t, k);
      assert s == t + [x];
      KeepsOrderStep(le, t, x, s, k);
    }
  }

  ghost predicate KeepsOrder<T>(le: (T, T) -> bool, s: seq<T>, k: T) {
    Filter(Same(le, k), Sort(le, s)) == Filter(Same(le, k), s)
  }

  lemma KeepsOrderStep<T(!new)>(le: (T, T) -> bool, t: seq<T>, x: T, s: seq<T>, k: T)
    requires TotalPreorder(le) && s == t + [x] && KeepsOrder(le, t, k)
    ensures KeepsOrder(le, s, k)
  {
    assert s[..|s| - 1] == t;
    InsertStable(le, Sort(le, t), x, k);
    FilterAppendSame(Same(le, k), Sort(le, t), t, x);
  }

  lemma FilterAppendSame<T>(p: T -> bool, a: seq<T>, b: seq<T>, x: T)
    requires Filter(p, a) == Filter(p, b)
    ensures Filter(p, a + [x]) == Filter(p, b + [x])
  {
    FilterConcat(p, a, [x]);
    FilterConcat(p, b, [x]);
  }

  lemma {:induction false} FilterMember<T>(p: T -> bool, s: seq<T>)
    ensures forall x :: x in Filter(p, s) <==> x in s && p(x)
  {
    if s != [] {
      FilterMember(p, s[..|s| - 1]);
      assert s == s[..|s| - 1] + [s[|s| - 1]];
    }
  }

  /** Filtering keeps every copy of what satisfies `p` and nothing else. */
  lemma {:induction false} FilterCount<T>(p: T -> bool, s: seq<T>, x: T)
    ensures multiset(Filter(p, s))[x] == if p(x) then multiset(s)[x] else 0
  {
    if s != [] {
      var n := |s| - 1;
      FilterCount(p, s[..n], x);
      assert s == s[..n] + [s[n]];
    }
  }

  lemma FilterButLast<T>(p: T -> bool, s: seq<T>)
    requires s != []
    ensures Filter(p, s[..|s| - 1]) ==
            if p(s[|s| - 1]) then Filter(p, s)[..|Filter(p, s)| - 1] else Filter(p, s)
  {
  }

  /** A sorted list is fixed by the order in which it holds elements that compare equal. */
  lemma {:induction false} SortedUnique<T(!new)>(le: (T, T) -> bool, a: seq<T>, b: seq<T>)
    requires TotalPreorder(le) && Sorted(le, a) && Sorted(le, b)
    requires forall k :: Filter(Same(le, k), a) == Filter(Same(le, k), b)
    ensures a == b
  {
    EmptyTogether(le, a, b);
    EmptyTogether(le, b, a);
    if a != [] {
      var x, y := a[|a| - 1], b[|b| - 1];
      LastIsLeast(le, a, b);
      LastIsLeast(le, b, a);
      assert Filter(Same(le, x), a)[|Filter(Same(le, x), a)| - 1] == x;
      assert Filter(Same(le, x), b)[|Filter(Same(le, x), b)| - 1] == y;
      forall k ensures Filter(Same(le, k), a[..|a| - 1]) == Filter(Same(le, k), b[..|b| - 1]) {
        FilterButLast(Same(le, k), a);
        FilterButLast(Same(le, k), b);
      }
      SortedUnique(le, a[..|a| - 1], b[..|b| - 1]);
    }
  }

  lemma EmptyTogether<T(!new)>(le: (T, T) -> bool, a: seq<T>, b: seq<T>)
    requires TotalPreorder(le)
    requires forall k :: Filter(Same(le, k), a) == Filter(Same(le, k), b)
    ensures a != [] ==> b != []
  {
    if a != [] {
      FilterMember(Same(le, a[0]), a);
      FilterMember(Same(le, a[0]), b);
      assert a[0] in Filter(Same(le, a[0]), a);
    }
  }

  lemma LastIsLeast<T(!new)>(le: (T, T) -> bool, a: seq<T>, b: seq<T>)
    requires TotalPreorder(le) && Sorted(le, b) && a != [] && b != []
    requires forall k :: Filter(Same(le, k), a) == Filter(Same(le, k), b)
    ensures le(a[|a| - 1], b[|b| - 1])
  {
    var x := a[|a| - 1];
    FilterMember(Same(le, x), a);
    FilterMember(Same(le, x), b);
    assert x in Filter(Same(le, x), a);
    var i :| 0 <= i < |b| && b[i] == x;
  }

  /** `Sort` is the stable sort: the only sorted list that keeps equal elements in their order. */
  lemma {:induction false} SortIsTheStableSort<T(!new)>(le: (T, T) -> bool, s: seq<T>, t: seq<T>)
    requires TotalPreorder(le)
    ensures t == Sort(le, s) <==> Sorted(le, t) && forall k :: Filter(Same(le, k), t) == Filter(Same(le, k), s)
  {
    SortSorted(le, s);
    forall k ensures Filter(Same(le, k), Sort(le, s)) == Filter(Same(le, k), s) {
      SortStable(le, s, k);
    }
    if Sorted(le, t) && forall k :: Filter(Same(le, k), t) == Filter(Same(le, k), s) {
      SortedUnique(le, t, Sort(le, s));
    }
  }

  lemma SortedPrefix<T>(le: (T, T) -> bool, s: seq<T>, n: nat)
    requires Sorted(le, s) && n <= |s|
    ensures Sorted(le, s[..n])
  {
  }

  lemma {:induction false} SortOfSorted<T(!new)>(le: (T, T) -> bool, s: seq<T>)
    requires Sorted(le, s)
    ensures Sort(le, s) == s
  {
    if s != [] {
      var n := |s| - 1;
      var t := s[..n];
      SortedPrefix(le, s, n);
      SortOfSorted(le, t);
      assert n > 0 ==> le(t[n - 1], s[n]);
      assert s == t + [s[n]];
    }
  }

  /** Insertion leaves a prefix alone when none of it is greater than the new element. */
  lemma {:induction false} InsertBehind<T>(le: (T, T) -> bool, a: seq<T>, b: seq<T>, x: T)
    requires forall i :: 0 <= i < |a| ==> le(a[i], x)
    ensures Insert(le, a + b, x) == a + Insert(le, b, x)
  {
    if b == [] {
      assert a + b == a;
    } else if !le(b[|b| - 1], x) {
      var n := |b| - 1;
      assert (a + b)[..|a + b| - 1] == a + b[..n];
      InsertBehind(le, a, b[..n], x);
    }
  }
}
