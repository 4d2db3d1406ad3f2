/** Python's order on strings. */
module Lexicographic {

  predicate StrLe(a: string, b: string) {
    if a == [] then true
    else if b == [] then false
    else if a[0] != b[0] then a[0] < b[0]
    else StrLe(a[1..], b[1..])
  }

  /** By the first character in which two strings differ; a prefix comes first. */
  lemma {:induction false} StrLeIff(a: string, b: string)
    ensures StrLe(a, b) <==> a <= b || exists k :: FirstDifference(a, b, k) && a[k] < b[k]
  {
    if a == [] || b == [] {
      assert !exists k :: FirstDifference(a, b, k);
    } else if a[0] == b[0] {
      StrLeIff(a[1..], b[1..]);
      PrefixOfTail(a, b);
      FirstDifferenceOfTail(a, b, a[1..], b[1..]);
    } else {
      assert FirstDifference(a, b, 0);
      assert forall k :: FirstDifference(a, b, k) ==> k == 0 by {
        assert forall k :: FirstDifference(a, b, k) && k > 0 ==> a[..k][0] == b[..k][0];
      }
      assert !(a <= b);
    }
  }

  predicate FirstDifference(a: string, b: string, k: int) {
    0 <= k < |a| && k < |b| && a[..k] == b[..k] && a[k] != b[k]
  }

  lemma PrefixOfTail(a: string, b: string)
    requires a != [] && b != [] && a[0] == b[0]
    ensures a <= b <==> a[1..] <= b[1..]
  {
    if a[1..] <= b[1..] {
      assert forall i :: 0 < i < |a| ==> a[i] == a[1..][i - 1] && b[i] == b[1..][i - 1];
    }
  }

  lemma FirstDifferenceOfTail(a: string, b: string, s: string, t: string)
    requires a != [] && b != [] && a[0] == b[0] && s == a[1..] && t == b[1..]
    ensures (exists k :: FirstDifference(a, b, k) && a[k] < b[k]) <==> exists k :: FirstDifference(s, t, k) && s[k] < t[k]
  {
    if k :| FirstDifference(s, t, k) && s[k] < t[k] {
      assert a[..k + 1] == [a[0]] + s[..k] && b[..k + 1] == [b[0]] + t[..k];
      assert FirstDifference(a, b, k + 1);
    }
    if k :| FirstDifference(a, b, k) && a[k] < b[k] {
      var j := k - 1;
      assert s[..j] == a[..k][1..] && t[..j] == b[..k][1..];
      assert FirstDifference(s, t, j);
    }
  }

  lemma {:induction false} StrLeTotal(a: string, b: string)
    ensures StrLe(a, b) || StrLe(b, a)
  {
    if a != [] && b != [] && a[0] == b[0] {
      StrLeTotal(a[1..], b[1..]);
    }
  }

  lemma StrLeReflexive(a: string)
    ensures StrLe(a, a)
  {
    StrLeTotal(a, a);
  }

  lemma {:induction false} StrLeTransitive(a: string, b: string, c: string)
    requires StrLe(a, b) && StrLe(b, c)
    ensures StrLe(a, c)
  {
    if a != [] && b != [] && c != [] && a[0] == b[0] == c[0] {
      StrLeTransitive(a[1..], b[1..], c[1..]);
    }
  }

  lemma {:induction false} StrLeAntisymmetric(a: string, b: string)
    requires StrLe(a, b) && StrLe(b, a)
    ensures a == b
  {
    if a != [] && b != [] {
      StrLeAntisymmetric(a[1..], b[1..]);
      assert a == [a[0]] + a[1..] && b == [b[0]] + b[1..];
    }
  }
}
