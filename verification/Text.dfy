/** The string operations of Python that the trace and date tools use, on ASCII text. */
module Text {
  import opened Wrappers
  import opened Arith

  predicate IsSpace(c: char) {
    9 as char <= c <= 13 as char || 28 as char <= c <= 32 as char
  }

  predicate IsDigit(c: char) {
    '0' <= c <= '9'
  }

  // ---------- strip ----------

  function StripLeft(s: string): string {
    if s != [] && IsSpace(s[0]) then StripLeft(s[1..]) else s
  }

  function StripRight(s: string): string {
    if s != [] && IsSpace(s[|s| - 1]) then StripRight(s[..|s| - 1]) else s
  }

  function Strip(s: string): string {
    StripRight(StripLeft(s))
  }

  ghost predicate NoSpace(s: string) {
    forall i :: 0 <= i < |s| ==> !IsSpace(s[i])
  }

  lemma StripNothing(s: string)
    requires NoSpace(s)
    ensures Strip(s) == s
  {
  }

  lemma StripNewline(s: string)
    requires NoSpace(s) && s != []
    ensures Strip(s + "\n") == s
  {
    var t := s + "\n";
    assert t[0] == s[0] && StripLeft(t) == t;
    assert t[|t| - 1] == '\n' && t[..|t| - 1] == s;
    assert StripRight(t) == StripRight(s);
  }

  /** `strip` takes blanks, and only blanks, off both ends until none is left there. */
  lemma StripMeans(s: string) returns (left: string, right: string)
    ensures s == left + Strip(s) + right && Blank(left) && Blank(right)
    ensures Strip(s) != [] ==> !Blank(Strip(s)[..1]) && !Blank(Strip(s)[|Strip(s)| - 1..])
  {
    var middle := StripLeft(s);
    left := StripLeftMeans(s);
    right := StripRightMeans(middle);
    var t := Strip(s);
    assert s == left + (t + right) == left + t + right;
    BlankIff(left);
    BlankIff(right);
    if t != [] {
      assert middle[0] == t[0];
      NotBlank(t[..1]);
      NotBlank(t[|t| - 1..]);
    }
  }

  ghost predicate AllSpace(s: string) {
    forall i :: 0 <= i < |s| ==> IsSpace(s[i])
  }

  /** All characters are blanks, by their codes. */
  ghost predicate Blank(s: string) {
    forall i :: 0 <= i < |s| ==> s[i] as int in [9, 10, 11, 12, 13, 28, 29, 30, 31, 32]
  }

  lemma BlankIff(s: string)
    ensures Blank(s) <==> AllSpace(s)
  {
    assert forall c: char :: IsSpace(c) <==> c as int in [9, 10, 11, 12, 13, 28, 29, 30, 31, 32];
  }

  lemma NotBlank(s: string)
    requires |s| == 1 && !IsSpace(s[0])
    ensures !Blank(s)
  {
    BlankIff(s);
  }

  lemma {:induction false} StripLeftMeans(s: string) returns (left: string)
    ensures s == left + StripLeft(s) && AllSpace(left)
    ensures StripLeft(s) != [] ==> !IsSpace(StripLeft(s)[0])
  {
    left := "";
    if s != [] && IsSpace(s[0]) {
      var rest := StripLeftMeans(s[1..]);
      left := [s[0]] + rest;
    }
  }

  lemma {:induction false} StripRightMeans(s: string) returns (right: string)
    ensures s == StripRight(s) + right && AllSpace(right)
    ensures StripRight(s) != [] ==> !IsSpace(StripRight(s)[|StripRight(s)| - 1])
  {
    right := "";
    if s != [] && IsSpace(s[|s| - 1]) {
      var front := s[..|s| - 1];
      var rest := StripRightMeans(front);
      right := rest + [s[|s| - 1]];
      assert s == front + [s[|s| - 1]];
    }
  }

  // ---------- split and join ----------

  function Split(s: string, sep: char): (parts: seq<string>)
    ensures |parts| >= 1
  {
    if s == [] then [""]
    else
      var rest := Split(s[1..], sep);
      if s[0] == sep then [""] + rest else [[s[0]] + rest[0]] + rest[1..]
  }

  function Join(parts: seq<string>, sep: char): string
    requires |parts| >= 1
  {
    if |parts| == 1 then parts[0] else parts[0] + [sep] + Join(parts[1..], sep)
  }

  ghost predicate Free(s: string, c: char) {
    forall i :: 0 <= i < |s| ==> s[i] != c
  }

  lemma {:induction false} SplitPart(s: string, t: string, sep: char)
    requires Free(s, sep)
    ensures Split(s + [sep] + t, sep) == [s] + Split(t, sep)
    ensures Split(s, sep) == [s]
  {
    if s == [] {
      assert s + [sep] + t == [sep] + t;
      assert ([sep] + t)[1..] == t;
    } else {
      SplitPart(s[1..], t, sep);
      var all := s + [sep] + t;
      assert all[1..] == s[1..] + [sep] + t;
      assert [s[0]] + s[1..] == s;
    }
  }

  lemma {:induction false} SplitJoin(parts: seq<string>, sep: char)
    requires |parts| >= 1 && forall i :: 0 <= i < |parts| ==> Free(parts[i], sep)
    ensures Split(Join(parts, sep), sep) == parts
  {
    if |parts| == 1 {
      SplitPart(parts[0], "", sep);
    } else {
      SplitPart(parts[0], Join(parts[1..], sep), sep);
      SplitJoin(parts[1..], sep);
      assert [parts[0]] + parts[1..] == parts;
    }
  }

  /** `split` cuts at every separator and nowhere else. */
  lemma {:induction false} SplitMeans(s: string, sep: char)
    ensures Join(Split(s, sep), sep) == s
    ensures forall i :: 0 <= i < |Split(s, sep)| ==> Free(Split(s, sep)[i], sep)
  {
    if s != [] {
      SplitMeans(s[1..], sep);
      var rest := Split(s[1..], sep);
      if s[0] == sep {
        assert ([""] + rest)[1..] == rest;
        assert Join([""] + rest, sep) == "" + [sep] + s[1..] == s;
      } else {
        var parts := [[s[0]] + rest[0]] + rest[1..];
        assert parts[1..] == rest[1..];
        assert Join(parts, sep) == [s[0]] + Join(rest, sep);
      }
    }
  }

  lemma {:induction false} JoinFree(parts: seq<string>, sep: char, c: char)
    requires |parts| >= 1 && c != sep && forall i :: 0 <= i < |parts| ==> Free(parts[i], c)
    ensures Free(Join(parts, sep), c)
  {
    if |parts| > 1 {
      JoinFree(parts[1..], sep, c);
    }
  }

  lemma {:induction false} JoinNoSpace(parts: seq<string>, sep: char)
    requires |parts| >= 1 && !IsSpace(sep) && forall i :: 0 <= i < |parts| ==> NoSpace(parts[i])
    ensures NoSpace(Join(parts, sep))
  {
    if |parts| > 1 {
      JoinNoSpace(parts[1..], sep);
    }
  }

  // ---------- Decimal numbers ----------

  function Digit(d: nat): char
    requires d < 10
  {
    '0' + d as char
  }

  /** The decimal form of a natural number. */
  function Decimal(n: nat): string {
    if n < 10 then [Digit(n)] else Decimal(n / 10) + [Digit(n % 10)]
  }

  /** `%d` */
  function Format(i: int): string {
    if i < 0 then "-" + Decimal(-i) else Decimal(i)
  }

  /** Digits, with single underscores allowed between them. */
  function ParseDigits(s: string): Option<nat> {
    if s == [] || !IsDigit(s[|s| - 1]) then None
    else
      var d := s[|s| - 1] as int - '0' as int;
      if |s| == 1 then Some(d)
      else
        var front := if s[|s| - 2] == '_' then s[..|s| - 2] else s[..|s| - 1];
        match ParseDigits(front)
        case None => None
        case Some(n) => Some(10 * n + d)
  }

  /** `int(s)`: surrounding space and a sign are allowed; None stands for ValueError. */
  function ParseInt(s: string): Option<int> {
    var t := Strip(s);
    if t != [] && t[0] == '-' then Signed(-1, ParseDigits(t[1..]))
    else if t != [] && t[0] == '+' then Signed(1, ParseDigits(t[1..]))
    else Signed(1, ParseDigits(t))
  }

  function Signed(sign: int, n: Option<nat>): Option<int> {
    match n
    case None => None
    case Some(v) => Some(sign * v)
  }

  ghost predicate AllDigits(s: string) {
    forall i :: 0 <= i < |s| ==> IsDigit(s[i])
  }

  lemma {:induction false} DecimalFacts(n: nat)
    ensures Decimal(n) != [] && AllDigits(Decimal(n)) && ParseDigits(Decimal(n)) == Some(n)
  {
    if n >= 10 {
      DecimalFacts(n / 10);
      var s, front := Decimal(n), Decimal(n / 10);
      assert s[..|s| - 1] == front;
      assert IsDigit(front[|front| - 1]) && s[|s| - 2] == front[|front| - 1];
    }
  }

  function Pow10(k: nat): (p: nat)
    ensures p > 0
  {
    if k == 0 then 1 else 10 * Pow10(k - 1)
  }

  lemma DivTen(n: nat, p: nat)
    requires p > 0
    ensures n / 10 / p == n / (10 * p)
  {
    var q, r := n / 10 / p, n / 10 % p;
    assert n / 10 == q * p + r;
    assert n == 10 * (q * p + r) + n % 10;
    assert 10 * (q * p) == q * (10 * p);
    DivUnique(n, 10 * p, q);
  }

  /** Digit `k` of the decimal form, counted from the right, is the digit worth ten to the `k`; no zero leads. */
  lemma {:induction false} DecimalDigit(n: nat, k: nat)
    ensures var s := Decimal(n);
            k < |s| ==> s[|s| - 1 - k] == "0123456789"[n / Pow10(k) % 10]
    ensures |Decimal(n)| > 1 ==> Decimal(n)[0] != '0'
    decreases n
  {
    var s := Decimal(n);
    if n >= 10 {
      var front, j := Decimal(n / 10), if k > 0 then k - 1 else 0;
      DecimalDigit(n / 10, j);
      assert s == front + [Digit(n % 10)];
      FirstDigit(n / 10);
      assert s[0] == front[0];
      if k > 0 && k < |s| {
        DivTen(n, Pow10(j));
        assert s[|s| - 1 - k] == front[|front| - 1 - j];
      }
    }
  }

  lemma {:induction false} FirstDigit(n: nat)
    ensures Decimal(n) != [] && (n > 0 ==> Decimal(n)[0] != '0')
  {
    if n >= 10 {
      FirstDigit(n / 10);
    }
  }

  lemma DigitsAreClean(s: string, c: char)
    requires AllDigits(s) && !IsDigit(c)
    ensures NoSpace(s) && Free(s, c)
  {
  }

  lemma ParseDecimal(n: nat)
    ensures ParseInt(Decimal(n)) == Some(n)
  {
    DecimalFacts(n);
    DigitsAreClean(Decimal(n), '-');
    StripNothing(Decimal(n));
    assert IsDigit(Decimal(n)[0]);
  }

  lemma FormatFacts(i: int)
    ensures Format(i) != [] && NoSpace(Format(i)) && Free(Format(i), ',') && Free(Format(i), ':')
    ensures ParseInt(Format(i)) == Some(i)
  {
    var n := if i < 0 then -i else i;
    DecimalFacts(n);
    DigitsAreClean(Decimal(n), ',');
    DigitsAreClean(Decimal(n), ':');
    if i < 0 {
      assert Format(i)[1..] == Decimal(n);
      StripNothing(Format(i));
    } else {
      ParseDecimal(n);
    }
  }
}
