/** "%d" and atoi, and the C integer widths a length passes through. */
module Decimal {
  import opened Wrappers
  import opened CString

  const MINUS: byte := 45
  const PLUS: byte := 43

  const INT_MAX := 0x7fff_ffff
  const INT_MIN := -0x8000_0000
  const INT_VALUES := 0x1_0000_0000
  const SIZE_VALUES := 0x1_0000_0000_0000_0000

  /** (int) of a 64-bit value. */
  function ToInt(n: int): (i: int)
    ensures INT_MIN <= i <= INT_MAX
    ensures INT_MIN <= n <= INT_MAX ==> i == n
  {
    (n - INT_MIN) % INT_VALUES + INT_MIN
  }

  /** (size_t) of an int. */
  function ToSize(i: int): (n: nat)
    ensures n < SIZE_VALUES
    ensures 0 <= i < SIZE_VALUES ==> n == i
  {
    i % SIZE_VALUES
  }

  /** A size_t sent through an int and read back survives exactly when it fits
      the int, or is so large that sign extension restores it. */
  lemma SizeThroughInt(n: nat)
    requires n < SIZE_VALUES
    ensures ToSize(ToInt(n)) == n <==> n <= INT_MAX || n >= SIZE_VALUES + INT_MIN
  {
    SignExtends(ToInt(n));
    if n >= SIZE_VALUES + INT_MIN {
      WrapsOnce(n - SIZE_VALUES);
    }
  }

  lemma SignExtends(i: int)
    requires INT_MIN <= i <= INT_MAX
    ensures ToSize(i) == if i < 0 then i + SIZE_VALUES else i
  {
  }

  lemma WrapsOnce(i: int)
    requires INT_MIN <= i <= INT_MAX
    ensures ToInt(i + SIZE_VALUES) == i
  {
    assert i + SIZE_VALUES - INT_MIN == (i - INT_MIN) + INT_VALUES * INT_VALUES;
  }

  predicate IsDigit(c: byte) {
    48 <= c <= 57
  }

  /** isspace in the C locale. */
  predicate IsSpace(c: byte) {
    c == SPACE || TAB <= c <= CR
  }

  ghost predicate AllDigits(s: Bytes) {
    forall i | 0 <= i < |s| :: IsDigit(s[i])
  }

  function SkipSpace(s: Bytes): Bytes {
    if s != [] && IsSpace(s[0]) then SkipSpace(s[1..]) else s
  }

  function LeadingDigits(s: Bytes): (ds: Bytes)
    ensures AllDigits(ds) && ds <= s
    ensures |ds| < |s| ==> !IsDigit(s[|ds|])
  {
    if s != [] && IsDigit(s[0]) then [s[0]] + LeadingDigits(s[1..]) else []
  }

  function PrintNat(n: nat): (ds: Bytes)
    ensures ds != [] && AllDigits(ds)
  {
    if n < 10 then [48 + n] else PrintNat(n / 10) + [48 + n % 10]
  }

  /** sprintf("%d"). */
  function Print(n: int): (s: Bytes)
    ensures s != []
    ensures forall i | 0 <= i < |s| :: s[i] == MINUS || IsDigit(s[i])
  {
    if n < 0 then [MINUS] + PrintNat(-n) else PrintNat(n)
  }

  /** The number a run of digits denotes. */
  function Value(ds: Bytes): int {
    if ds == [] then 0 else 10 * Value(ds[..|ds| - 1]) + (ds[|ds| - 1] as int - 48)
  }

  /** atoi, section 7.20.1.2 of ISO C99; None where the result does not fit an
      int and the behaviour is undefined. */
  function Atoi(s: Bytes): Option<int> {
    var t := SkipSpace(s);
    var negative := t != [] && t[0] == MINUS;
    var u := if negative || (t != [] && t[0] == PLUS) then t[1..] else t;
    var v := Value(LeadingDigits(u));
    var r := if negative then -v else v;
    if INT_MIN <= r <= INT_MAX then Some(r) else None
  }

  lemma {:induction false} ValueOfPrintNat(n: nat)
    ensures Value(PrintNat(n)) == n
  {
    if n < 10 {
      assert Value([]) == 0;
      assert [48 + n][..0] == [];
    } else {
      ValueOfPrintNat(n / 10);
      var ds := PrintNat(n);
      assert ds[..|ds| - 1] == PrintNat(n / 10);
    }
  }

  lemma {:induction false} LeadingDigitsOfDigits(s: Bytes)
    requires AllDigits(s)
    ensures LeadingDigits(s) == s
  {
    if s != [] {
      LeadingDigitsOfDigits(s[1..]);
    }
  }

  /** atoi inverts "%d" on every int. */
  lemma AtoiOfPrint(n: int)
    requires INT_MIN <= n <= INT_MAX
    ensures Atoi(Print(n)) == Some(n)
  {
    var s := Print(n);
    var ds := PrintNat(if n < 0 then -n else n);
    assert IsDigit(ds[0]);
    LeadingDigitsOfDigits(ds);
    ValueOfPrintNat(if n < 0 then -n else n);
    if n < 0 {
      assert s[1..] == ds;
    }
  }

  lemma {:induction false} SkipSpaceIs(lead: Bytes, rest: Bytes)
    requires forall i | 0 <= i < |lead| :: IsSpace(lead[i])
    requires rest != [] ==> !IsSpace(rest[0])
    ensures SkipSpace(lead + rest) == rest
  {
    if lead == [] {
      assert lead + rest == rest;
    } else {
      assert (lead + rest)[1..] == lead[1..] + rest;
      SkipSpaceIs(lead[1..], rest);
    }
  }

  lemma {:induction false} LeadingDigitsIs(ds: Bytes, rest: Bytes)
    requires AllDigits(ds) && (rest != [] ==> !IsDigit(rest[0]))
    ensures LeadingDigits(ds + rest) == ds
  {
    if ds == [] {
      assert ds + rest == rest;
    } else {
      assert (ds + rest)[1..] == ds[1..] + rest;
      LeadingDigitsIs(ds[1..], rest);
    }
  }

  /** atoi on every string: white space, a sign or none, digits, and the rest. */
  lemma AtoiIs(lead: Bytes, sign: Bytes, ds: Bytes, rest: Bytes)
    requires forall i | 0 <= i < |lead| :: IsSpace(lead[i])
    requires sign == [] || sign == [PLUS] || sign == [MINUS]
    requires AllDigits(ds) && (rest != [] ==> !IsDigit(rest[0]))
    requires |sign| == |ds| == 0 && |rest| > 0 ==> !IsSpace(rest[0]) && rest[0] != PLUS && rest[0] != MINUS
    ensures var v := if sign == [MINUS] then -Value(ds) else Value(ds);
            Atoi(lead + sign + ds + rest) == if INT_MIN <= v <= INT_MAX then Some(v) else None
  {
    hide Atoi, SkipSpace, LeadingDigits, Value;
    var u := ds + rest;
    Regroup(lead, sign, ds, rest);
    StartsWith(sign, ds, rest);
    SkipSpaceIs(lead, sign + u);
    LeadingDigitsIs(ds, rest);
    AtoiOfParts(lead + (sign + u), sign, u);
  }

  lemma Regroup(a: Bytes, b: Bytes, c: Bytes, d: Bytes)
    ensures a + b + c + d == a + (b + (c + d))
  {
  }

  lemma StartsWith(sign: Bytes, ds: Bytes, rest: Bytes)
    requires AllDigits(ds) && (sign == [] || sign == [PLUS] || sign == [MINUS])
    requires |sign| == |ds| == 0 && |rest| > 0 ==> !IsSpace(rest[0]) && rest[0] != PLUS && rest[0] != MINUS
    ensures var t := sign + (ds + rest);
            && (t != [] ==> !IsSpace(t[0]))
            && (sign == [] && t != [] ==> t[0] != PLUS && t[0] != MINUS)
  {
    var t := sign + (ds + rest);
    assert t != [] ==> t[0] == if sign != [] then sign[0] else if ds != [] then ds[0] else rest[0];
    assert ds != [] ==> IsDigit(ds[0]);
  }

  lemma AtoiOfParts(s: Bytes, sign: Bytes, u: Bytes)
    requires SkipSpace(s) == sign + u && (sign == [] || sign == [PLUS] || sign == [MINUS])
    requires sign == [] && u != [] ==> u[0] != PLUS && u[0] != MINUS
    ensures var n := Value(LeadingDigits(u)); var v := if sign == [MINUS] then -n else n;
            Atoi(s) == if INT_MIN <= v <= INT_MAX then Some(v) else None
  {
    hide SkipSpace, LeadingDigits, Value;
    if sign == [] {
      assert sign + u == u;
    } else {
      assert (sign + u)[1..] == u && (sign + u)[0] == sign[0];
    }
  }

  /** The base is ten. */
  lemma Ten()
    ensures Value([49, 48]) == 10 && PrintNat(10) == [49, 48]
  {
    assert [49, 48][..1] == [49] && [49][..0] == [] && Value([]) == 0 && Value([49]) == 1;
    assert PrintNat(1) == [49];
  }
}
