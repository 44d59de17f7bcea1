/** Package ids, version strings and the names derived from them (apexd/apex_manifest.cpp). */
module Naming {
  import opened Basics

  const INT32_MIN: int := -0x8000_0000
  const INT32_MAX: int := 0x7fff_ffff
  const INT64_MIN: int := -0x8000_0000_0000_0000
  const INT64_MAX: int := 0x7fff_ffff_ffff_ffff
  const SIZE_MAX: nat := 0xffff_ffff_ffff_ffff

  type int64 = x: int | INT64_MIN <= x <= INT64_MAX
  type size = x: int | 0 <= x <= SIZE_MAX

  predicate FitsInt32(v: int) {
    INT32_MIN <= v <= INT32_MAX
  }

  /** The narrowing conversion from int64_t to int: the low 32 bits, read as two's complement. */
  function Int32(v: int): (r: int)
    ensures FitsInt32(r) && (r - v) % 0x1_0000_0000 == 0
    ensures FitsInt32(v) ==> r == v
  {
    var low := v % 0x1_0000_0000;
    if low <= INT32_MAX then low else low - 0x1_0000_0000
  }

  predicate IsDigit(c: char) {
    '0' <= c <= '9'
  }

  predicate AllDigits(s: string) {
    forall i :: 0 <= i < |s| ==> IsDigit(s[i])
  }

  function Digit(n: nat): (c: char)
    requires n < 10
    ensures IsDigit(c) && c as int - '0' as int == n
  {
    '0' + n as char
  }

  /** Decimal digits of a natural number, without leading zeros. */
  function Digits(n: nat): (s: string)
    ensures |s| > 0 && AllDigits(s)
  {
    if n < 10 then [Digit(n)] else Digits(n / 10) + [Digit(n % 10)]
  }

  /** The number that a string of digits denotes. */
  function NatValue(s: string): nat
    requires AllDigits(s)
  {
    if s == "" then 0
    else NatValue(s[..|s| - 1]) * 10 + (s[|s| - 1] as int - '0' as int)
  }

  lemma {:induction false} DigitsDenote(n: nat)
    ensures NatValue(Digits(n)) == n
  {
    if n < 10 {
      assert Digits(n)[..0] == "";
    } else {
      DigitsDenote(n / 10);
      var s := Digits(n);
      assert s[..|s| - 1] == Digits(n / 10);
    }
  }

  /** std::to_string of a signed number. */
  function ToString(v: int): (s: string)
    ensures |s| > 0 && forall i :: 0 <= i < |s| ==> s[i] == '-' || IsDigit(s[i])
  {
    if v < 0 then "-" + Digits(-v) else Digits(v)
  }

  /** android::base::ParseUint for size_t, on plain decimal input. */
  function ParseUint(s: string): Option<size> {
    if s != "" && AllDigits(s) && NatValue(s) <= SIZE_MAX then Some(NatValue(s)) else None
  }

  /** android::base::ParseInt for int, on plain decimal input. */
  function ParseInt(s: string): Option<int> {
    var negative := s != "" && s[0] == '-';
    var digits := if negative then s[1..] else s;
    if digits == "" || !AllDigits(digits) then None
    else
      var n: int := NatValue(digits);
      var v := if negative then -n else n;
      if FitsInt32(v) then Some(v) else None
  }

  lemma {:induction false} ParseUintOfDigits(n: size)
    ensures ParseUint(Digits(n)) == Some(n)
  {
    DigitsDenote(n);
  }

  lemma {:induction false} ParseIntOfToString(v: int)
    ensures ParseInt(ToString(v)) == if FitsInt32(v) then Some(v) else None
  {
    if v < 0 {
      DigitsDenote(-v);
      assert ToString(v)[1..] == Digits(-v);
    } else {
      DigitsDenote(v);
      assert IsDigit(ToString(v)[0]);
    }
  }

  lemma {:induction false} ToStringInjective(v: int, w: int)
    requires ToString(v) == ToString(w)
    ensures v == w
  {
    var n, m := if v < 0 then -v else v, if w < 0 then -w else w;
    DigitsDenote(n);
    DigitsDenote(m);
    assert Digits(n)[0] != '-' && Digits(m)[0] != '-';
    if v < 0 {
      assert ToString(v)[0] == '-';
      assert ToString(v)[1..] == Digits(n) && ToString(w)[1..] == Digits(m);
    }
  }

  function PackageId(name: string, version: int): string {
    name + "@" + ToString(version)
  }

  lemma {:induction false} LaterAtIsInTail(n1: string, t1: string, n2: string, t2: string)
    requires n1 + "@" + t1 == n2 + "@" + t2
    ensures |n1| < |n2| ==> '@' in t1
  {
    var s := n1 + "@" + t1;
    if |n1| < |n2| {
      assert s[|n2|] == '@';
      assert s[|n1| + 1..] == t1;
      assert t1[|n2| - |n1| - 1] == '@';
    }
  }

  /** The last '@' of a package id separates name and version, so the id determines both,
      whatever characters the name holds. */
  lemma {:induction false} PackageIdInjective(n1: string, v1: int, n2: string, v2: int)
    requires PackageId(n1, v1) == PackageId(n2, v2)
    ensures n1 == n2 && v1 == v2
  {
    var s, t1, t2 := PackageId(n1, v1), ToString(v1), ToString(v2);
    LaterAtIsInTail(n1, t1, n2, t2);
    LaterAtIsInTail(n2, t2, n1, t1);
    assert s[..|n1|] == n1 && s[..|n2|] == n2;
    assert s[|n1| + 1..] == t1 && s[|n2| + 1..] == t2;
    ToStringInjective(v1, v2);
  }

  const APEX_ROOT := "/apex"

  /** apexd_private::GetPackageMountPoint. */
  function PackageMountPoint(name: string, version: int): string {
    APEX_ROOT + "/" + PackageId(name, version)
  }

  lemma {:induction false} AppendInjective(s: string, t: string, suffix: string)
    requires s + suffix == t + suffix
    ensures s == t
  {
    assert (s + suffix)[..|s|] == s && (t + suffix)[..|t|] == t;
  }
}
