/**
 * The pieces of the C library the read path leans on, stated as functions on
 * character sequences: strchr, the C-locale tolower behind strncasecmp, the
 * C-locale isspace and unsigned decimal conversion of sscanf's white space
 * and %lu, and the decimal text printf writes for %llu.
 */
module LibcText {

  datatype Option<+T> = None | Some(value: T)

  predicate IsDigit(c: char) { '0' <= c <= '9' }

  /** isspace in the C locale: space, \t, \n, \v, \f and \r. */
  predicate IsSpace(c: char) { c == ' ' || '\t' <= c <= '\r' }

  predicate AllDigits(s: seq<char>) { forall i :: 0 <= i < |s| ==> IsDigit(s[i]) }

  predicate AllSpace(s: seq<char>) { forall i :: 0 <= i < |s| ==> IsSpace(s[i]) }

  /** tolower in the C locale: only 'A'..'Z' change. */
  function ToLower(c: char): (r: char)
    ensures 'A' <= c <= 'Z' ==> 'a' <= r <= 'z' && r as int == c as int + 32
    ensures !('A' <= c <= 'Z') ==> r == c
  {
    if 'A' <= c <= 'Z' then (c as int + 32) as char else c
  }

  /** strncasecmp(a, b, |b|) == 0, for an `a` with no NUL in its first |b| characters. */
  predicate EqualsIgnoreCase(a: seq<char>, b: seq<char>)
  {
    |a| == |b| && forall i :: 0 <= i < |a| ==> ToLower(a[i]) == ToLower(b[i])
  }

  /** strchr: the index of the first occurrence of `c` in `s`, if any. */
  function StrChr(s: seq<char>, c: char): (r: Option<nat>)
    ensures r.None? <==> c !in s
    ensures r.Some? ==> r.value < |s| && s[r.value] == c && c !in s[..r.value]
  {
    if s == [] then None
    else if s[0] == c then Some(0)
    else match StrChr(s[1..], c)
      case None => None
      case Some(i) => Some(i + 1)
  }

  function DigitChar(d: nat): (c: char)
    requires d < 10
    ensures IsDigit(c)
  {
    ('0' as int + d) as char
  }

  function DigitValue(c: char): (d: nat)
    requires IsDigit(c)
    ensures d < 10 && DigitChar(d) == c
  {
    c as int - '0' as int
  }

  /** The text printf's %lu and %llu produce for `n`: most significant digit first. */
  function Decimal(n: nat): (s: seq<char>)
    ensures 1 <= |s| && AllDigits(s)
  {
    if n < 10 then [DigitChar(n)] else Decimal(n / 10) + [DigitChar(n % 10)]
  }

  /** The number a string of decimal digits denotes. */
  function ValueOf(s: seq<char>): nat
    requires AllDigits(s)
  {
    if s == [] then 0 else 10 * ValueOf(s[..|s| - 1]) + DigitValue(s[|s| - 1])
  }

  lemma {:induction false} DecimalValue(n: nat)
    ensures ValueOf(Decimal(n)) == n
  {
    if n >= 10 {
      DecimalValue(n / 10);
      var s := Decimal(n);
      assert s[..|s| - 1] == Decimal(n / 10);
    }
  }

  /** The length of the longest prefix of `s` made of digits. */
  function LeadingDigits(s: seq<char>): (k: nat)
    ensures k <= |s| && AllDigits(s[..k])
    ensures k < |s| ==> !IsDigit(s[k])
  {
    if s == [] || !IsDigit(s[0]) then 0
    else
      var k := 1 + LeadingDigits(s[1..]);
      assert s[..k] == [s[0]] + s[1..][..k - 1];
      k
  }

  lemma {:induction false} LeadingDigitsOfAppend(d: seq<char>, rest: seq<char>)
    requires AllDigits(d)
    requires rest == [] || !IsDigit(rest[0])
    ensures LeadingDigits(d + rest) == |d|
  {
    if d != [] {
      assert (d + rest)[1..] == d[1..] + rest;
      LeadingDigitsOfAppend(d[1..], rest);
    }
  }

  /** What a whitespace directive of scanf consumes: all leading white space. */
  function SkipSpace(s: seq<char>): (t: seq<char>)
    ensures |t| <= |s|
    ensures t == [] || !IsSpace(t[0])
  {
    if s == [] || !IsSpace(s[0]) then s
    else SkipSpace(s[1..])
  }

  lemma {:induction false} SkipSpaceOfAppend(sp: seq<char>, t: seq<char>)
    requires AllSpace(sp)
    requires t == [] || !IsSpace(t[0])
    ensures SkipSpace(sp + t) == t
  {
    if sp != [] {
      assert (sp + t)[1..] == sp[1..] + t;
      SkipSpaceOfAppend(sp[1..], t);
    }
  }

  datatype Scanned = Scanned(value: nat, rest: seq<char>)

  /**
   * One %lu conversion: skip white space, then take the longest run of
   * digits, which must not be empty.  Signs and values beyond unsigned long
   * are not modelled.
   */
  function ScanNat(s: seq<char>): (r: Option<Scanned>)
  {
    var t := SkipSpace(s);
    var k := LeadingDigits(t);
    if k == 0 then None else Some(Scanned(ValueOf(t[..k]), t[k..]))
  }

  /** %lu reads back exactly the number %lu printed, whatever white space precedes it. */
  lemma ScanDecimal(sp: seq<char>, n: nat, rest: seq<char>)
    requires AllSpace(sp)
    requires rest == [] || !IsDigit(rest[0])
    ensures ScanNat(sp + Decimal(n) + rest) == Some(Scanned(n, rest))
  {
    var d := Decimal(n);
    assert sp + d + rest == sp + (d + rest);
    assert !IsSpace((d + rest)[0]);
    SkipSpaceOfAppend(sp, d + rest);
    LeadingDigitsOfAppend(d, rest);
    assert (d + rest)[..|d|] == d;
    assert (d + rest)[|d|..] == rest;
    DecimalValue(n);
  }

  lemma ScanDecimalNoSpace(n: nat, rest: seq<char>)
    requires rest == [] || !IsDigit(rest[0])
    ensures ScanNat(Decimal(n) + rest) == Some(Scanned(n, rest))
  {
    var e: seq<char> := [];
    assert e + Decimal(n) + rest == Decimal(n) + rest;
    ScanDecimal(e, n, rest);
  }
}
