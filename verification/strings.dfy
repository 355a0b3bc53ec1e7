/** Character and string rules the two scripts rely on, on ASCII text:
    digits and `str.isdigit`, case mapping, `str.isspace`, the decimal
    formatting `{n:0Wd}`, the substring test `p in s` and `os.path.join`
    on POSIX paths. */
module Strings {

  predicate IsDigit(c: char) { '0' <= c <= '9' }

  predicate AllDigits(s: string) { forall i :: 0 <= i < |s| ==> IsDigit(s[i]) }

  predicate NoDigits(s: string) { forall i :: 0 <= i < |s| ==> !IsDigit(s[i]) }

  /** `s.isdigit()`: false on the empty string. */
  predicate IsDigitString(s: string) { s != [] && AllDigits(s) }

  function LowerChar(c: char): char {
    if 'A' <= c <= 'Z' then (c as int + 32) as char else c
  }

  function UpperChar(c: char): char {
    if 'a' <= c <= 'z' then (c as int - 32) as char else c
  }

  /** `s.lower()` */
  function Lower(s: string): string {
    seq(|s|, i requires 0 <= i < |s| => LowerChar(s[i]))
  }

  /** `s.upper()` */
  function Upper(s: string): string {
    seq(|s|, i requires 0 <= i < |s| => UpperChar(s[i]))
  }

  /** `c.isspace()` for an ASCII character: space, tab to carriage return,
      and the four separators 0x1C to 0x1F. */
  predicate IsSpace(c: char) {
    var k := c as int;
    k == 32 || 9 <= k <= 13 || 28 <= k <= 31
  }

  /** `s.strip()` is the empty string. */
  predicate IsBlank(s: string) { forall i :: 0 <= i < |s| ==> IsSpace(s[i]) }

  // ---------------------------------------------------------------------
  // Substring search
  // ---------------------------------------------------------------------

  predicate OccursAt(s: string, p: string, i: int) {
    0 <= i && i + |p| <= |s| && s[i..i + |p|] == p
  }

  /** Python's `p in s` on strings. */
  predicate Contains(s: string, p: string)
    decreases |s|
  {
    p <= s || (s != [] && Contains(s[1..], p))
  }

  /** `Contains` holds exactly when `p` occurs at some position of `s`. */
  lemma {:induction false} ContainsOccurs(s: string, p: string)
    ensures Contains(s, p) <==> exists i :: OccursAt(s, p, i)
    decreases |s|
  {
    if p <= s {
      assert s[0..|p|] == p;
      assert OccursAt(s, p, 0);
    } else if s != [] {
      ContainsOccurs(s[1..], p);
      if Contains(s[1..], p) {
        var i :| OccursAt(s[1..], p, i);
        assert s[i + 1..i + 1 + |p|] == s[1..][i..i + |p|];
        assert OccursAt(s, p, i + 1);
      }
      if exists i :: OccursAt(s, p, i) {
        var i :| OccursAt(s, p, i);
        assert i > 0;
        assert s[1..][i - 1..i - 1 + |p|] == s[i..i + |p|];
        assert OccursAt(s[1..], p, i - 1);
      }
    }
  }

  // ---------------------------------------------------------------------
  // min and max
  // ---------------------------------------------------------------------

  function Min(a: int, b: int): int { if a <= b then a else b }

  function Max(a: int, b: int): int { if a >= b then a else b }

  // ---------------------------------------------------------------------
  // Decimal numbers
  // ---------------------------------------------------------------------

  function DigitChar(d: nat): (c: char)
    requires d < 10
    ensures IsDigit(c)
  {
    ('0' as int + d) as char
  }

  /** `int(s)` for a string of ASCII digits (leading zeros allowed). */
  function DigitsValue(s: string): nat
    requires AllDigits(s)
    decreases |s|
  {
    if s == [] then 0
    else 10 * DigitsValue(s[..|s| - 1]) + (s[|s| - 1] as int - '0' as int)
  }

  /** `str(n)` for a natural number: the shortest decimal numeral. */
  function Digits(n: nat): (r: string)
    ensures IsDigitString(r) && DigitsValue(r) == n
    decreases n
  {
    if n < 10 then
      var r := [DigitChar(n)];
      assert r[..0] == [];
      r
    else
      var r := Digits(n / 10) + [DigitChar(n % 10)];
      assert r[..|r| - 1] == Digits(n / 10);
      r
  }

  function Zeros(k: nat): (z: string)
    ensures |z| == k && AllDigits(z)
  {
    seq(k, _ => '0')
  }

  /** Python's `f"{n:0{width}d}"`: an optional minus sign, then zeros up to
      `width` characters in all, then the digits of `|n|`. */
  function FormatInt(n: int, width: nat): string {
    var sign := if n < 0 then "-" else "";
    var d := Digits(if n < 0 then -n else n);
    var pad := width - |sign| - |d|;
    sign + Zeros(if pad > 0 then pad else 0) + d
  }

  /** A numeral as `FormatInt` writes it: an optional minus sign and a
      non-empty run of digits. */
  predicate IsNumeral(s: string) {
    if s != [] && s[0] == '-' then IsDigitString(s[1..]) else IsDigitString(s)
  }

  /** `int(s)` on a numeral. */
  function ParseInt(s: string): int
    requires IsNumeral(s)
  {
    if s != [] && s[0] == '-' then 0 - DigitsValue(s[1..]) as int else DigitsValue(s)
  }

  lemma {:induction false} ZerosValue(k: nat)
    ensures DigitsValue(Zeros(k)) == 0
  {
    if k > 0 {
      assert Zeros(k)[..k - 1] == Zeros(k - 1);
      ZerosValue(k - 1);
    }
  }

  /** Leading zeros do not change the value of a digit string. */
  lemma {:induction false} LeadingZerosValue(k: nat, d: string)
    requires AllDigits(d)
    ensures AllDigits(Zeros(k) + d) && DigitsValue(Zeros(k) + d) == DigitsValue(d)
    decreases |d|
  {
    var z := Zeros(k) + d;
    assert AllDigits(z);
    if d == [] {
      assert z == Zeros(k);
      ZerosValue(k);
    } else {
      assert z[..|z| - 1] == Zeros(k) + d[..|d| - 1];
      LeadingZerosValue(k, d[..|d| - 1]);
    }
  }

  /** A non-negative number is written as digits only, at least `width` of
      them, and reads back as itself. */
  lemma FormatNonNegative(n: int, width: nat)
    requires n >= 0
    ensures IsDigitString(FormatInt(n, width))
    ensures DigitsValue(FormatInt(n, width)) == n
    ensures |FormatInt(n, width)| == if width > |Digits(n)| then width else |Digits(n)|
  {
    var d := Digits(n);
    var pad := width - |d|;
    var k := if pad > 0 then pad else 0;
    assert FormatInt(n, width) == Zeros(k) + d;
    LeadingZerosValue(k, d);
  }

  /** `int(f"{n:0{width}d}") == n`: formatting is undone by parsing, for
      every integer and every width. */
  lemma FormatParseRoundTrip(n: int, width: nat)
    ensures IsNumeral(FormatInt(n, width))
    ensures ParseInt(FormatInt(n, width)) == n
  {
    if n >= 0 {
      FormatNonNegative(n, width);
    } else {
      var d := Digits(-n);
      var pad := width - 1 - |d|;
      var k := if pad > 0 then pad else 0;
      var s := FormatInt(n, width);
      assert s == "-" + (Zeros(k) + d);
      assert s[1..] == Zeros(k) + d;
      LeadingZerosValue(k, d);
    }
  }

  /** Different numbers never share a formatted name. */
  lemma FormatInjective(a: int, b: int, width: nat)
    requires FormatInt(a, width) == FormatInt(b, width)
    ensures a == b
  {
    FormatParseRoundTrip(a, width);
    FormatParseRoundTrip(b, width);
  }

  // ---------------------------------------------------------------------
  // Paths
  // ---------------------------------------------------------------------

  /** `posixpath.join(dir, name)` for two components. */
  function JoinPath(dir: string, name: string): string {
    if name != [] && name[0] == '/' then name
    else if dir == [] || dir[|dir| - 1] == '/' then dir + name
    else dir + "/" + name
  }

  /** Joining one directory with two relative names gives two different
      paths when the names differ. */
  lemma JoinInjective(dir: string, a: string, b: string)
    requires a == [] || a[0] != '/'
    requires b == [] || b[0] != '/'
    requires JoinPath(dir, a) == JoinPath(dir, b)
    ensures a == b
  {
    var pre := if dir == [] || dir[|dir| - 1] == '/' then dir else dir + "/";
    assert JoinPath(dir, a) == pre + a && JoinPath(dir, b) == pre + b;
    assert a == (pre + a)[|pre|..];
    assert b == (pre + b)[|pre|..];
  }
}
