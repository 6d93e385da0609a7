/**
 * JavaScript's `parseInt(x)` (no radix), the `parseInt(x) || d` defaulting idiom
 * every handler uses for ids, pages and limits, and decimal rendering of naturals
 * (template literals such as `${n}` and the ids the client puts into URLs).
 */
module Numbers {
  import opened Wrappers
  import Text

  predicate IsDigitIn(c: char, radix: nat) {
    || ('0' <= c <= '9' && (c as int - '0' as int) < radix)
    || (radix == 16 && ('a' <= c <= 'f' || 'A' <= c <= 'F'))
  }

  function DigitOf(c: char, radix: nat): (v: nat)
    requires IsDigitIn(c, radix)
    ensures v < radix
  {
    if '0' <= c <= '9' then c as int - '0' as int
    else if 'a' <= c <= 'f' then c as int - 'a' as int + 10
    else c as int - 'A' as int + 10
  }

  predicate AllDigits(s: string, radix: nat) {
    forall i :: 0 <= i < |s| ==> IsDigitIn(s[i], radix)
  }

  /** The longest prefix of `s` made of digits of the radix. */
  function LeadingDigits(s: string, radix: nat): (r: string)
    ensures r <= s && AllDigits(r, radix)
    ensures |r| < |s| ==> !IsDigitIn(s[|r|], radix)
  {
    if s == [] || !IsDigitIn(s[0], radix) then [] else [s[0]] + LeadingDigits(s[1..], radix)
  }

  /** Positional value of a digit string, most significant digit first. */
  function ValueOf(ds: string, radix: nat): nat
    requires AllDigits(ds, radix)
  {
    if ds == [] then 0 else ValueOf(ds[..|ds| - 1], radix) * radix + DigitOf(ds[|ds| - 1], radix)
  }

  /**
   * `parseInt(s)` with no radix: skip leading whitespace, take one optional sign,
   * a `0x`/`0X` prefix switches to base 16, then read the longest run of digits;
   * no digit at all is NaN, which is `None` here.
   */
  function ParseInt(s: string): (r: Option<int>)
    ensures r.None? <==> Digits(s) == []
    ensures r.Some? && Sign(s) == 1 ==> r.value >= 0
    ensures r.Some? && Sign(s) == -1 ==> r.value <= 0
  {
    var ds := Digits(s);
    if ds == [] then None else Some(Sign(s) * ValueOf(ds, Radix(s)))
  }

  function Unsigned(s: string): string {
    var t := Text.TrimStart(s);
    if |t| > 0 && (t[0] == '-' || t[0] == '+') then t[1..] else t
  }

  function Sign(s: string): int {
    var t := Text.TrimStart(s);
    if |t| > 0 && t[0] == '-' then -1 else 1
  }

  predicate HexPrefixed(u: string) {
    |u| >= 2 && u[0] == '0' && (u[1] == 'x' || u[1] == 'X')
  }

  function Radix(s: string): nat {
    if HexPrefixed(Unsigned(s)) then 16 else 10
  }

  function Digits(s: string): (ds: string)
    ensures AllDigits(ds, Radix(s))
  {
    var u := Unsigned(s);
    LeadingDigits(if HexPrefixed(u) then u[2..] else u, Radix(s))
  }

  /** `parseInt(param) || d`: a missing parameter, NaN and 0 all give `d`. */
  function IntOr(param: Option<string>, d: int): (r: int)
    ensures d != 0 ==> r != 0
    ensures param.None? ==> r == d
    ensures param.Some? && ParseInt(param.value) in {None, Some(0)} ==> r == d
    ensures param.Some? && ParseInt(param.value).Some? && ParseInt(param.value).value != 0 ==>
              r == ParseInt(param.value).value
  {
    match param
    case None => d
    case Some(s) =>
      match ParseInt(s)
      case None => d
      case Some(n) => if n == 0 then d else n
  }

  /** `!parseInt(s)`: the handlers' "invalid id" test (NaN or zero). */
  predicate FalsyId(s: string) {
    ParseInt(s) == None || ParseInt(s) == Some(0)
  }

  function DigitChar(d: nat): (c: char)
    requires d < 10
    ensures IsDigitIn(c, 10) && DigitOf(c, 10) == d
  {
    ('0' as int + d) as char
  }

  /** Decimal rendering of a natural, as `String(n)` gives it. */
  function Decimal(n: nat): (r: string)
    ensures |r| >= 1 && AllDigits(r, 10)
    ensures n > 0 ==> r[0] != '0'
    ensures ValueOf(r, 10) == n
  {
    if n < 10 then [DigitChar(n)]
    else
      var r := Decimal(n / 10) + [DigitChar(n % 10)];
      assert r[..|r| - 1] == Decimal(n / 10);
      r
  }

  /** The digit run of a digit string followed by a non-digit is that digit string. */
  lemma {:induction false} LeadingDigitsThen(d: string, rest: string)
    requires AllDigits(d, 10) && (rest != [] ==> !IsDigitIn(rest[0], 10))
    ensures LeadingDigits(d + rest, 10) == d
  {
    if d != [] {
      assert (d + rest)[0] == d[0];
      assert (d + rest)[1..] == d[1..] + rest;
      LeadingDigitsThen(d[1..], rest);
    } else {
      assert d + rest == rest;
    }
  }

  /**
   * `parseInt` stops at the first character that is not a digit: a rendered natural
   * followed by text that starts with neither a digit nor `x` reads back the natural.
   */
  lemma ParseDecimalThen(n: nat, rest: string)
    requires rest != [] ==> !IsDigitIn(rest[0], 10) && rest[0] != 'x' && rest[0] != 'X'
    ensures ParseInt(Decimal(n) + rest) == Some(n)
  {
    ParseDigitsThen(Decimal(n), rest);
  }

  /** A decimal digit string followed by a non-digit other than `x` parses to its value. */
  lemma ParseDigitsThen(d: string, rest: string)
    requires |d| >= 1 && AllDigits(d, 10)
    requires rest != [] ==> !IsDigitIn(rest[0], 10) && rest[0] != 'x' && rest[0] != 'X'
    ensures ParseInt(d + rest) == Some(ValueOf(d, 10))
  {
    var s := d + rest;
    var c := s[0];
    assert c == d[0];
    assert IsDigitIn(c, 10);
    assert '0' <= c <= '9';
    assert !Text.IsSpace(c);
    assert Text.TrimStart(s) == s;
    assert c != '-' && c != '+';
    assert Unsigned(s) == s;
    if |s| >= 2 {
      var c1 := s[1];
      assert c1 == if |d| >= 2 then d[1] else rest[0];
      assert c1 != 'x' && c1 != 'X';
    }
    assert !HexPrefixed(s);
    assert Radix(s) == 10;
    LeadingDigitsThen(d, rest);
    assert Digits(s) == d;
    assert Sign(s) == 1;
    assert ValueOf(Digits(s), Radix(s)) == ValueOf(d, 10);
  }

  /** Reading back a rendered natural gives the natural: ids survive the trip through a URL. */
  lemma ParseDecimal(n: nat)
    ensures ParseInt(Decimal(n)) == Some(n)
  {
    var s := Decimal(n);
    assert Text.TrimStart(s) == s;
    assert Unsigned(s) == s;
    assert !HexPrefixed(s);
    var ds := LeadingDigits(s, 10);
    assert |ds| == |s|;
    assert ds == s;
  }
}
