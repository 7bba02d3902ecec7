/** Decimal text and numbers: the integer and float `to_string`/`parse`
    pairs and the `{:.2}` formatting the program relies on, over ASCII.
    Floats are exact reals here; binary rounding is not modelled. */
module Numbers {
  import opened Wrappers
  import opened Text

  const I32_MIN: int := -0x8000_0000
  const I32_MAX: int := 0x7FFF_FFFF
  const I64_MIN: int := -0x8000_0000_0000_0000
  const I64_MAX: int := 0x7FFF_FFFF_FFFF_FFFF

  predicate IsDigit(c: char) {
    '0' <= c <= '9'
  }

  predicate AllDigits(s: string) {
    forall i :: 0 <= i < |s| ==> IsDigit(s[i])
  }

  function DigitValue(c: char): nat
    requires IsDigit(c)
  {
    c as int - '0' as int
  }

  function DigitChar(d: nat): (c: char)
    requires d < 10
    ensures IsDigit(c) && DigitValue(c) == d
  {
    ('0' as int + d) as char
  }

  /** The value of a string of decimal digits (0 for the empty string). */
  function DigitsValue(s: string): nat
    requires AllDigits(s)
  {
    if |s| == 0 then 0 else DigitsValue(s[..|s| - 1]) * 10 + DigitValue(s[|s| - 1])
  }

  function Pow10(k: nat): (p: nat)
    ensures p >= 1
  {
    if k == 0 then 1 else 10 * Pow10(k - 1)
  }

  /** Decimal text of a natural number without leading zeros; reading the
      digits back gives the number. */
  function NatText(n: nat): (r: string)
    ensures |r| >= 1 && AllDigits(r)
    ensures DigitsValue(r) == n
    ensures |r| > 1 ==> r[0] != '0'
  {
    if n < 10 then [DigitChar(n)]
    else
      var prefix := NatText(n / 10);
      var r := prefix + [DigitChar(n % 10)];
      assert r[..|r| - 1] == prefix;
      r
  }

  /** `i32::to_string` / `i64::to_string`: decimal text with a leading `-`
      for negative numbers. */
  function IntText(n: int): string {
    if n < 0 then "-" + NatText(-n) else NatText(n)
  }

  /** Rust's `str::parse` for a signed integer type whose range is
      `lo..=hi`: an optional `+` or `-`, then at least one ASCII digit and
      nothing else; a value outside the range is an error (`None`). */
  function ParseInt(s: string, lo: int, hi: int): (r: Option<int>)
    ensures r.Some? ==> lo <= r.value <= hi
    ensures r.Some? ==> |s| >= 1 && (IsDigit(s[0]) || s[0] == '-' || s[0] == '+')
  {
    if |s| == 0 then None
    else
      var body := if s[0] == '-' || s[0] == '+' then s[1..] else s;
      if |body| == 0 || !AllDigits(body) then None
      else
        var v: int := if s[0] == '-' then -(DigitsValue(body) as int) else DigitsValue(body);
        if lo <= v <= hi then Some(v) else None
  }

  function ParseI32(s: string): Option<int> {
    ParseInt(s, I32_MIN, I32_MAX)
  }

  function ParseI64(s: string): Option<int> {
    ParseInt(s, I64_MIN, I64_MAX)
  }

  /** Round trip: the text of an in-range integer parses back to it. */
  lemma {:induction false} ParseIntText(n: int, lo: int, hi: int)
    requires lo <= n <= hi
    ensures ParseInt(IntText(n), lo, hi) == Some(n)
  {
    var s := IntText(n);
    if n < 0 {
      assert s[1..] == NatText(-n);
    } else {
      var t := NatText(n);
      assert s == t && IsDigit(t[0]);
    }
  }

  /** The text of an integer outside the range does not parse in it. */
  lemma IntTextOutOfRange(n: int, lo: int, hi: int)
    requires n < lo || hi < n
    ensures ParseInt(IntText(n), lo, hi) == None
  {
    ParseIntText(n, n, n);
  }

  /** A text with a letter in it is never an integer. */
  lemma NonDigitIsNotInt(s: string, k: nat, lo: int, hi: int)
    requires 0 < k < |s| && !IsDigit(s[k])
    ensures ParseInt(s, lo, hi) == None
  {
    var body := if s[0] == '-' || s[0] == '+' then s[1..] else s;
    if s[0] == '-' || s[0] == '+' {
      assert body[k - 1] == s[k];
    } else {
      assert body[k] == s[k];
    }
  }

  /** The unsigned part of a float literal: digits, optionally a `.` and
      more digits, with at least one digit in all. */
  function UnsignedDecimal(s: string): Option<real> {
    if '.' in s then
      var i := IndexOf(s, '.');
      var ip := s[..i];
      var fp := s[i + 1..];
      if AllDigits(ip) && AllDigits(fp) && |ip| + |fp| > 0 then
        Some(DigitsValue(ip) as real + DigitsValue(fp) as real / Pow10(|fp|) as real)
      else None
    else if |s| > 0 && AllDigits(s) then Some(DigitsValue(s) as real)
    else None
  }

  /** `str::parse::<f64>` restricted to plain decimal literals: an optional
      sign, then digits with at most one `.`. */
  function ParseDecimal(s: string): (r: Option<real>)
    ensures r.Some? ==> |s| >= 1
  {
    if |s| == 0 then None
    else
      var body := if s[0] == '-' || s[0] == '+' then s[1..] else s;
      match UnsignedDecimal(body)
      case None => None
      case Some(v) => Some(if s[0] == '-' then -v else v)
  }

  /** A text with no digit at all is never a number (`"abc"`, `""`, `"-"`). */
  lemma {:induction false} NoDigitIsNotDecimal(s: string)
    requires forall i :: 0 <= i < |s| ==> !IsDigit(s[i])
    ensures ParseDecimal(s) == None
  {
    if |s| > 0 {
      var body := if s[0] == '-' || s[0] == '+' then s[1..] else s;
      assert forall i :: 0 <= i < |body| ==> !IsDigit(body[i]) by {
        forall i | 0 <= i < |body|
          ensures !IsDigit(body[i])
        {
          if s[0] == '-' || s[0] == '+' {
            assert body[i] == s[i + 1];
          } else {
            assert body[i] == s[i];
          }
        }
      }
      if '.' in body {
        var i := IndexOf(body, '.');
        var ip := body[..i];
        var fp := body[i + 1..];
        if |ip| > 0 {
          assert ip[0] == body[0];
        } else if |fp| > 0 {
          assert fp[0] == body[i + 1];
        }
      } else if |body| > 0 {
        assert !IsDigit(body[0]);
      }
    }
  }

  /** Round to the nearest integer, halves to the even neighbour. */
  function RoundHalfEven(x: real): (r: int)
    ensures x - 0.5 <= r as real <= x + 0.5
  {
    var f := x.Floor;
    var d := x - f as real;
    if d < 0.5 then f
    else if d > 0.5 then f + 1
    else if f % 2 == 0 then f else f + 1
  }

  /** Whole cents of `|p|` after rounding `{:.2}`-style. */
  function Cents(p: real): nat {
    var c := RoundHalfEven(if p < 0.0 then -p * 100.0 else p * 100.0);
    if c < 0 then 0 else c
  }

  /** The unsigned `{:.2}` text of `c` cents: whole units, a point and two
      decimals. */
  function Fixed2Body(c: nat): string {
    var cc := c % 100;
    NatText(c / 100) + "." + [DigitChar(cc / 10), DigitChar(cc % 10)]
  }

  /** `format!("{:.2}", p)`: sign, whole units, a point and exactly two
      decimals of the value rounded to cents. */
  function Fixed2Text(p: real): string {
    (if p < 0.0 then "-" else "") + Fixed2Body(Cents(p))
  }

  /** The value `{:.2}` shows: `p` rounded to cents. */
  function RoundCents(p: real): real {
    if p < 0.0 then -(Cents(p) as real / 100.0) else Cents(p) as real / 100.0
  }

  /** The unsigned body of a `{:.2}` text reads back as whole units plus cents. */
  lemma UnsignedFixed2(units: nat, cc: nat)
    requires cc < 100
    ensures UnsignedDecimal(NatText(units) + "." + [DigitChar(cc / 10), DigitChar(cc % 10)])
            == Some(units as real + cc as real / 100.0)
  {
    var ip := NatText(units);
    var fp := [DigitChar(cc / 10), DigitChar(cc % 10)];
    var body := ip + "." + fp;
    assert body[|ip|] == '.';
    assert body[..|ip|] == ip;
    IndexOfFirst(body, '.', |ip|);
    assert body[|ip| + 1..] == fp;
    assert fp[..1] == [DigitChar(cc / 10)];
    assert fp[..1][..0] == [];
    assert DigitsValue(fp[..1]) == cc / 10;
    assert DigitsValue(fp) == cc;
    assert Pow10(2) == 100;
  }

  lemma CentsSplit(c: nat)
    ensures (c / 100) as real + (c % 100) as real / 100.0 == c as real / 100.0
  {
    var q := c / 100;
    var r := c % 100;
    assert c == q * 100 + r;
    assert c as real == q as real * 100.0 + r as real;
  }

  /** A sign in front of an unsigned decimal body negates its value. */
  lemma ParseSigned(neg: bool, body: string)
    requires |body| > 0 && IsDigit(body[0])
    ensures ParseDecimal((if neg then "-" else "") + body)
            == match UnsignedDecimal(body)
               case None => None
               case Some(v) => Some(if neg then -v else v)
  {
    var s := (if neg then "-" else "") + body;
    if neg {
      assert s[0] == '-' && s[1..] == body;
    } else {
      assert s == body;
    }
  }

  /** A signed `{:.2}` body reads back as its number of cents over 100. */
  lemma ParseFixed2Body(neg: bool, c: nat)
    ensures ParseDecimal((if neg then "-" else "") + Fixed2Body(c))
            == Some(if neg then -(c as real / 100.0) else c as real / 100.0)
  {
    var cc := c % 100;
    var ip := NatText(c / 100);
    var body := Fixed2Body(c);
    UnsignedFixed2(c / 100, cc);
    CentsSplit(c);
    assert body[0] == ip[0];
    ParseSigned(neg, body);
  }

  /** Round trip through `{:.2}`: parsing the formatted text gives `p`
      rounded to cents (and `p` itself when it is a whole number of cents). */
  lemma ParseFixed2Text(p: real)
    ensures ParseDecimal(Fixed2Text(p)) == Some(RoundCents(p))
  {
    ParseFixed2Body(p < 0.0, Cents(p));
  }

  /** Digits of a fraction in [0, 1), at most `fuel` of them, stopping as
      soon as the rest is zero. */
  function FractionDigits(f: real, fuel: nat): (r: string)
    requires 0.0 <= f < 1.0
    ensures AllDigits(r) && |r| <= fuel
    decreases fuel
  {
    if fuel == 0 || f == 0.0 then ""
    else
      var x := f * 10.0;
      var d := x.Floor;
      [DigitChar(d)] + FractionDigits(x - d as real, fuel - 1)
  }

  /** `f64::to_string`: whole numbers print without a point (`-1`, `5`),
      other values print their decimal expansion (up to 17 fraction digits). */
  function RealText(p: real): string {
    var a := if p < 0.0 then -p else p;
    var n := a.Floor;
    var f := a - n as real;
    (if p < 0.0 then "-" else "") + NatText(n) + (if f == 0.0 then "" else "." + FractionDigits(f, 17))
  }

  /** A whole-number float prints exactly as the integer does. */
  lemma RealTextOfInt(n: int)
    ensures RealText(n as real) == IntText(n)
  {
    var p := n as real;
    var m: nat := if n < 0 then -n else n;
    var a := if p < 0.0 then -p else p;
    assert a == m as real;
    assert a.Floor == m;
    assert a - a.Floor as real == 0.0;
  }
}
