/** Exact decimal numbers, standing in for the int64/float64 values that
    `pd.to_numeric` and `float(...)` produce: `Dec(m, k)` is m / 10^k. */
module Decimal {
  import opened Text

  datatype Dec = Dec(mantissa: int, scale: nat)

  function Pow10(k: nat): (r: nat)
    ensures r >= 1
  {
    if k == 0 then 1 else 10 * Pow10(k - 1)
  }

  function DigitChar(d: nat): (c: char)
    requires d < 10
    ensures IsDigit(c) && DigitValue(c) == d
  {
    ('0' as int + d) as char
  }

  // ------------------------------------------------------------ rendering

  /** The shortest digit string of n ("0" for zero). */
  function NatDigits(n: nat): (r: string)
    ensures |r| >= 1 && AllDigits(r) && DigitsValue(r) == n
  {
    if n < 10 then [DigitChar(n)]
    else
      var r := NatDigits(n / 10) + [DigitChar(n % 10)];
      assert r[..|r| - 1] == NatDigits(n / 10);
      r
  }

  /** Exactly k digits with value n, zero-padded on the left. */
  /** `int()` reads back the decimal rendering of every integer. */
  lemma PyIntRender(n: int)
    ensures PyInt(if n < 0 then "-" + NatDigits(-n) else NatDigits(n)) == Some(n)
  {
    if n < 0 {
      var ds := NatDigits(-n);
      PyIntAround("", "-", ds, "");
      EmptyUnits("-" + ds);
      EmptyUnits("-");
    } else {
      PyIntDigits(NatDigits(n));
    }
  }

  function PadDigits(n: nat, k: nat): (r: string)
    requires n < Pow10(k)
    ensures |r| == k && AllDigits(r) && DigitsValue(r) == n
  {
    if k == 0 then ""
    else
      var r := PadDigits(n / 10, k - 1) + [DigitChar(n % 10)];
      assert r[..|r| - 1] == PadDigits(n / 10, k - 1);
      r
  }

  function Abs(m: int): nat { if m < 0 then -m else m }

  /** Plain decimal notation: an optional "-", the integer digits, and for a
      positive scale a "." followed by exactly `scale` fraction digits. */
  function Render(d: Dec): string
  {
    var a := Abs(d.mantissa);
    var p := Pow10(d.scale);
    DivMod(a, p);
    var q, r := a / p, a % p;
    Sign(d) + NatDigits(q) + (if d.scale == 0 then "" else "." + PadDigits(r, d.scale))
  }

  function Sign(d: Dec): string { if d.mantissa < 0 then "-" else "" }

  // -------------------------------------------------------------- parsing

  /** The numeric strings pandas' `to_numeric` accepts once every character
      other than digits, `.`, `+` and `-` is gone: an optional sign, then
      digits with an optional fraction, with at least one digit in all
      ("5", "5.", ".362", "-12.5"); anything else is None. */
  function ParseNumber(s: string): (r: Option<Dec>)
  {
    var neg := s != [] && s[0] == '-';
    var body := if s != [] && (s[0] == '-' || s[0] == '+') then s[1..] else s;
    match ParseUnsigned(body)
    case None => None
    case Some(u) => Some(Dec(Signed(neg, u.0), u.1))
  }

  /** Digits, optionally a "." and more digits, at least one digit in all:
      the value of all the digits and the number of fraction digits. */
  function ParseUnsigned(body: string): Option<(nat, nat)>
  {
    var ip := LeadingDigits(body);
    var rest := body[|ip|..];
    if rest == [] then
      if ip == [] then None else Some((DigitsValue(ip), 0))
    else if rest[0] == '.' then
      var fp := LeadingDigits(rest[1..]);
      if |fp| == |rest| - 1 && |ip| + |fp| > 0 then Some((DigitsValue(ip + fp), |fp|))
      else None
    else None
  }

  function Signed(neg: bool, a: nat): int { if neg then -(a as int) else a }

  // --------------------------------------------------------------- lemmas

  lemma {:induction false} DigitsValueConcat(a: string, b: string)
    requires AllDigits(a) && AllDigits(b)
    ensures AllDigits(a + b)
    ensures DigitsValue(a + b) == DigitsValue(a) * Pow10(|b|) + DigitsValue(b)
  {
    if b == [] {
      EmptyUnits(a);
    } else {
      var b' := b[..|b| - 1];
      SnocParts(a, b);
      DigitsValueConcat(a, b');
      ShiftDigit(DigitsValue(a), Pow10(|b'|), DigitsValue(b'), DigitValue(b[|b| - 1]));
    }
  }

  lemma ShiftDigit(x: nat, p: nat, y: nat, d: nat)
    ensures (x * p + y) * 10 + d == x * (10 * p) + (y * 10 + d)
  {
  }

  lemma DivMod(a: nat, p: nat)
    requires p >= 1
    ensures 0 <= a / p && a % p < p && (a / p) * p + a % p == a
  {
  }

  lemma ParseUnsignedInteger(ip: string)
    requires |ip| >= 1 && AllDigits(ip)
    ensures ParseUnsigned(ip) == Some((DigitsValue(ip), 0))
  {
    LeadingDigitsAll(ip);
  }

  lemma ParseUnsignedFraction(ip: string, fp: string)
    requires |ip| >= 1 && AllDigits(ip) && |fp| >= 1 && AllDigits(fp)
    ensures ParseUnsigned(ip + "." + fp) == Some((DigitsValue(ip + fp), |fp|))
  {
    AroundParts(ip, '.', fp);
    LeadingDigitsRun(ip + "." + fp, |ip|);
    ConsParts('.', fp);
    LeadingDigitsAll(fp);
  }

  lemma ParseSigned(d: Dec, body: string)
    requires body != [] && IsDigit(body[0])
    requires ParseUnsigned(body) == Some((Abs(d.mantissa), d.scale))
    ensures ParseNumber(Sign(d) + body) == Some(d)
  {
    if d.mantissa < 0 {
      assert Sign(d) + body == ['-'] + body;
      ParseAfterMinus(body);
    } else {
      assert Sign(d) == [];
      EmptyUnits(body);
      ParseDigitFirst(body);
    }
  }

  /** A leading "-" negates what the rest parses to. */
  lemma ParseAfterMinus(body: string)
    ensures ParseNumber(['-'] + body) ==
      match ParseUnsigned(body)
      case None => None
      case Some(u) => Some(Dec(-(u.0 as int), u.1))
  {
    ConsParts('-', body);
  }

  /** Without a sign the text parses as an unsigned number. */
  lemma ParseDigitFirst(body: string)
    requires body != [] && IsDigit(body[0])
    ensures ParseNumber(body) ==
      match ParseUnsigned(body)
      case None => None
      case Some(u) => Some(Dec(u.0, u.1))
  {
  }

  /** Rendering then parsing gives the number back. */
  lemma ParseRender(d: Dec)
    ensures ParseNumber(Render(d)) == Some(d)
  {
    if d.scale == 0 {
      ParseRenderWhole(d);
    } else {
      ParseRenderFraction(d);
    }
  }

  lemma ParseRenderWhole(d: Dec)
    requires d.scale == 0
    ensures ParseNumber(Render(d)) == Some(d)
  {
    var a := Abs(d.mantissa);
    var ip := NatDigits(a / 1);
    assert Render(d) == Sign(d) + ip;
    ParseUnsignedInteger(ip);
    ParseSigned(d, ip);
  }

  lemma ParseRenderFraction(d: Dec)
    requires d.scale > 0
    ensures ParseNumber(Render(d)) == Some(d)
  {
    var a := Abs(d.mantissa);
    var p := Pow10(d.scale);
    DivMod(a, p);
    var q, r := a / p, a % p;
    var ip := NatDigits(q);
    var fp := PadDigits(r, d.scale);
    assert Render(d) == Sign(d) + (ip + "." + fp);
    ParseUnsignedFraction(ip, fp);
    DigitsValueConcat(ip, fp);
    assert (ip + "." + fp)[0] == ip[0];
    ParseSigned(d, ip + "." + fp);
  }

  /** Render uses only digits, "." and "-". */
  lemma RenderChars(d: Dec)
    ensures forall k :: 0 <= k < |Render(d)| ==> IsDigit(Render(d)[k]) || Render(d)[k] == '.' || Render(d)[k] == '-'
  {
    var a := Abs(d.mantissa);
    var p := Pow10(d.scale);
    DivMod(a, p);
    var q, r := a / p, a % p;
    var sign := Sign(d);
    var ip := NatDigits(q);
    var tail := if d.scale == 0 then "" else "." + PadDigits(r, d.scale);
    assert Render(d) == sign + ip + tail;
  }
}
