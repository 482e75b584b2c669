/** Character-level text handling shared by the writers and the reader of the
    result files: Python's `%d`, `%03d` and `%0.<p>f` formatting, `str.split`
    on one separator, `str.strip`, and parsers for the formats written. */
module Text {
  import opened Wrappers

  predicate IsDigit(c: char) { '0' <= c <= '9' }

  predicate AllDigits(s: string) { forall i :: 0 <= i < |s| ==> IsDigit(s[i]) }

  function DigitValue(c: char): nat
    requires IsDigit(c)
  {
    c as int - '0' as int
  }

  function DigitChar(d: nat): (c: char)
    requires d < 10
    ensures IsDigit(c) && DigitValue(c) == d
  {
    ('0' as int + d) as char
  }

  /** The number a string of decimal digits denotes; leading zeros are allowed, as `int()` allows them. */
  function DigitsValue(s: string): nat
    requires AllDigits(s)
  {
    if |s| == 0 then 0 else DigitsValue(s[..|s| - 1]) * 10 + DigitValue(s[|s| - 1])
  }

  function Pow10(p: nat): (r: nat)
    ensures r >= 1
  {
    if p == 0 then 1 else 10 * Pow10(p - 1)
  }

  /** `"%d" % n` for a non-negative integer: non-empty, all digits, denoting `n`. */
  function NatToString(n: nat): (s: string)
    ensures 1 <= |s| && AllDigits(s)
    ensures DigitsValue(s) == n
    ensures n > 0 ==> s[0] != '0'
  {
    if n < 10 then [DigitChar(n)]
    else
      var s := NatToString(n / 10) + [DigitChar(n % 10)];
      assert s[..|s| - 1] == NatToString(n / 10);
      s
  }

  /** A number below 10^p needs at most p digits. */
  lemma {:induction false} NatToStringLength(n: nat, p: nat)
    requires 1 <= p && n < Pow10(p)
    ensures |NatToString(n)| <= p
    decreases p
  {
    if n >= 10 {
      assert p >= 2;
      NatToStringLength(n / 10, p - 1);
    }
  }

  /** A leading zero does not change the value of a digit string. */
  lemma {:induction false} LeadingZero(s: string)
    requires AllDigits(s)
    ensures AllDigits("0" + s) && DigitsValue("0" + s) == DigitsValue(s)
    decreases |s|
  {
    var z := "0" + s;
    if |s| > 0 {
      assert z[..|z| - 1] == "0" + s[..|s| - 1];
      LeadingZero(s[..|s| - 1]);
    }
  }

  /** The `0` flag of `%0<width>d`: left-pads with zeros to at least `width` characters. */
  function ZeroPad(s: string, width: nat): (r: string)
    ensures |r| == if |s| >= width then |s| else width
    ensures AllDigits(s) ==> AllDigits(r) && DigitsValue(r) == DigitsValue(s)
    decreases width - |s|
  {
    if |s| >= width then s
    else
      if AllDigits(s) then LeadingZero(s); ZeroPad("0" + s, width) else ZeroPad("0" + s, width)
  }

  /** `"%03d" % n`: at least three digits, reading back as `n`. */
  function Pad3(n: nat): (s: string)
    ensures |s| >= 3 && AllDigits(s) && DigitsValue(s) == n
  {
    ZeroPad(NatToString(n), 3)
  }

  /** A value as `%0.<places>f` prints it: the sign, and the magnitude rounded to
      whole units of 10^-places. */
  datatype Decimal = Decimal(negative: bool, units: nat) {
    /** The printed value in units of 10^-places; a printed `-0.000` reads back as zero. */
    function Signed(): int {
      if negative then -(units as int) else units
    }
  }

  /** The text of `"%0.<places>f" % v` for the value `d` stands for. */
  function RenderFixed(d: Decimal, places: nat): string
    requires places >= 1
  {
    (if d.negative then "-" else "")
    + NatToString(WholeUnits(d.units, places)) + "."
    + ZeroPad(NatToString(d.units % Pow10(places)), places)
  }

  /** The whole part of a magnitude given in units of 10^-places. */
  function WholeUnits(u: nat, places: nat): (q: nat)
    ensures q == u / Pow10(places)
  {
    DivNonNegative(u, Pow10(places));
    u / Pow10(places)
  }

  lemma DivNonNegative(u: nat, p: nat)
    requires p >= 1
    ensures u / p >= 0 && u % p >= 0
  {
  }

  /** `digits.digits` with exactly `places` decimals, in units of 10^-places. */
  function ParseUnsigned(body: string, places: nat): Result<nat>
    requires places >= 1
  {
    if |body| < places + 2 then Err(NotANumber)
    else
      var whole := body[..|body| - places - 1];
      var frac := body[|body| - places..];
      if body[|body| - places - 1] != '.' || !AllDigits(whole) || !AllDigits(frac) then Err(NotANumber)
      else Ok(Units(DigitsValue(whole), DigitsValue(frac), Pow10(places)))
  }

  /** `whole.frac` in units of 1/scale. */
  function Units(whole: nat, frac: nat, scale: nat): nat {
    whole * scale + frac
  }

  /** A fixed-point number `[+|-]digits.digits`, in units of 10^-places. This is what
      `float()` computes on the strings `RenderFixed` produces. */
  function ParseFixed(s: string, places: nat): Result<int>
    requires places >= 1
  {
    if |s| > 0 && s[0] == '-' then
      var m :- ParseUnsigned(s[1..], places); Ok(-(m as int))
    else if |s| > 0 && s[0] == '+' then
      var m :- ParseUnsigned(s[1..], places); Ok(m)
    else
      var m :- ParseUnsigned(s, places); Ok(m)
  }

  lemma ParseUnsignedParts(whole: string, frac: string, places: nat)
    requires places >= 1 && |frac| == places
    requires 1 <= |whole| && AllDigits(whole) && AllDigits(frac)
    ensures ParseUnsigned(whole + "." + frac, places) == Ok(Units(DigitsValue(whole), DigitsValue(frac), Pow10(places)))
  {
    var body := whole + "." + frac;
    assert body[..|body| - places - 1] == whole;
    assert body[|body| - places..] == frac;
    assert body[|body| - places - 1] == '.';
    assert |body| >= places + 2;
    assert AllDigits(body[..|body| - places - 1]);
    assert AllDigits(body[|body| - places..]);
  }

  /** The sign in front of an unsigned body only decides the sign of the value. */
  lemma ParseFixedSign(sign: string, body: string, places: nat, m: nat)
    requires places >= 1 && ParseUnsigned(body, places) == Ok(m)
    requires sign == "" || sign == "-" || sign == "+"
    requires |body| > 0 && body[0] != '-' && body[0] != '+'
    ensures ParseFixed(sign + body, places) == Ok(if sign == "-" then -(m as int) else m)
  {
    if sign == "" {
      assert sign + body == body;
    } else {
      assert (sign + body)[0] == sign[0];
      assert (sign + body)[1..] == body;
    }
  }

  lemma UnitsDivMod(u: nat, scale: nat)
    requires scale >= 1
    ensures u == Units(u / scale, u % scale, scale)
  {
  }

  /** The fraction digits of a rendering: exactly `places` of them, denoting the remainder. */
  lemma FractionDigits(u: nat, places: nat)
    requires places >= 1
    ensures var f := ZeroPad(NatToString(u % Pow10(places)), places);
      |f| == places && AllDigits(f) && DigitsValue(f) == u % Pow10(places)
  {
    NatToStringLength(u % Pow10(places), places);
  }

  /** A rendered value reads back as the value printed; so does one with an explicit `+`. */
  lemma FixedRoundTrip(d: Decimal, places: nat)
    requires places >= 1
    ensures ParseFixed(RenderFixed(d, places), places) == Ok(d.Signed())
    ensures !d.negative ==> ParseFixed("+" + RenderFixed(d, places), places) == Ok(d.Signed())
  {
    var w := NatToString(WholeUnits(d.units, places));
    var f := ZeroPad(NatToString(d.units % Pow10(places)), places);
    var body := w + "." + f;
    var sign := if d.negative then "-" else "";
    assert RenderFixed(d, places) == sign + body;
    RenderedUnits(d.units, places);
    ParseUnsignedParts(w, f, places);
    assert body[0] == w[0];
    ParseFixedSign(sign, body, places, d.units);
    if !d.negative {
      ParseFixedSign("+", body, places, d.units);
    }
  }

  /** The digits of a rendering denote the magnitude rendered. */
  lemma RenderedUnits(u: nat, places: nat)
    requires places >= 1
    ensures var f := ZeroPad(NatToString(u % Pow10(places)), places);
      && |f| == places && AllDigits(f)
      && Units(DigitsValue(NatToString(WholeUnits(u, places))), DigitsValue(f), Pow10(places)) == u
  {
    FractionDigits(u, places);
    UnitsDivMod(u, Pow10(places));
  }

  /** `int(s)` for a string of ASCII digits. */
  function ParseNat(s: string): (r: Option<nat>)
    ensures r.Some? <==> |s| > 0 && AllDigits(s)
  {
    if |s| > 0 && AllDigits(s) then Some(DigitsValue(s)) else None
  }

  lemma Pad3RoundTrip(n: nat)
    ensures ParseNat(Pad3(n)) == Some(n)
  {
  }

  /** `s.split(sep)` for a one-character separator: the pieces between separators, never empty. */
  function Split(s: string, sep: char): (r: seq<string>)
    ensures |r| >= 1
    ensures forall i :: 0 <= i < |r| ==> sep !in r[i]
  {
    if |s| == 0 then [""]
    else
      var rest := Split(s[1..], sep);
      if s[0] == sep then [""] + rest else [[s[0]] + rest[0]] + rest[1..]
  }

  /** `sep.join(parts)`. */
  function Join(parts: seq<string>, sep: char): string
    requires |parts| >= 1
  {
    if |parts| == 1 then parts[0] else parts[0] + [sep] + Join(parts[1..], sep)
  }

  /** A separator splits the text in two independent halves. */
  lemma {:induction false} SplitAt(a: string, b: string, sep: char)
    ensures Split(a + [sep] + b, sep) == Split(a, sep) + Split(b, sep)
    decreases |a|
  {
    if |a| == 0 {
      assert a + [sep] + b == [sep] + b;
      assert ([sep] + b)[1..] == b;
    } else {
      assert (a + [sep] + b)[1..] == a[1..] + [sep] + b;
      SplitAt(a[1..], b, sep);
    }
  }

  lemma {:induction false} SplitNoSeparator(s: string, sep: char)
    requires sep !in s
    ensures Split(s, sep) == [s]
    decreases |s|
  {
    if |s| > 0 {
      assert sep !in s[1..] && s[0] != sep;
      SplitNoSeparator(s[1..], sep);
      assert [s[0]] + s[1..] == s;
    }
  }

  /** Joining pieces free of the separator and splitting again gives the pieces back. */
  lemma {:induction false} SplitJoin(parts: seq<string>, sep: char)
    requires |parts| >= 1
    requires forall i :: 0 <= i < |parts| ==> sep !in parts[i]
    ensures Split(Join(parts, sep), sep) == parts
    decreases |parts|
  {
    if |parts| == 1 {
      SplitNoSeparator(parts[0], sep);
    } else {
      SplitAt(parts[0], Join(parts[1..], sep), sep);
      SplitNoSeparator(parts[0], sep);
      SplitJoin(parts[1..], sep);
    }
  }

  /** The characters Python's `str.isspace` accepts; `str.strip()` and the regular
      expression class `\s` both use this set. */
  predicate IsSpace(c: char) {
    var n := c as int;
    n == 0x20 || 0x09 <= n <= 0x0d || 0x1c <= n <= 0x1f || n == 0x85 || n == 0xa0 || n == 0x1680
    || 0x2000 <= n <= 0x200a || n == 0x2028 || n == 0x2029 || n == 0x202f || n == 0x205f || n == 0x3000
  }

  /** `s.lstrip()`: the suffix after the leading white space. */
  function LStrip(s: string): (r: string)
    ensures |r| <= |s| && r == s[|s| - |r|..]
    ensures |r| == 0 || !IsSpace(r[0])
    ensures forall i :: 0 <= i < |s| - |r| ==> IsSpace(s[i])
  {
    if |s| > 0 && IsSpace(s[0]) then LStrip(s[1..]) else s
  }

  /** `s.rstrip()`: the prefix before the trailing white space. */
  function RStrip(s: string): (r: string)
    ensures |r| <= |s| && r == s[..|r|]
    ensures |r| == 0 || !IsSpace(r[|r| - 1])
    ensures forall i :: |r| <= i < |s| ==> IsSpace(s[i])
  {
    if |s| > 0 && IsSpace(s[|s| - 1]) then RStrip(s[..|s| - 1]) else s
  }

  /** `s.strip()`. */
  function Strip(s: string): string {
    RStrip(LStrip(s))
  }

  /** Text that is not empty and neither starts nor ends with white space. */
  predicate Unspaced(s: string) {
    |s| > 0 && !IsSpace(s[0]) && !IsSpace(s[|s| - 1])
  }

  /** Text that neither starts nor ends with white space is its own strip. */
  lemma StripUnspaced(s: string)
    requires |s| == 0 || (!IsSpace(s[0]) && !IsSpace(s[|s| - 1]))
    ensures Strip(s) == s
  {
  }

  /** Text that does not start with white space is its own `lstrip`. */
  lemma LStripUnspaced(s: string)
    requires |s| == 0 || !IsSpace(s[0])
    ensures LStrip(s) == s
  {
  }

  /** Trailing white space after unspaced text is all `rstrip` removes. */
  lemma {:induction false} RStripTrailing(s: string, tail: string)
    requires |s| > 0 && !IsSpace(s[|s| - 1])
    requires forall i :: 0 <= i < |tail| ==> IsSpace(tail[i])
    ensures RStrip(s + tail) == s
    decreases |tail|
  {
    if |tail| > 0 {
      assert (s + tail)[..|s + tail| - 1] == s + tail[..|tail| - 1];
      RStripTrailing(s, tail[..|tail| - 1]);
    }
  }

  /** Stripping a piece that ends in white space after unspaced text keeps the text. */
  lemma StripTrailing(s: string, tail: string)
    requires |s| > 0 && !IsSpace(s[0]) && !IsSpace(s[|s| - 1])
    requires forall i :: 0 <= i < |tail| ==> IsSpace(tail[i])
    ensures Strip(s + tail) == s
  {
    assert LStrip(s + tail) == s + tail;
    RStripTrailing(s, tail);
  }
}
