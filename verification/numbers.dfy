/** Numbers as the program writes and reads them: `int(...)` of a digit string,
    `f"{n}"` of an integer, `float(...)` of a decimal literal, and the two
    roundings it uses, `round(q)` of a quotient and `round(x, n)`.

    Python floats are modelled as exact reals: the binary representation and
    its rounding errors are not part of the model. */
module Numbers {
  import opened Wrappers
  import opened Text

  function DigitValue(c: char): nat
    requires IsDigit(c)
  {
    c as int - '0' as int
  }

  function DigitChar(d: nat): (c: char)
    requires d < 10
    ensures IsDigit(c) && DigitValue(c) == d
  {
    ('0' as int + d) as char
  }

  /** `int(ds)` for a string of ASCII digits (leading zeros allowed). */
  function DigitsValue(ds: string): nat
    requires AllDigits(ds)
    decreases |ds|
  {
    if ds == [] then 0 else DigitsValue(ds[..|ds| - 1]) * 10 + DigitValue(ds[|ds| - 1])
  }

  function Pow10(n: nat): (p: nat)
    ensures p >= 1
  {
    if n == 0 then 1 else 10 * Pow10(n - 1)
  }

  /** The digits of `n` in decimal, no leading zero: `str(n)` for `n >= 0`. */
  function NatToString(n: nat): (s: string)
    ensures |s| >= 1 && AllDigits(s)
    ensures DigitsValue(s) == n
    ensures |s| > 1 ==> s[0] != '0'
    decreases n
  {
    if n < 10 then [DigitChar(n)]
    else
      var s := NatToString(n / 10) + [DigitChar(n % 10)];
      assert s[..|s| - 1] == NatToString(n / 10);
      s
  }

  /** `f"{i}"` for an integer. */
  function IntToString(i: int): (s: string)
    ensures |s| >= 1
    ensures i >= 0 <==> s[0] != '-'
  {
    if i < 0 then "-" + NatToString(-i) else NatToString(i)
  }

  /** `int(s)` for the literals the model produces: optional `-`, then digits;
      anything else is rejected. */
  function ParseInt(s: string): (r: Option<int>)
    ensures r.Some? ==> |s| >= 1
  {
    if |s| >= 2 && s[0] == '-' && AllDigits(s[1..]) then Some(-(DigitsValue(s[1..]) as int))
    else if |s| >= 1 && AllDigits(s) then Some(DigitsValue(s))
    else None
  }

  /** Writing an integer and reading it back gives the integer. */
  lemma IntRoundTrip(i: int)
    ensures ParseInt(IntToString(i)) == Some(i)
  {
    var s := IntToString(i);
    if i < 0 {
      assert s[1..] == NatToString(-i);
      assert !AllDigits(s) by { assert !IsDigit(s[0]); }
    }
  }

  /** The value of a decimal literal `[-]whole[.frac]`: `float(...)` over the reals. */
  function DecimalValue(negative: bool, whole: string, frac: string): real
    requires AllDigits(whole) && AllDigits(frac)
  {
    var magnitude := DigitsValue(whole) as real + DigitsValue(frac) as real / Pow10(|frac|) as real;
    if negative then -magnitude else magnitude
  }

  /** `10 ** e` for a signed exponent, as a real. */
  function Scale10(e: int): (r: real)
    ensures r > 0.0
  {
    if e >= 0 then Pow10(e) as real else 1.0 / Pow10(-e) as real
  }

  /** The longest run of digits at the front of `s`, and what follows it. */
  function SpanDigits(s: string): (r: (string, string))
    ensures AllDigits(r.0) && r.0 + r.1 == s
    ensures r.1 == [] || !IsDigit(r.1[0])
    decreases |s|
  {
    if |s| > 0 && IsDigit(s[0]) then
      var (d, rest) := SpanDigits(s[1..]);
      assert [s[0]] + d + rest == s;
      ([s[0]] + d, rest)
    else ([], s)
  }

  /** An optional sign, and the text after it. */
  function Sign(s: string): (bool, string) {
    if |s| > 0 && (s[0] == '-' || s[0] == '+') then (s[0] == '-', s[1..]) else (false, s)
  }

  /** The exponent part `[eE][+-]digits` that must end the literal; `Some(0)` when
      there is no exponent part at all. */
  function Exponent(s: string): Option<int> {
    if s == [] then Some(0)
    else if s[0] != 'e' && s[0] != 'E' then None
    else
      var (neg, t) := Sign(s[1..]);
      if |t| >= 1 && AllDigits(t) then
        Some(if neg then -(DigitsValue(t) as int) else DigitsValue(t))
      else None
  }

  /** The mantissa `digits[.digits]` at the front of `u`, with at least one
      digit on some side of the point: its whole digits, its fraction digits
      and what follows it. */
  function Mantissa(u: string): (r: Option<(string, string, string)>)
    ensures r.Some? ==> AllDigits(r.value.0) && AllDigits(r.value.1)
    ensures r.Some? ==> exists i :: 0 <= i < |u| && IsDigit(u[i])
  {
    var (whole, afterWhole) := SpanDigits(u);
    var hasPoint := |afterWhole| > 0 && afterWhole[0] == '.';
    var (frac, tail) := if hasPoint then SpanDigits(afterWhole[1..]) else ([], afterWhole);
    if |whole| + |frac| == 0 then None
    else
      assert exists i :: 0 <= i < |u| && IsDigit(u[i]) by {
        if |whole| > 0 {
          assert u[0] == whole[0];
        } else {
          assert u[1] == afterWhole[1] == frac[0];
        }
      }
      Some((whole, frac, tail))
  }

  /** Python's `float(s)` for finite decimal literals: whitespace is dropped
      from both ends, one character at a time, and the rest read as a
      literal. */
  function ParseFloat(s: string): (r: Option<real>)
    ensures r.Some? ==> exists i :: 0 <= i < |s| && IsDigit(s[i])
    decreases |s|
  {
    if |s| > 0 && IsSpace(s[0]) then
      var r := ParseFloat(s[1..]);
      assert r.Some? ==> exists i :: 0 <= i < |s| && IsDigit(s[i]) by {
        if r.Some? {
          var i :| 0 <= i < |s[1..]| && IsDigit(s[1..][i]);
          assert s[i + 1] == s[1..][i];
        }
      }
      r
    else if |s| > 0 && IsSpace(s[|s| - 1]) then
      var r := ParseFloat(s[..|s| - 1]);
      assert r.Some? ==> exists i :: 0 <= i < |s| && IsDigit(s[i]) by {
        if r.Some? {
          var i :| 0 <= i < |s[..|s| - 1]| && IsDigit(s[..|s| - 1][i]);
          assert s[i] == s[..|s| - 1][i];
        }
      }
      r
    else ParseLiteral(s)
  }

  /** `float()` reads what `strip()` leaves. */
  lemma {:induction false} ParseFloatStrip(s: string)
    ensures ParseFloat(s) == ParseLiteral(Strip(s))
    decreases |s|
  {
    if |s| > 0 && IsSpace(s[0]) {
      ParseFloatStrip(s[1..]);
    } else if |s| > 0 && IsSpace(s[|s| - 1]) {
      ParseFloatStrip(s[..|s| - 1]);
    }
  }

  /** A literal without surrounding whitespace: a sign, a mantissa, an
      optional exponent. */
  function ParseLiteral(t: string): (r: Option<real>)
    ensures r.Some? ==> exists i :: 0 <= i < |t| && IsDigit(t[i])
  {
    var (neg, u) := Sign(t);
    match Mantissa(u)
    case None => None
    case Some((whole, frac, tail)) =>
      match Exponent(tail)
      case None => None
      case Some(e) =>
        assert exists i :: 0 <= i < |t| && IsDigit(t[i]) by {
          var i :| 0 <= i < |u| && IsDigit(u[i]);
          if u != t {
            assert u == t[1..];
            assert t[i + 1] == u[i];
          }
        }
        Some(DecimalValue(neg, whole, frac) * Scale10(e))
  }

  /** `float(str(n))` gives `n` back. */
  lemma {:induction false} ParseFloatNat(n: nat)
    ensures ParseFloat(NatToString(n)) == Some(n as real)
  {
    var s := NatToString(n);
    assert DecimalText(false, s, [], false) == s;
    assert DecimalValue(false, s, []) == n as real;
    ParseFloatDecimal(false, s, [], false);
  }

  /** The text `[-]whole[.frac]`. */
  function DecimalText(negative: bool, whole: string, frac: string, point: bool): string {
    (if negative then "-" else "") + whole + (if point then "." + frac else "")
  }

  /** `float()` of a plain decimal literal gives the value of its digits. */
  lemma ParseFloatDecimal(negative: bool, whole: string, frac: string, point: bool)
    requires |whole| >= 1 && AllDigits(whole) && AllDigits(frac)
    requires point ==> |frac| >= 1
    requires !point ==> frac == []
    ensures ParseFloat(DecimalText(negative, whole, frac, point)) == Some(DecimalValue(negative, whole, frac))
  {
    var sign := if negative then "-" else "";
    var after := if point then "." + frac else "";
    var u := whole + after;
    var s := DecimalText(negative, whole, frac, point);
    assert s == sign + u by {
      Assoc(sign, whole, after);
    }
    assert Stripped(s) by {
      assert s[0] == '-' || s[0] == whole[0];
      if point {
        assert s[|s| - 1] == frac[|frac| - 1];
      } else {
        assert s[|s| - 1] == whole[|whole| - 1];
      }
    }
    assert Sign(s) == (negative, u) by {
      assert u[0] == whole[0];
      SignOf(negative, u);
    }
    assert Mantissa(u) == Some((whole, frac, [])) by {
      MantissaOf(whole, frac, point);
    }
    ParseFloatStripped(s);
    LiteralParts(s, negative, u, whole, frac);
  }

  /** The mantissa of `whole[.frac]` is all of it. */
  lemma MantissaOf(whole: string, frac: string, point: bool)
    requires |whole| >= 1 && AllDigits(whole) && AllDigits(frac)
    requires point ==> |frac| >= 1
    requires !point ==> frac == []
    ensures Mantissa(whole + (if point then "." + frac else "")) == Some((whole, frac, []))
  {
    var after := if point then "." + frac else "";
    assert SpanDigits(whole + after) == (whole, after) by {
      DigitsSpan(whole, after);
    }
    if point {
      assert after[1..] == frac;
      assert SpanDigits(frac) == (frac, []) by {
        DigitsSpan(frac, []);
        assert frac + [] == frac;
      }
    }
  }

  /** A literal with a leading `-` or none splits into that sign and the rest. */
  lemma SignOf(negative: bool, u: string)
    requires |u| >= 1 && IsDigit(u[0])
    ensures Sign((if negative then "-" else "") + u) == (negative, u)
  {
    if negative {
      assert ("-" + u)[1..] == u;
    } else {
      assert "" + u == u;
    }
  }

  /** `float()` of a literal without surrounding whitespace reads the
      literal. */
  lemma ParseFloatStripped(s: string)
    requires Stripped(s)
    ensures ParseFloat(s) == ParseLiteral(s)
  {
  }

  /** A literal whose sign and mantissa are known and which has no exponent
      part. */
  lemma LiteralParts(t: string, negative: bool, u: string, whole: string, frac: string)
    requires Sign(t) == (negative, u)
    requires Mantissa(u) == Some((whole, frac, []))
    ensures ParseLiteral(t) == Some(DecimalValue(negative, whole, frac))
  {
    var v := DecimalValue(negative, whole, frac);
    assert ParseLiteral(t) == Some(v * Scale10(0)) by {
      assert Exponent([]) == Some(0);
    }
    assert v * Scale10(0) == v by {
      assert Scale10(0) == 1.0;
    }
  }

  /** The digit run of a string of digits is all of it. */
  lemma {:induction false} DigitsSpan(d: string, rest: string)
    requires AllDigits(d)
    requires rest == [] || !IsDigit(rest[0])
    ensures SpanDigits(d + rest) == (d, rest)
    decreases |d|
  {
    if d != [] {
      assert (d + rest)[1..] == d[1..] + rest;
      DigitsSpan(d[1..], rest);
      assert [d[0]] + d[1..] == d;
    } else {
      assert d + rest == rest;
    }
  }

  /** Python 3's `round(y)`: the nearest integer, ties to the even one. */
  function RoundHalfEven(y: real): (k: int)
    ensures -0.5 <= k as real - y <= 0.5
    ensures k as real - y == 0.5 || y - k as real == 0.5 ==> k % 2 == 0
  {
    var f := y.Floor;
    var d := y - f as real;
    if d < 0.5 then f
    else if d > 0.5 then f + 1
    else if f % 2 == 0 then f
    else f + 1
  }

  /** Rounding to the nearest multiple of `1/p`, ties to even: `round(x, n)` with
      `p = 10 ** n`. */
  function RoundAt(x: real, p: real): (r: real)
    requires p > 0.0
    ensures NearAt(r, x, p)
    ensures r * p == RoundHalfEven(x * p) as real
  {
    var k := RoundHalfEven(x * p);
    DivMul(k as real, p);
    k as real / p
  }

  lemma DivMul(a: real, p: real)
    requires p != 0.0
    ensures (a / p) * p == a
  {
  }

  /** `a` is `b` rounded to a multiple of `1/p`: within half of `1/p`. */
  predicate NearAt(a: real, b: real, p: real) {
    -0.5 <= (a - b) * p <= 0.5
  }

  /** `a` is `b` rounded to `n` decimals: within half a unit of the last
      decimal. */
  predicate Near(a: real, b: real, n: nat) {
    NearAt(a, b, Pow10(n) as real)
  }

  /** `round(x, n)` over the reals: round half to even at the n-th decimal. */
  function RoundTo(x: real, n: nat): (r: real)
    ensures Near(r, x, n)
  {
    RoundAt(x, Pow10(n) as real)
  }

  /** Rounding leaves a value that is already a multiple of `1/p` unchanged. */
  lemma RoundAtExact(x: real, p: real)
    requires p > 0.0
    requires (x * p).Floor as real == x * p
    ensures RoundAt(x, p) == x
  {
    var r := RoundAt(x, p);
    assert RoundHalfEven(x * p) as real == x * p;
    assert r * p == x * p;
  }

  /** Rounding twice at the same precision is rounding once: `round` is
      idempotent. */
  lemma RoundAtIdempotent(x: real, p: real)
    requires p > 0.0
    ensures RoundAt(RoundAt(x, p), p) == RoundAt(x, p)
  {
    var r := RoundAt(x, p);
    var k := RoundHalfEven(x * p);
    assert r * p == k as real;
    assert (k as real).Floor == k;
    RoundAtExact(r, p);
  }

  /** `round(round(x, n), n) == round(x, n)`. */
  lemma RoundToIdempotent(x: real, n: nat)
    ensures RoundTo(RoundTo(x, n), n) == RoundTo(x, n)
  {
    RoundAtIdempotent(x, Pow10(n) as real);
  }
}
