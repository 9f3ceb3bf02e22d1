/** The unanchored `re.search(r"key=(token)", line)` the control panels use to
    pick single fields out of a status line (RPM.py, test/T2.py): the leftmost
    position where the key is followed by a token, and the token the greedy
    pattern takes there. */
module Search {
  import opened Wrappers
  import opened Text
  import opened Numbers

  /** The token patterns: `\d+`, `-?\d+`, `(0|1)` and `[0-9]+(\.[0-9]+)?`. */
  datatype Token = Unsigned | Signed | Bit | Number

  /** A matched token `[-]whole[.frac]`. */
  datatype Lexeme = Lexeme(negative: bool, whole: string, frac: string, point: bool)

  /** The text of a lexeme: the regex group. */
  function Group(x: Lexeme): string {
    DecimalText(x.negative, x.whole, x.frac, x.point)
  }

  predicate ValidLexeme(x: Lexeme) {
    && |x.whole| >= 1 && AllDigits(x.whole) && AllDigits(x.frac)
    && (x.point ==> |x.frac| >= 1)
    && (!x.point ==> x.frac == [])
  }

  /** The greedy `\d+` at the start of `s`: the whole leading digit run. */
  function UnsignedAt(s: string): (r: Option<Lexeme>)
    ensures r.None? <==> |s| == 0 || !IsDigit(s[0])
    ensures r.Some? ==> ValidLexeme(r.value) && !r.value.negative && !r.value.point
    ensures r.Some? ==> StartsWith(s, Group(r.value))
    ensures r.Some? ==> |s| > |Group(r.value)| ==> !IsDigit(s[|Group(r.value)|])
  {
    var (d, rest) := SpanDigits(s);
    if d == [] then None
    else
      assert Group(Lexeme(false, d, [], false)) == d;
      Some(Lexeme(false, d, [], false))
  }

  /** `-?\d+`: the `-` is taken only when a digit follows it; after a `-`
      without digits the pattern does not match here at all. */
  function SignedAt(s: string): (r: Option<Lexeme>)
    ensures r.None? <==> !(|s| >= 1 && IsDigit(s[0])) && !(|s| >= 2 && s[0] == '-' && IsDigit(s[1]))
    ensures r.Some? ==> ValidLexeme(r.value) && !r.value.point
    ensures r.Some? ==> (r.value.negative <==> s[0] == '-')
    ensures r.Some? ==> StartsWith(s, Group(r.value))
    ensures r.Some? ==> |s| > |Group(r.value)| ==> !IsDigit(s[|Group(r.value)|])
  {
    if |s| >= 1 && s[0] == '-' then
      var (d, rest) := SpanDigits(s[1..]);
      if d == [] then None
      else
        NegativeText(s, d, rest);
        Some(Lexeme(true, d, [], false))
    else UnsignedAt(s)
  }

  /** `(0|1)`. */
  function BitAt(s: string): (r: Option<Lexeme>)
    ensures r.None? <==> |s| == 0 || (s[0] != '0' && s[0] != '1')
    ensures r.Some? ==> ValidLexeme(r.value) && !r.value.negative && !r.value.point
    ensures r.Some? ==> r.value.whole == [s[0]] && Group(r.value) == [s[0]]
  {
    if |s| >= 1 && (s[0] == '0' || s[0] == '1') then
      assert Group(Lexeme(false, [s[0]], [], false)) == [s[0]];
      Some(Lexeme(false, [s[0]], [], false))
    else None
  }

  /** `[0-9]+(\.[0-9]+)?`: the fraction is taken only when a digit follows the
      point. */
  function NumberAt(s: string): (r: Option<Lexeme>)
    ensures r.None? <==> |s| == 0 || !IsDigit(s[0])
    ensures r.Some? ==> ValidLexeme(r.value) && !r.value.negative
    ensures r.Some? ==> StartsWith(s, Group(r.value))
    ensures r.Some? ==> |s| > |Group(r.value)| ==> !IsDigit(s[|Group(r.value)|])
    ensures r.Some? && !r.value.point ==> !(|s| > |r.value.whole| + 1 && s[|r.value.whole|] == '.' && IsDigit(s[|r.value.whole| + 1]))
  {
    var (d, rest) := SpanDigits(s);
    if d == [] then None
    else if |rest| >= 2 && rest[0] == '.' && IsDigit(rest[1]) then
      var (f, tail) := SpanDigits(rest[1..]);
      NumberText(s, d, rest, f, tail);
      Some(Lexeme(false, d, f, true))
    else
      assert Group(Lexeme(false, d, [], false)) == d;
      assert s[|d|..] == rest;
      Some(Lexeme(false, d, [], false))
  }

  /** The token the pattern `k` matches at the start of `s`, if any. */
  function TokenAt(k: Token, s: string): (r: Option<Lexeme>)
    ensures r.Some? ==> ValidLexeme(r.value) && StartsWith(s, Group(r.value))
    ensures r.Some? && k != Signed ==> !r.value.negative
    ensures r.Some? && k != Number ==> !r.value.point
  {
    match k
    case Unsigned => UnsignedAt(s)
    case Signed => SignedAt(s)
    case Bit => BitAt(s)
    case Number => NumberAt(s)
  }

  lemma NegativeText(s: string, d: string, rest: string)
    requires |s| >= 1 && s[0] == '-' && d + rest == s[1..]
    ensures s == Group(Lexeme(true, d, [], false)) + rest
  {
    assert Group(Lexeme(true, d, [], false)) == "-" + d;
    Assoc("-", d, rest);
  }

  lemma NumberText(s: string, d: string, rest: string, f: string, tail: string)
    requires d + rest == s && |rest| >= 1 && rest[0] == '.' && f + tail == rest[1..]
    ensures s == Group(Lexeme(false, d, f, true)) + tail
  {
    assert rest == "." + f + tail;
    Assoc(d, "." + f, tail);
    Assoc(".", f, tail);
  }

  /** The group of a match of `key` followed by the token, starting at `p`. */
  function GroupAt(line: string, key: string, k: Token, p: nat): Option<Lexeme> {
    if OccursAt(line, key, p) then TokenAt(k, line[p + |key|..]) else None
  }

  /** `re.search` from position `from` on. */
  function SearchFrom(line: string, key: string, k: Token, from: nat): (r: Option<Lexeme>)
    ensures r.Some? ==> exists p: nat :: (from <= p && GroupAt(line, key, k, p) == r &&
      forall q: nat :: from <= q < p ==> GroupAt(line, key, k, q).None?)
    ensures r.None? ==> forall p: nat :: from <= p ==> GroupAt(line, key, k, p).None?
    ensures r.Some? ==> ValidLexeme(r.value) && (k != Signed ==> !r.value.negative) && (k != Number ==> !r.value.point)
    decreases |line| - from
  {
    if from > |line| then None
    else if GroupAt(line, key, k, from).Some? then GroupAt(line, key, k, from)
    else SearchFrom(line, key, k, from + 1)
  }

  /** `re.search(key + token, line)`: the group of the leftmost match. */
  function Search(line: string, key: string, k: Token): (r: Option<Lexeme>)
    ensures r.Some? ==> exists p: nat :: (GroupAt(line, key, k, p) == r &&
      forall q: nat :: q < p ==> GroupAt(line, key, k, q).None?)
    ensures r.None? <==> forall p: nat :: GroupAt(line, key, k, p).None?
    ensures r.Some? ==> ValidLexeme(r.value) && (k != Signed ==> !r.value.negative) && (k != Number ==> !r.value.point)
  {
    SearchFrom(line, key, k, 0)
  }

  /** The first position where the key and a token match decides the result. */
  lemma SearchLeftmost(line: string, key: string, k: Token, p: nat)
    requires GroupAt(line, key, k, p).Some?
    requires forall q: nat :: q < p ==> GroupAt(line, key, k, q).None?
    ensures Search(line, key, k) == GroupAt(line, key, k, p)
  {
    SearchFromLeftmost(line, key, k, 0, p);
  }

  lemma {:induction false} SearchFromLeftmost(line: string, key: string, k: Token, from: nat, p: nat)
    requires from <= p && GroupAt(line, key, k, p).Some?
    requires forall q: nat :: from <= q < p ==> GroupAt(line, key, k, q).None?
    ensures SearchFrom(line, key, k, from) == GroupAt(line, key, k, p)
    decreases p - from
  {
    if from < p {
      assert GroupAt(line, key, k, from).None?;
      SearchFromLeftmost(line, key, k, from + 1, p);
    }
  }

  /** `int(m.group(1))`. */
  function IntOf(x: Lexeme): int
    requires AllDigits(x.whole)
  {
    if x.negative then -(DigitsValue(x.whole) as int) else DigitsValue(x.whole)
  }

  /** `float(m.group(1))`. */
  function RealOf(x: Lexeme): real
    requires AllDigits(x.whole) && AllDigits(x.frac)
  {
    DecimalValue(x.negative, x.whole, x.frac)
  }

  /** `int()` of an integer group reads the value `IntOf` gives. */
  lemma IntOfText(x: Lexeme)
    requires ValidLexeme(x) && !x.point
    ensures ParseInt(Group(x)) == Some(IntOf(x))
  {
    if x.negative {
      assert Group(x) == "-" + x.whole;
      assert Group(x)[1..] == x.whole;
    } else {
      assert Group(x) == x.whole;
    }
  }

  /** `float()` of a number group reads the value `RealOf` gives. */
  lemma RealOfText(x: Lexeme)
    requires ValidLexeme(x)
    ensures ParseFloat(Group(x)) == Some(RealOf(x))
  {
    ParseFloatDecimal(x.negative, x.whole, x.frac, x.point);
  }

  /** A key that does not occur in the line is never found. */
  lemma AbsentKey(line: string, key: string, k: Token)
    requires !Contains(line, key)
    ensures Search(line, key, k).None?
  {
  }
}
