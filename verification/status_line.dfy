/** The anchored status grammar shared by the sweep script and the logger
    (`STATUS_RE` in save_data/run.py and save_data/save_data.py):

      STATUS \s+ hz=U \s+ rpm=D \s+ run=B \s+ hold=B \s+ flow1=D \s+ volt1=D
             \s+ flow2=D \s+ volt2=D $

    where U is `\d+`, D is `-?\d+(\.\d+)?` and B is `[01]`. It is applied with
    `re.match`, so it is anchored at the start, and `$` accepts the end of the
    line or a single final line feed.

    Every value is followed either by whitespace or by the end, and whitespace
    can be neither a digit nor a point, so the regex has exactly one way to
    match a line. `Parse` below follows that one way deterministically; the
    lemmas show it accepts exactly the lines `Render` produces from well-formed
    fields, and gives those fields back. */
module StatusLine {
  import opened Wrappers
  import opened Text
  import opened Numbers

  /** The value grammars: `\d+`, `-?\d+(?:\.\d+)?` and `[01]`. */
  datatype Kind = Unsigned | Decimal | Bit

  const FieldCount: nat := 8

  /** The key of the field at schema position `i`. */
  function Key(i: nat): string
    requires i < FieldCount
  {
    match i
    case 0 => "hz"
    case 1 => "rpm"
    case 2 => "run"
    case 3 => "hold"
    case 4 => "flow1"
    case 5 => "volt1"
    case 6 => "flow2"
    case _ => "volt2"
  }

  /** The value grammar of the field at schema position `i`. */
  function KindAt(i: nat): Kind
    requires i < FieldCount
  {
    if i == 0 then Unsigned else if i == 2 || i == 3 then Bit else Decimal
  }

  /** One `\s+key=value` piece of a status line: the whitespace before the key
      and the text of the value. */
  datatype Field = Field(gap: string, value: string)

  /** A matched status line: its eight fields and whether a final line feed
      followed the last value. */
  datatype Parsed = Parsed(fields: seq<Field>, newline: bool)

  predicate IsUnsigned(v: string) {
    |v| >= 1 && AllDigits(v)
  }

  /** `\d+(?:\.\d+)?`. */
  predicate IsUnsignedDecimal(u: string) {
    var (whole, rest) := SpanDigits(u);
    |whole| >= 1 && (rest == [] || (rest[0] == '.' && IsUnsigned(rest[1..])))
  }

  /** `-?\d+(?:\.\d+)?`. */
  predicate IsDecimal(v: string) {
    if |v| > 0 && v[0] == '-' then IsUnsignedDecimal(v[1..]) else IsUnsignedDecimal(v)
  }

  predicate IsBit(v: string) {
    v == "0" || v == "1"
  }

  predicate ValidValue(k: Kind, v: string) {
    match k
    case Unsigned => IsUnsigned(v)
    case Decimal => IsDecimal(v)
    case Bit => IsBit(v)
  }

  /** `\s+`. */
  predicate ValidGap(g: string) {
    |g| >= 1 && AllSpace(g)
  }

  /** Field `j` of a list that starts at schema position `i` fits the schema. */
  predicate FieldsFit(fs: seq<Field>, i: nat) {
    && i + |fs| <= FieldCount
    && forall j :: 0 <= j < |fs| ==> ValidGap(fs[j].gap) && ValidValue(KindAt(i + j), fs[j].value)
  }

  predicate WellFormed(p: Parsed) {
    |p.fields| == FieldCount && FieldsFit(p.fields, 0)
  }

  /** The text of one field at schema position `i`. */
  function RenderField(f: Field, i: nat): string
    requires i < FieldCount
  {
    f.gap + Key(i) + "=" + f.value
  }

  function RenderFields(fs: seq<Field>, i: nat): string
    requires i + |fs| <= FieldCount
    decreases |fs|
  {
    if fs == [] then [] else RenderField(fs[0], i) + RenderFields(fs[1..], i + 1)
  }

  /** The text of a status line with the given fields. */
  function Render(p: Parsed): string
    requires WellFormed(p)
  {
    "STATUS" + RenderFields(p.fields, 0) + (if p.newline then "\n" else "")
  }

  /** The maximal run of whitespace at the front of `s`, and what follows. */
  function SpanSpace(s: string): (r: (string, string))
    ensures AllSpace(r.0) && r.0 + r.1 == s
    ensures r.1 == [] || !IsSpace(r.1[0])
  {
    var rest := TrimStart(s);
    var gap := s[..|s| - |rest|];
    assert gap + rest == s;
    (gap, rest)
  }

  /** The value of kind `k` at the front of `s` as the regex takes it (greedy),
      and what follows it. */
  function LexValue(k: Kind, s: string): (r: Option<(string, string)>)
    ensures r.Some? ==> ValidValue(k, r.value.0) && r.value.0 + r.value.1 == s
  {
    match k
    case Unsigned =>
      var (d, rest) := SpanDigits(s);
      if |d| >= 1 then Some((d, rest)) else None
    case Bit =>
      if |s| >= 1 && (s[0] == '0' || s[0] == '1') then
        assert s[..1] + s[1..] == s;
        Some((s[..1], s[1..]))
      else None
    case Decimal =>
      var sign := if |s| > 0 && s[0] == '-' then "-" else "";
      var u := s[|sign|..];
      assert sign + u == s;
      match LexUnsignedDecimal(u)
      case None => None
      case Some((v, rest)) =>
        assert (sign + v)[|sign|..] == v;
        assert sign + v + rest == s;
        Some((sign + v, rest))
  }

  function LexUnsignedDecimal(u: string): (r: Option<(string, string)>)
    ensures r.Some? ==> IsUnsignedDecimal(r.value.0) && r.value.0 + r.value.1 == u
    ensures r.Some? ==> |r.value.0| > 0 && IsDigit(r.value.0[0])
  {
    var (whole, rest) := SpanDigits(u);
    if |whole| == 0 then None
    else if |rest| >= 2 && rest[0] == '.' && IsDigit(rest[1]) then
      var (frac, tail) := SpanDigits(rest[1..]);
      var v := whole + "." + frac;
      assert v + tail == u by {
        assert rest == "." + frac + tail;
      }
      assert v == whole + ("." + frac);
      DigitsSpan(whole, "." + frac);
      assert SpanDigits(v) == (whole, "." + frac);
      Some((v, tail))
    else
      DigitsSpan(whole, []);
      assert whole + [] == whole;
      Some((whole, rest))
  }

  /** A nonempty gap, then `key`, then a value of kind `k` at the front of `s`;
      the gap, the value and the text after them. */
  function ParseKeyed(s: string, key: string, k: Kind): (r: Option<(string, string, string)>)
    ensures r.Some? ==> ValidGap(r.value.0) && ValidValue(k, r.value.1)
    ensures r.Some? ==> r.value.0 + key + r.value.1 + r.value.2 == s
  {
    var (gap, afterGap) := SpanSpace(s);
    if |gap| == 0 || !StartsWith(afterGap, key) then None
    else
      var afterKey := afterGap[|key|..];
      assert afterGap == key + afterKey;
      match LexValue(k, afterKey)
      case None => None
      case Some((v, afterValue)) =>
        Assoc(gap, key, afterKey);
        Assoc(gap + key, v, afterValue);
        Some((gap, v, afterValue))
  }

  /** One field at schema position `i` at the front of `s`, and the text after it. */
  function ParseField(s: string, i: nat): (r: Option<(Field, string)>)
    requires i < FieldCount
    ensures r.Some? ==> ValidGap(r.value.0.gap) && ValidValue(KindAt(i), r.value.0.value)
    ensures r.Some? ==> RenderField(r.value.0, i) + r.value.1 == s
  {
    match ParseKeyed(s, Key(i) + "=", KindAt(i))
    case None => None
    case Some((gap, v, rest)) =>
      Assoc(gap, Key(i), "=");
      Some((Field(gap, v), rest))
  }

  /** The fields from schema position `i` on, and the text after the last one. */
  function ParseFields(s: string, i: nat): (r: Option<(seq<Field>, string)>)
    requires i <= FieldCount
    ensures r.Some? ==> |r.value.0| == FieldCount - i && FieldsFit(r.value.0, i)
    ensures r.Some? ==> RenderFields(r.value.0, i) + r.value.1 == s
    decreases FieldCount - i
  {
    if i == FieldCount then Some(([], s))
    else
      match ParseField(s, i)
      case None => None
      case Some((f, afterField)) =>
        match ParseFields(afterField, i + 1)
        case None => None
        case Some((fs, rest)) =>
          Cons(f, fs, i);
          Assoc(RenderField(f, i), RenderFields(fs, i + 1), rest);
          Some(([f] + fs, rest))
  }

  /** Putting a field in front of the fields that follow it. */
  lemma Cons(f: Field, fs: seq<Field>, i: nat)
    requires i < FieldCount && i + 1 + |fs| <= FieldCount
    ensures RenderFields([f] + fs, i) == RenderField(f, i) + RenderFields(fs, i + 1)
    ensures FieldsFit([f] + fs, i) <==>
              ValidGap(f.gap) && ValidValue(KindAt(i), f.value) && FieldsFit(fs, i + 1)
  {
    ConsRender(f, fs, i);
    if ValidGap(f.gap) && ValidValue(KindAt(i), f.value) && FieldsFit(fs, i + 1) {
      ConsFits(f, fs, i);
    }
    if FieldsFit([f] + fs, i) {
      FitsTail([f] + fs, i);
      assert ([f] + fs)[0] == f && ([f] + fs)[1..] == fs;
    }
  }

  lemma ConsRender(f: Field, fs: seq<Field>, i: nat)
    requires i < FieldCount && i + 1 + |fs| <= FieldCount
    ensures RenderFields([f] + fs, i) == RenderField(f, i) + RenderFields(fs, i + 1)
  {
    assert ([f] + fs)[0] == f && ([f] + fs)[1..] == fs;
  }

  lemma ConsFits(f: Field, fs: seq<Field>, i: nat)
    requires i < FieldCount && i + 1 + |fs| <= FieldCount
    requires ValidGap(f.gap) && ValidValue(KindAt(i), f.value) && FieldsFit(fs, i + 1)
    ensures FieldsFit([f] + fs, i)
  {
    var all := [f] + fs;
    forall j | 0 <= j < |all|
      ensures ValidGap(all[j].gap) && ValidValue(KindAt(i + j), all[j].value)
    {
      if j > 0 {
        assert all[j] == fs[j - 1];
      }
    }
  }

  /** `STATUS_RE.match(line)`: the fields of the line, or `None` when it does not
      match. */
  function Parse(line: string): (r: Option<Parsed>)
    ensures r.Some? ==> WellFormed(r.value)
  {
    if !StartsWith(line, "STATUS") then None
    else
      match ParseFields(line[6..], 0)
      case None => None
      case Some((fs, rest)) =>
        if rest == "" then Some(Parsed(fs, false))
        else if rest == "\n" then Some(Parsed(fs, true))
        else None
  }

  /** The lines the regex matches. */
  ghost predicate InLanguage(line: string) {
    exists p :: WellFormed(p) && Render(p) == line
  }

  /** Every line the parser accepts is the rendering of the fields it returns. */
  lemma ParseSound(line: string)
    requires Parse(line).Some?
    ensures Render(Parse(line).value) == line
  {
    var (fs, rest) := ParseFields(line[6..], 0).value;
    var body := RenderFields(fs, 0);
    assert line == "STATUS" + line[6..];
    assert line[6..] == body + rest;
    Assoc("STATUS", body, rest);
  }

  /** A value followed by whitespace or by the end lexes as itself. */
  lemma LexComplete(k: Kind, v: string, rest: string)
    requires ValidValue(k, v)
    requires rest == [] || IsSpace(rest[0])
    ensures LexValue(k, v + rest) == Some((v, rest))
  {
    match k
    case Unsigned =>
      DigitsSpan(v, rest);
    case Bit =>
      assert (v + rest)[..1] == v;
      assert (v + rest)[1..] == rest;
    case Decimal =>
      var s := v + rest;
      if |v| > 0 && v[0] == '-' {
        assert s[1..] == v[1..] + rest;
        LexUnsignedComplete(v[1..], rest);
        assert "-" + v[1..] == v;
      } else {
        LexUnsignedComplete(v, rest);
        assert s[0..] == s;
        assert "" + v == v;
      }
  }

  lemma LexUnsignedComplete(u: string, rest: string)
    requires IsUnsignedDecimal(u)
    requires rest == [] || IsSpace(rest[0])
    ensures LexUnsignedDecimal(u + rest) == Some((u, rest))
  {
    var (whole, after) := SpanDigits(u);
    assert u == whole + after;
    if after == [] {
      assert whole == u;
      DigitsSpan(whole, rest);
      assert rest == [] || rest[0] != '.';
    } else {
      var frac := after[1..];
      var tail := "." + frac + rest;
      assert after == "." + frac;
      assert u == whole + "." + frac;
      assert u + rest == whole + tail;
      DigitsSpan(whole, tail);
      assert tail[1..] == frac + rest;
      DigitsSpan(frac, rest);
      assert IsDigit(tail[1]) by { assert tail[1] == frac[0]; }
    }
  }

  /** A nonempty whitespace gap followed by a key spans exactly the gap. */
  lemma SpanGap(g: string, rest: string)
    requires ValidGap(g)
    requires rest != [] && !IsSpace(rest[0])
    ensures SpanSpace(g + rest) == (g, rest)
    decreases |g|
  {
    var r := SpanSpace(g + rest);
    TrimStartOf(g, rest);
  }

  lemma {:induction false} TrimStartOf(g: string, rest: string)
    requires AllSpace(g)
    requires rest == [] || !IsSpace(rest[0])
    ensures TrimStart(g + rest) == rest
    decreases |g|
  {
    if g != [] {
      assert (g + rest)[1..] == g[1..] + rest;
      TrimStartOf(g[1..], rest);
    }
  }

  /** A gap, a key that does not start with whitespace, and a value followed by
      whitespace or the end parse back into themselves. */
  lemma ParseKeyedComplete(g: string, key: string, k: Kind, v: string, rest: string)
    requires ValidGap(g) && |key| > 0 && !IsSpace(key[0])
    requires ValidValue(k, v)
    requires rest == [] || IsSpace(rest[0])
    ensures ParseKeyed(g + key + v + rest, key, k) == Some((g, v, rest))
  {
    var afterGap := key + (v + rest);
    Assoc(g + key, v, rest);
    Assoc(g, key, v + rest);
    assert g + key + v + rest == g + afterGap;
    SpanGap(g, afterGap);
    assert afterGap[..|key|] == key;
    assert afterGap[|key|..] == v + rest;
    LexComplete(k, v, rest);
  }

  lemma ParseFieldComplete(f: Field, i: nat, rest: string)
    requires i < FieldCount
    requires ValidGap(f.gap) && ValidValue(KindAt(i), f.value)
    requires rest == [] || IsSpace(rest[0])
    ensures ParseField(RenderField(f, i) + rest, i) == Some((f, rest))
  {
    var key := Key(i) + "=";
    KeyStart(i);
    assert key[0] == Key(i)[0];
    ParseKeyedComplete(f.gap, key, KindAt(i), f.value, rest);
    Assoc(f.gap, Key(i), "=");
  }

  /** Every key starts with a lower-case letter, never with whitespace. */
  lemma KeyStart(i: nat)
    requires i < FieldCount
    ensures |Key(i)| > 0 && 'a' <= Key(i)[0] <= 'z'
  {
  }

  lemma ParseFieldsStep(s: string, i: nat, fs: seq<Field>, t: string, rest: string)
    requires i < FieldCount && |fs| > 0
    requires ParseField(s, i) == Some((fs[0], t))
    requires ParseFields(t, i + 1) == Some((fs[1..], rest))
    ensures ParseFields(s, i) == Some((fs, rest))
  {
    assert i != FieldCount;
    assert ParseFields(s, i) == Some(([fs[0]] + fs[1..], rest));
    assert [fs[0]] + fs[1..] == fs;
  }

  /** A rendering of fields starts with the whitespace of the first gap. */
  lemma RenderFieldsStart(fs: seq<Field>, i: nat)
    requires |fs| > 0 && FieldsFit(fs, i)
    ensures IsSpace(RenderFields(fs, i)[0])
  {
    assert ValidGap(fs[0].gap);
    assert RenderFields(fs, i)[0] == fs[0].gap[0];
  }

  /** The first field of a fitting list fits its position, and so do the rest. */
  lemma FitsTail(fs: seq<Field>, i: nat)
    requires |fs| > 0 && FieldsFit(fs, i)
    ensures ValidGap(fs[0].gap) && ValidValue(KindAt(i), fs[0].value)
    ensures FieldsFit(fs[1..], i + 1)
  {
    forall j | 0 <= j < |fs| - 1
      ensures ValidGap(fs[1..][j].gap) && ValidValue(KindAt(i + 1 + j), fs[1..][j].value)
    {
      assert fs[1..][j] == fs[j + 1];
    }
  }

  /** The parser gives back the fields of every rendering of well-formed fields. */
  lemma {:induction false} ParseFieldsComplete(fs: seq<Field>, i: nat, rest: string)
    requires i + |fs| == FieldCount && FieldsFit(fs, i)
    requires rest == [] || IsSpace(rest[0])
    ensures ParseFields(RenderFields(fs, i) + rest, i) == Some((fs, rest))
    decreases |fs|
  {
    if fs != [] {
      assert FieldsFit(fs[1..], i + 1) by {
        FitsTail(fs, i);
      }
      ParseFieldsComplete(fs[1..], i + 1, rest);
      ParseFieldsCons(fs, i, rest);
    } else {
      ParseFieldsEnd(fs, i, rest);
    }
  }

  lemma ParseFieldsEnd(fs: seq<Field>, i: nat, rest: string)
    requires fs == [] && i == FieldCount
    ensures ParseFields(RenderFields(fs, i) + rest, i) == Some((fs, rest))
  {
    assert RenderFields(fs, i) + rest == rest;
  }

  /** One step of `ParseFieldsComplete`: if the fields after the first are
      parsed back, so are all of them. */
  lemma ParseFieldsCons(fs: seq<Field>, i: nat, rest: string)
    requires |fs| > 0 && i + |fs| == FieldCount && FieldsFit(fs, i)
    requires rest == [] || IsSpace(rest[0])
    requires ParseFields(RenderFields(fs[1..], i + 1) + rest, i + 1) == Some((fs[1..], rest))
    ensures ParseFields(RenderFields(fs, i) + rest, i) == Some((fs, rest))
  {
    var f, more := fs[0], fs[1..];
    FitsTail(fs, i);
    var tail := RenderFields(more, i + 1) + rest;
    Assoc(RenderField(f, i), RenderFields(more, i + 1), rest);
    if more != [] {
      RenderFieldsStart(more, i + 1);
    } else {
      assert tail == rest;
    }
    var s := RenderFields(fs, i) + rest;
    assert s == RenderField(f, i) + tail;
    ParseFieldComplete(f, i, tail);
    ParseFieldsStep(s, i, fs, tail, rest);
  }

  /** Completeness: the parser accepts every rendering of well-formed fields and
      returns exactly those fields. */
  lemma ParseComplete(p: Parsed)
    requires WellFormed(p)
    ensures Parse(Render(p)) == Some(p)
  {
    var end := if p.newline then "\n" else "";
    var body := RenderFields(p.fields, 0);
    var line := Render(p);
    Assoc("STATUS", body, end);
    assert line == "STATUS" + (body + end);
    assert StartsWith(line, "STATUS");
    assert line[6..] == body + end;
    ParseFieldsComplete(p.fields, 0, end);
    assert ParseFields(line[6..], 0) == Some((p.fields, end));
  }

  /** The parser decides the regex's language: it accepts a line exactly when
      some well-formed fields render to it. */
  lemma ParseDecides(line: string)
    ensures Parse(line).Some? <==> InLanguage(line)
  {
    if Parse(line).Some? {
      ParseSound(line);
    }
    if InLanguage(line) {
      var p :| WellFormed(p) && Render(p) == line;
      ParseComplete(p);
    }
  }

  /** Two well-formed field lists never render to the same line, so the groups
      of a match are determined by the line. */
  lemma RenderInjective(p: Parsed, q: Parsed)
    requires WellFormed(p) && WellFormed(q)
    requires Render(p) == Render(q)
    ensures p == q
  {
    ParseComplete(p);
    ParseComplete(q);
  }

  /** Every key appears in a matched line, so a line missing any of them (the
      older `STATUS hz=.. rpm=.. run=.. hold=..` reply, say) does not match. */
  lemma {:induction false} KeysPresent(fs: seq<Field>, i: nat, j: nat)
    requires i + |fs| <= FieldCount
    requires i <= j < i + |fs|
    ensures Contains(RenderFields(fs, i), Key(j) + "=")
    decreases |fs|
  {
    var f, more := fs[0], fs[1..];
    var head := RenderField(f, i);
    var tail := RenderFields(more, i + 1);
    assert RenderFields(fs, i) == head + tail;
    if j == i {
      Assoc(f.gap, Key(i), "=");
      ContainsMiddle(f.gap, Key(i) + "=", f.value);
      ContainsExtend([], head, tail, Key(j) + "=");
      assert [] + head + tail == head + tail;
    } else {
      KeysPresent(more, i + 1, j);
      ContainsExtend(head, tail, [], Key(j) + "=");
      assert head + tail + [] == head + tail;
    }
  }

  /** A line without `key=` for some key of the schema does not match. */
  lemma MissingKeyRejected(line: string, j: nat)
    requires j < FieldCount
    requires !Contains(line, Key(j) + "=")
    ensures Parse(line) == None
  {
    if Parse(line).Some? {
      var p := Parse(line).value;
      ParseSound(line);
      KeysPresent(p.fields, 0, j);
      var end := if p.newline then "\n" else "";
      ContainsExtend("STATUS", RenderFields(p.fields, 0), end, Key(j) + "=");
    }
  }

  /** A typed status observation, as the scripts take it from the groups:
      `int` of hz, `float` of the decimal fields, the two flags as bits. */
  datatype Telemetry = Telemetry(
    hz: nat, rpm: real, run: bool, hold: bool,
    flow1: real, volt1: real, flow2: real, volt2: real)

  /** The sign, the whole digits, the fraction digits and whether there is a
      point, of a `-?\d+(?:\.\d+)?` group. */
  function DecimalParts(v: string): (r: (bool, string, string, bool))
    requires IsDecimal(v)
    ensures |r.1| >= 1 && AllDigits(r.1) && AllDigits(r.2)
    ensures r.3 ==> |r.2| >= 1
    ensures !r.3 ==> r.2 == []
  {
    var neg := |v| > 0 && v[0] == '-';
    var u := if neg then v[1..] else v;
    var (whole, rest) := SpanDigits(u);
    var frac := if rest == [] then [] else rest[1..];
    (neg, whole, frac, rest != [])
  }

  lemma DecimalPartsText(v: string)
    requires IsDecimal(v)
    ensures var (neg, whole, frac, point) := DecimalParts(v);
      v == DecimalText(neg, whole, frac, point)
  {
    var neg := |v| > 0 && v[0] == '-';
    var u := if neg then v[1..] else v;
    var (whole, rest) := SpanDigits(u);
    var frac := if rest == [] then [] else rest[1..];
    var sign := if neg then "-" else "";
    var tail := if rest != [] then "." + frac else "";
    UnsignedText(u);
    assert v == sign + u by {
      if neg {
        assert v == [v[0]] + v[1..];
      }
    }
    Assoc(sign, whole, tail);
  }

  /** An unsigned group is its whole digits, then a point and the fraction
      when there is one. */
  lemma UnsignedText(u: string)
    requires IsUnsignedDecimal(u)
    ensures var (whole, rest) := SpanDigits(u);
      u == whole + (if rest != [] then "." + rest[1..] else "")
  {
    var (whole, rest) := SpanDigits(u);
    if rest != [] {
      assert rest == [rest[0]] + rest[1..];
    }
  }

  /** The value of a `-?\d+(?:\.\d+)?` group. */
  function DecimalOf(v: string): real
    requires IsDecimal(v)
  {
    var (neg, whole, frac, _) := DecimalParts(v);
    DecimalValue(neg, whole, frac)
  }

  /** `float(...)` of a matched decimal group never fails and gives its value. */
  lemma FloatOfDecimal(v: string)
    requires IsDecimal(v)
    ensures ParseFloat(v) == Some(DecimalOf(v))
  {
    var (neg, whole, frac, point) := DecimalParts(v);
    DecimalPartsText(v);
    ParseFloatDecimal(neg, whole, frac, point);
  }

  /** `STATUS_RE.match(line)` followed by the scripts' conversions of its groups. */
  function Match(line: string): (r: Option<Telemetry>)
    ensures r.Some? <==> Parse(line).Some?
    ensures r.Some? ==> var fs := Parse(line).value.fields;
      && r.value.hz == DigitsValue(fs[0].value)
      && Some(r.value.rpm) == ParseFloat(fs[1].value)
      && (r.value.run <==> fs[2].value == "1")
      && (r.value.hold <==> fs[3].value == "1")
      && Some(r.value.flow1) == ParseFloat(fs[4].value)
      && Some(r.value.volt1) == ParseFloat(fs[5].value)
      && Some(r.value.flow2) == ParseFloat(fs[6].value)
      && Some(r.value.volt2) == ParseFloat(fs[7].value)
  {
    match Parse(line)
    case None => None
    case Some(p) =>
      var fs := p.fields;
      ValuesValid(p);
      FloatOfDecimal(fs[1].value);
      FloatOfDecimal(fs[4].value);
      FloatOfDecimal(fs[5].value);
      FloatOfDecimal(fs[6].value);
      FloatOfDecimal(fs[7].value);
      Some(Telemetry(
        DigitsValue(fs[0].value), DecimalOf(fs[1].value), fs[2].value == "1", fs[3].value == "1",
        DecimalOf(fs[4].value), DecimalOf(fs[5].value), DecimalOf(fs[6].value), DecimalOf(fs[7].value)))
  }

  /** The values of a matched line have the grammar of their fields. */
  lemma ValuesValid(p: Parsed)
    requires WellFormed(p)
    ensures AllDigits(p.fields[0].value)
    ensures forall j :: j in {1, 4, 5, 6, 7} ==> IsDecimal(p.fields[j].value)
  {
    forall j | j in {1, 4, 5, 6, 7}
      ensures IsDecimal(p.fields[j].value)
    {
      assert KindAt(j) == Decimal;
    }
  }
}
