/** Character classes and string operations of Python's `str` that the program
    relies on: `isspace` (also the `\s` class of a str regex), `strip`,
    `startswith`, `endswith`, the `in` substring test, `split(",")` and
    `replace`. */
module Text {
  import opened Wrappers

  /** `str.isspace()`: the characters `str.strip()` removes and `\s` matches. */
  predicate IsSpace(c: char) {
    || ('\t' <= c <= '\r')
    || ('\U{1C}' <= c <= ' ')
    || c == '\U{85}' || c == '\U{A0}' || c == '\U{1680}'
    || ('\U{2000}' <= c <= '\U{200A}')
    || c == '\U{2028}' || c == '\U{2029}' || c == '\U{202F}' || c == '\U{205F}'
    || c == '\U{3000}'
  }

  /** The ASCII digits; the model reads `\d` and `[0-9]` alike. */
  predicate IsDigit(c: char) {
    '0' <= c <= '9'
  }

  predicate AllDigits(s: string) {
    forall i :: 0 <= i < |s| ==> IsDigit(s[i])
  }

  predicate AllSpace(s: string) {
    forall i :: 0 <= i < |s| ==> IsSpace(s[i])
  }

  /** No whitespace at either end: what `strip()` leaves. */
  predicate Stripped(s: string) {
    s == [] || (!IsSpace(s[0]) && !IsSpace(s[|s| - 1]))
  }

  predicate StartsWith(s: string, prefix: string) {
    |prefix| <= |s| && s[..|prefix|] == prefix
  }

  predicate EndsWith(s: string, suffix: string) {
    |suffix| <= |s| && s[|s| - |suffix|..] == suffix
  }

  /** `pat` occurs in `s` starting at index `i`. */
  predicate OccursAt(s: string, pat: string, i: nat) {
    i + |pat| <= |s| && s[i..i + |pat|] == pat
  }

  /** Python's `pat in s` for strings. */
  ghost predicate Contains(s: string, pat: string) {
    exists i: nat :: OccursAt(s, pat, i)
  }

  /** Drops leading whitespace. */
  function TrimStart(s: string): (r: string)
    ensures |r| <= |s| && r == s[|s| - |r|..]
    ensures AllSpace(s[..|s| - |r|])
    ensures r == [] || !IsSpace(r[0])
    decreases |s|
  {
    if |s| > 0 && IsSpace(s[0]) then
      var r := TrimStart(s[1..]);
      assert s[|s| - |r|..] == s[1..][|s| - 1 - |r|..];
      assert s[..|s| - |r|] == [s[0]] + s[1..][..|s| - 1 - |r|];
      r
    else
      assert s[..0] == [];
      s
  }

  /** `str.strip()` with no argument: whitespace is dropped from both ends,
      one character at a time. */
  function Strip(s: string): (r: string)
    ensures Stripped(r)
    ensures forall c :: c in r ==> c in s
    ensures r == [] <==> AllSpace(s)
    ensures Stripped(s) ==> r == s
    decreases |s|
  {
    if |s| > 0 && IsSpace(s[0]) then
      var r := Strip(s[1..]);
      assert AllSpace(s) <==> AllSpace(s[1..]) by {
        if AllSpace(s[1..]) {
          forall i | 0 <= i < |s| ensures IsSpace(s[i]) {
            if i > 0 { assert s[i] == s[1..][i - 1]; }
          }
        }
      }
      r
    else if |s| > 0 && IsSpace(s[|s| - 1]) then
      var r := Strip(s[..|s| - 1]);
      assert s[..|s| - 1][0] == s[0];
      r
    else
      s
  }

  /** `strip()` is idempotent. */
  lemma StripIdempotent(s: string)
    ensures Strip(Strip(s)) == Strip(s)
  {
  }

  /** The first occurrence of `pat` at or after `from`: `str.find` with a start. */
  function IndexOf(s: string, pat: string, from: nat): (r: Option<nat>)
    ensures r.Some? ==> from <= r.value && OccursAt(s, pat, r.value)
    ensures r.Some? ==> forall k: nat :: from <= k < r.value ==> !OccursAt(s, pat, k)
    ensures r.None? ==> forall k: nat :: from <= k ==> !OccursAt(s, pat, k)
    decreases |s| - from
  {
    if from + |pat| > |s| then None
    else if s[from..from + |pat|] == pat then Some(from)
    else IndexOf(s, pat, from + 1)
  }

  /** The executable substring test agrees with `Contains`. */
  function Has(s: string, pat: string): (b: bool)
    ensures b <==> Contains(s, pat)
  {
    IndexOf(s, pat, 0).Some?
  }

  /** A piece sitting inside a concatenation is contained in it. */
  lemma ContainsMiddle(a: string, b: string, c: string)
    ensures Contains(a + b + c, b)
  {
    assert (a + b + c)[|a|..|a| + |b|] == b;
    assert OccursAt(a + b + c, b, |a|);
  }

  /** Concatenation is associative (stated once so that proofs can name it). */
  lemma Assoc(a: string, b: string, c: string)
    ensures (a + b) + c == a + (b + c)
  {
  }

  /** Text contained in a piece is contained in anything built around it. */
  lemma ContainsExtend(pre: string, s: string, post: string, pat: string)
    requires Contains(s, pat)
    ensures Contains(pre + s + post, pat)
  {
    var i: nat :| OccursAt(s, pat, i);
    var t := pre + s + post;
    assert t[|pre|..|pre| + |s|] == s;
    assert t[|pre| + i..|pre| + i + |pat|] == t[|pre|..|pre| + |s|][i..i + |pat|];
    assert OccursAt(t, pat, |pre| + i);
  }

  /** Joining pieces whose first is not empty starts with that piece's first
      character. */
  lemma JoinShorter(parts: seq<string>, sep: char)
    requires |parts| > 0 && |parts[0]| > 0
    ensures Join(parts, sep) == [parts[0][0]] + Join(parts[0 := parts[0][1..]], sep)
  {
    var p0 := parts[0];
    var shorter := parts[0 := p0[1..]];
    if |parts| == 1 {
      assert Join(parts, sep) == p0 && Join(shorter, sep) == p0[1..];
    } else {
      assert shorter[1..] == parts[1..];
      assert Join(parts, sep) == p0 + [sep] + Join(parts[1..], sep);
      assert Join(shorter, sep) == p0[1..] + [sep] + Join(parts[1..], sep);
    }
    assert p0 == [p0[0]] + p0[1..];
  }

  /** Splitting text that starts with a character other than the separator
      adds that character to the first piece. */
  lemma SplitCons(c: char, s: string, sep: char)
    requires c != sep
    ensures Split([c] + s, sep) == [[c] + Split(s, sep)[0]] + Split(s, sep)[1..]
  {
    assert ([c] + s)[1..] == s;
  }

  /** ASCII case folding. */
  function LowerChar(c: char): (r: char)
    ensures 'A' <= c <= 'Z' ==> r as int == c as int + 32
    ensures !('A' <= c <= 'Z') ==> r == c
  {
    if 'A' <= c <= 'Z' then (c as int + 32) as char else c
  }

  /** `str.lower()` restricted to the ASCII letters. */
  function Lower(s: string): (r: string)
    ensures |r| == |s|
    ensures forall i :: 0 <= i < |s| ==> r[i] == LowerChar(s[i])
  {
    seq(|s|, i requires 0 <= i < |s| => LowerChar(s[i]))
  }

  /** `s.replace(from, to)` for single characters. */
  function ReplaceChar(s: string, from: char, to: char): (r: string)
    ensures |r| == |s|
    ensures forall i :: 0 <= i < |s| ==> r[i] == (if s[i] == from then to else s[i])
  {
    seq(|s|, i requires 0 <= i < |s| => if s[i] == from then to else s[i])
  }

  /** Number of occurrences of `c` in `s`. */
  function Count(s: string, c: char): nat {
    if s == [] then 0 else (if s[0] == c then 1 else 0) + Count(s[1..], c)
  }

  /** `s.split(sep)` for a one-character separator: every occurrence splits. */
  function Split(s: string, sep: char): (parts: seq<string>)
    ensures |parts| == Count(s, sep) + 1
    ensures forall k :: 0 <= k < |parts| ==> sep !in parts[k]
    decreases |s|
  {
    if s == [] then [[]]
    else
      var rest := Split(s[1..], sep);
      if s[0] == sep then [[]] + rest
      else [[s[0]] + rest[0]] + rest[1..]
  }

  /** `sep.join(parts)`. */
  function Join(parts: seq<string>, sep: char): string
    requires |parts| > 0
  {
    if |parts| == 1 then parts[0] else parts[0] + [sep] + Join(parts[1..], sep)
  }

  /** Joining the pieces of a split gives the original text back. */
  lemma {:induction false} JoinSplit(s: string, sep: char)
    ensures Join(Split(s, sep), sep) == s
    decreases |s|
  {
    if s != [] {
      var rest := Split(s[1..], sep);
      JoinSplit(s[1..], sep);
      if s[0] == sep {
        assert Split(s, sep) == [[]] + rest;
        assert Split(s, sep)[1..] == rest;
      } else {
        var parts := Split(s, sep);
        assert parts == [[s[0]] + rest[0]] + rest[1..];
        if |rest| == 1 {
          assert parts == [[s[0]] + rest[0]];
          assert Join(rest, sep) == rest[0];
        } else {
          assert parts[1..] == rest[1..];
          assert Join(rest, sep) == rest[0] + [sep] + Join(rest[1..], sep);
          assert Join(parts, sep) == [s[0]] + rest[0] + [sep] + Join(rest[1..], sep);
        }
      }
    }
  }

  /** Splitting a join of separator-free pieces gives the pieces back. */
  lemma {:induction false} SplitJoin(parts: seq<string>, sep: char)
    requires |parts| > 0
    requires forall k :: 0 <= k < |parts| ==> sep !in parts[k]
    ensures Split(Join(parts, sep), sep) == parts
    decreases |parts|, |parts[0]|
  {
    if |parts[0]| > 0 {
      var p0 := parts[0];
      var shorter := parts[0 := p0[1..]];
      assert sep !in p0[1..] by { assert forall c :: c in p0[1..] ==> c in p0; }
      assert Split(Join(shorter, sep), sep) == shorter by {
        SplitJoin(shorter, sep);
      }
      assert p0[0] != sep by { assert p0[0] in p0; }
      JoinShorter(parts, sep);
      SplitCons(p0[0], Join(shorter, sep), sep);
      assert [p0[0]] + p0[1..] == p0;
      assert parts == [p0] + shorter[1..];
    } else if |parts| > 1 {
      SplitJoin(parts[1..], sep);
      var j := Join(parts, sep);
      assert j == [sep] + Join(parts[1..], sep);
      assert j[1..] == Join(parts[1..], sep);
      assert parts == [[]] + parts[1..];
    }
  }
}
