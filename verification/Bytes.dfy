/**
 Byte strings and the few C library functions the symbolizer relies on: strcspn,
 strstr, atoll and the %zu / %zx conversions. A C string is the `string` before
 its NUL; a buffer that carries its NUL says so explicitly.
 */
module Bytes {

  datatype Option<+T> = None | Some(value: T)

  const NUL: char := '\0'

  // Widths of the integers the source uses on a 64-bit target.
  const LLONG_MAX: int := 0x7fff_ffff_ffff_ffff
  const UPTR_RANGE: int := 0x1_0000_0000_0000_0000
  const INT_MAX: int := 0x7fff_ffff

  predicate IsDigit(c: char) { '0' <= c <= '9' }

  predicate AllDigits(s: string) {
    forall i :: 0 <= i < |s| ==> IsDigit(s[i])
  }

  predicate IsSpace(c: char) {
    c == ' ' || '\t' <= c <= '\r'
  }

  /** The two classes by their members. */
  lemma CharClasses(c: char)
    ensures IsDigit(c) <==> c in "0123456789"
    ensures IsSpace(c) <==> c as int in {9, 10, 11, 12, 13, 32}
  {
    var digits := "0123456789";
    if IsDigit(c) {
      assert digits[c as int - 48] == c;
    }
  }

  predicate Without(s: string, c: char) {
    forall i :: 0 <= i < |s| ==> s[i] != c
  }

  lemma WithoutParts(s: string, t: string, c: char)
    ensures Without(s + t, c) <==> Without(s, c) && Without(t, c)
  {
    assert forall i :: 0 <= i < |s| ==> (s + t)[i] == s[i];
    assert forall i :: 0 <= i < |t| ==> (s + t)[|s| + i] == t[i];
  }

  predicate EndsWith(s: string, t: string) {
    |s| >= |t| && s[|s| - |t|..] == t
  }

  /** The part of a NUL-terminated buffer that C string functions see. */
  function CStr(s: string): (r: string)
    ensures Without(r, NUL) && r <= s
    ensures |r| < |s| ==> s[|r|] == NUL
  {
    if s == [] || s[0] == NUL then [] else [s[0]] + CStr(s[1..])
  }

  lemma {:induction false} CStrOf(s: string, r: string, tail: string)
    requires s == r + [NUL] + tail && Without(r, NUL)
    ensures CStr(s) == r
  {
    if r != [] {
      assert s[0] == r[0] && s[1..] == r[1..] + [NUL] + tail;
      CStrOf(s[1..], r[1..], tail);
    }
  }

  /* ---------- strcspn and strstr ---------- */

  /** strcspn: how many leading characters of s lie outside delims. */
  function Span(s: string, delims: string): (n: nat)
    ensures n <= |s|
    ensures forall i :: 0 <= i < n ==> s[i] !in delims
    ensures n < |s| ==> s[n] in delims
  {
    if s == [] || s[0] in delims then 0 else 1 + Span(s[1..], delims)
  }

  lemma {:induction false} SpanIs(s: string, delims: string, n: nat)
    requires n <= |s|
    requires forall i :: 0 <= i < n ==> s[i] !in delims
    requires n < |s| ==> s[n] in delims
    ensures Span(s, delims) == n
  {
  }

  predicate OccursAt(s: string, t: string, i: nat) {
    i + |t| <= |s| && s[i..i + |t|] == t
  }

  /** strstr started at `from`: the first occurrence of t there or later, |s| + 1 when there is none. */
  function FindFrom(s: string, t: string, from: nat): (i: nat)
    ensures i == |s| + 1 || (from <= i && OccursAt(s, t, i))
    ensures forall j :: from <= j < i ==> !OccursAt(s, t, j)
    decreases |s| + 1 - from
  {
    if from + |t| > |s| then |s| + 1
    else if OccursAt(s, t, from) then from
    else FindFrom(s, t, from + 1)
  }

  /* ---------- numerals ---------- */

  function DigitChar(d: nat): (c: char)
    requires d < 16
    ensures CharDigit(c) == d
    ensures d < 10 ==> IsDigit(c)
    ensures c == '0' <==> d == 0
    ensures c != '\n' && c != NUL && c != '"' && IsHexDigit(c)
  {
    if d < 10 then (d + 48) as char else (d + 87) as char
  }

  function CharDigit(c: char): nat {
    if IsDigit(c) then c as int - 48
    else if 'a' <= c <= 'f' then c as int - 87
    else 0
  }

  predicate IsHexDigit(c: char) {
    IsDigit(c) || 'a' <= c <= 'f'
  }

  lemma DigitsInOrder(d: nat)
    requires d < 16
    ensures DigitChar(d) == "0123456789abcdef"[d]
  {
  }

  /** What printf writes for n in base b, 10 or 16: lower case, no leading zero, "0" for zero. */
  function Numeral(n: nat, b: nat): (s: string)
    requires b == 10 || b == 16
    ensures s != []
    ensures forall i :: 0 <= i < |s| ==> s[i] != '\n' && s[i] != NUL && s[i] != '"'
    ensures b <= 10 ==> AllDigits(s)
    ensures forall i :: 0 <= i < |s| ==> IsHexDigit(s[i])
    ensures s[0] == '0' ==> n == 0
  {
    if n < b then [DigitChar(n)] else Numeral(n / b, b) + [DigitChar(n % b)]
  }

  function Value(s: string, b: nat): nat {
    if s == [] then 0 else Value(s[..|s| - 1], b) * b + CharDigit(s[|s| - 1])
  }

  lemma {:induction false} NumeralStep(s: string, n: nat, b: nat)
    requires b == 10 || b == 16
    requires Value(s, b) == n / b
    ensures Value(s + [DigitChar(n % b)], b) == n
  {
  }

  /** Reading a printed numeral gives the number back. */
  lemma {:induction false} NumeralValue(n: nat, b: nat)
    requires b == 10 || b == 16
    ensures Value(Numeral(n, b), b) == n
  {
    if n < b {
      assert [DigitChar(n)][..0] == [];
      assert Value([], b) == 0;
    } else {
      var q := n / b;
      NumeralValue(q, b);
      NumeralStep(Numeral(q, b), n, b);
    }
  }

  function DigitPrefix(s: string): (r: string)
    ensures AllDigits(r) && r <= s
  {
    if s == [] || !IsDigit(s[0]) then [] else [s[0]] + DigitPrefix(s[1..])
  }

  lemma {:induction false} DigitPrefixOf(digits: string, rest: string)
    requires AllDigits(digits) && (rest == [] || !IsDigit(rest[0]))
    ensures DigitPrefix(digits + rest) == digits
  {
    if digits == [] {
      assert digits + rest == rest;
    } else {
      assert (digits + rest)[1..] == digits[1..] + rest;
      DigitPrefixOf(digits[1..], rest);
    }
  }

  lemma {:induction false} LeadingZeros(zeros: string, s: string)
    requires forall i :: 0 <= i < |zeros| ==> zeros[i] == '0'
    ensures Value(zeros + s, 10) == Value(s, 10)
  {
    if s != [] {
      assert (zeros + s)[..|zeros + s| - 1] == zeros + s[..|s| - 1];
      LeadingZeros(zeros, s[..|s| - 1]);
    } else {
      assert zeros + s == zeros;
      if zeros != [] {
        assert zeros[..|zeros| - 1] + s == zeros[..|zeros| - 1];
        LeadingZeros(zeros[..|zeros| - 1], s);
      }
    }
  }

  /** atoll: optional blanks and sign, then the longest run of digits, saturating at 64 bits. */
  function Atoll(s: string): (v: int)
    ensures -LLONG_MAX - 1 <= v <= LLONG_MAX
  {
    if s != [] && IsSpace(s[0]) then Atoll(s[1..])
    else if s != [] && s[0] == '-' then
      var v: int := Value(DigitPrefix(s[1..]), 10);
      if v > LLONG_MAX + 1 then -LLONG_MAX - 1 else -v
    else
      var v := Value(DigitPrefix(if s != [] && s[0] == '+' then s[1..] else s), 10);
      if v > LLONG_MAX then LLONG_MAX else v
  }

  lemma AtollNonNegative(s: string)
    requires AllDigits(s)
    ensures Atoll(s) >= 0
  {
  }

  /** A number as text that atoll reads: blanks, a sign, zeros, the numeral, and something else after it. */
  datatype Written = Written(blanks: string, sign: string, zeros: string, n: nat, rest: string) {
    predicate Valid() {
      && (forall i :: 0 <= i < |blanks| ==> IsSpace(blanks[i]))
      && (sign == "" || sign == "+" || sign == "-")
      && (forall i :: 0 <= i < |zeros| ==> zeros[i] == '0')
      && (rest == [] || !IsDigit(rest[0]))
    }

    function Digits(): string {
      zeros + Numeral(n, 10)
    }

    function Text(): string {
      blanks + (sign + (Digits() + rest))
    }
  }

  lemma {:induction false} AtollSkipsBlanks(blanks: string, s: string)
    requires forall i :: 0 <= i < |blanks| ==> IsSpace(blanks[i])
    ensures Atoll(blanks + s) == Atoll(s)
  {
    if blanks == [] {
      assert blanks + s == s;
    } else {
      assert (blanks + s)[1..] == blanks[1..] + s;
      AtollSkipsBlanks(blanks[1..], s);
    }
  }

  /** atoll reads every decimal as its number, up to the two ends of the signed 64-bit integers. */
  lemma {:induction false} AtollReads(w: Written)
    requires w.Valid()
    ensures var n: int := w.n;
            Atoll(w.Text()) == if w.sign == "-" then if n <= 0x8000_0000_0000_0000 then -n else -0x8000_0000_0000_0000
                               else if n <= 0x7fff_ffff_ffff_ffff then n else 0x7fff_ffff_ffff_ffff
  {
    hide Value, Numeral, DigitPrefix;
    var digits := w.Digits();
    var tail := w.sign + (digits + w.rest);
    AtollSkipsBlanks(w.blanks, tail);
    DigitPrefixOf(digits, w.rest);
    LeadingZeros(w.zeros, Numeral(w.n, 10));
    NumeralValue(w.n, 10);
    assert (digits + w.rest)[0] == digits[0] && IsDigit(digits[0]);
    if w.sign == "" {
      assert tail == digits + w.rest;
    } else {
      assert tail[0] == w.sign[0] && tail[1..] == digits + w.rest;
    }
  }

  /** So it undoes %zu below 2^63. */
  lemma {:induction false} AtollNumeral(n: nat)
    ensures Atoll(Numeral(n, 10)) == if n <= LLONG_MAX then n else LLONG_MAX
  {
    var w := Written("", "", "", n, "");
    assert w.Text() == Numeral(n, 10);
    AtollReads(w);
  }

  /* ---------- pieces of a stream ---------- */

  function Flatten(chunks: seq<string>): string {
    if chunks == [] then [] else chunks[0] + Flatten(chunks[1..])
  }

  lemma FlattenFew(a: string, b: string)
    ensures Flatten([a]) == a && Flatten([a, b]) == a + b
  {
    assert [a][1..] == [] && [a, b][1..] == [b];
    assert Flatten([b]) == b + Flatten([]);
  }

  lemma {:induction false} FlattenAppend(chunks: seq<string>, c: string)
    ensures Flatten(chunks + [c]) == Flatten(chunks) + c
  {
    if chunks == [] {
      assert chunks + [c] == [c];
    } else {
      assert (chunks + [c])[0] == chunks[0] && (chunks + [c])[1..] == chunks[1..] + [c];
      FlattenAppend(chunks[1..], c);
    }
  }
}
