/** Operations on text used by the client: substring search, decimal rendering,
    whitespace trimming and the canonical spelling of header names. */
module Text {
  import opened Wrappers

  const CRLF: string := "\r\n"

  predicate IsPrefix(p: string, s: string) {
    |p| <= |s| && s[..|p|] == p
  }

  /** The first index at or after `from` at which `pat` occurs in `s`. */
  function FindFrom(s: string, pat: string, from: nat): (r: Option<nat>)
    requires from <= |s|
    ensures r.Some? ==> from <= r.value && r.value + |pat| <= |s| && IsPrefix(pat, s[r.value..])
    ensures r.Some? ==> forall j :: from <= j < r.value ==> !IsPrefix(pat, s[j..])
    ensures r.None? ==> forall j :: from <= j <= |s| ==> !IsPrefix(pat, s[j..])
    decreases |s| - from
  {
    if from + |pat| > |s| then None
    else if IsPrefix(pat, s[from..]) then Some(from)
    else FindFrom(s, pat, from + 1)
  }

  /** The first index at which `pat` occurs in `s`. */
  function Find(s: string, pat: string): Option<nat> {
    FindFrom(s, pat, 0)
  }

  /** `pat` occurs in `x + pat` only at its very end: no occurrence starts inside `x`,
      not even one that runs into the `pat` that follows. */
  ghost predicate OccursOnlyAtEnd(x: string, pat: string) {
    forall j :: 0 <= j < |x| ==> !IsPrefix(pat, (x + pat)[j..])
  }

  lemma FindFirstAt(s: string, pat: string, k: nat)
    requires k + |pat| <= |s| && IsPrefix(pat, s[k..])
    requires forall j :: 0 <= j < k ==> !IsPrefix(pat, s[j..])
    ensures Find(s, pat) == Some(k)
  {
  }

  /** Searching `x + pat + y` for `pat` finds the copy right after `x`. */
  lemma FindAfter(x: string, pat: string, y: string)
    requires OccursOnlyAtEnd(x, pat)
    ensures Find(x + pat + y, pat) == Some(|x|)
  {
    var s := x + pat + y;
    assert s[|x|..][..|pat|] == pat;
    forall j | 0 <= j < |x|
      ensures !IsPrefix(pat, s[j..])
    {
      var t := (x + pat)[j..];
      assert !IsPrefix(pat, t);
      assert s[j..] == t + y;
      assert |pat| <= |t|;
      assert s[j..][..|pat|] == t[..|pat|];
    }
    FindFirstAt(s, pat, |x|);
  }

  /** A pattern whose first character is absent from `x` occurs in `x + pat` only at the end. */
  lemma OccursOnlyAtEndByFirstChar(x: string, pat: string)
    requires |pat| > 0 && pat[0] !in x
    ensures OccursOnlyAtEnd(x, pat)
  {
    forall j | 0 <= j < |x|
      ensures !IsPrefix(pat, (x + pat)[j..])
    {
      assert (x + pat)[j..][0] == x[j];
    }
  }

  /** Index of the last occurrence of `c` in `s`, or -1 (strings.LastIndex of a one-character string). */
  function LastIndexOf(s: string, c: char): (r: int)
    ensures -1 <= r < |s|
    ensures r >= 0 ==> s[r] == c
    ensures forall j :: r < j < |s| ==> s[j] != c
  {
    if |s| == 0 then -1
    else if s[|s| - 1] == c then |s| - 1
    else LastIndexOf(s[..|s| - 1], c)
  }

  /** What follows the last occurrence of `c` holds no `c`, and there is an occurrence
      exactly when `c` is in `s`. */
  lemma AfterLastIndexOf(s: string, c: char)
    ensures c !in s[LastIndexOf(s, c) + 1..]
    ensures c in s <==> LastIndexOf(s, c) >= 0
  {
    var r := LastIndexOf(s, c);
    NoneAfter(s, c, r);
    if c in s {
      var j :| 0 <= j < |s| && s[j] == c;
      assert j <= r;
    }
  }

  lemma NoneAfter(s: string, c: char, r: int)
    requires -1 <= r < |s|
    requires forall j :: r < j < |s| ==> s[j] != c
    ensures c !in s[r + 1..]
  {
    var t := s[r + 1..];
    forall j | 0 <= j < |t| ensures t[j] != c {
      assert t[j] == s[r + 1 + j];
    }
  }

  // ---------------------------------------------------------------------------
  // Decimal numbers, as fmt's %d writes them

  predicate IsDigit(c: char) {
    '0' <= c <= '9'
  }

  function Digit(d: nat): (c: char)
    requires d < 10
  {
    (48 + d) as char
  }

  /** The decimal rendering of `n`: non-empty, digits only. */
  function Decimal(n: nat): (s: string)
    ensures |s| > 0
    ensures forall i :: 0 <= i < |s| ==> IsDigit(s[i])
    decreases n
  {
    if n < 10 then [Digit(n)] else Decimal(n / 10) + [Digit(n % 10)]
  }

  /** The decimal rendering of an int, with a leading '-' when negative. */
  function SignedDecimal(i: int): string {
    if i < 0 then "-" + Decimal(-i) else Decimal(i)
  }

  function DigitValue(c: char): (d: nat)
    requires IsDigit(c)
  {
    c as int - '0' as int
  }

  function DigitsValue(s: string): nat
    requires forall i :: 0 <= i < |s| ==> IsDigit(s[i])
  {
    if |s| == 0 then 0
    else 10 * DigitsValue(s[..|s| - 1]) + DigitValue(s[|s| - 1])
  }

  /** Reads a non-empty string of digits back as a number. */
  function ParseDecimal(s: string): Option<nat> {
    if |s| > 0 && forall i :: 0 <= i < |s| ==> IsDigit(s[i]) then Some(DigitsValue(s)) else None
  }

  lemma {:induction false} DecimalRoundTrip(n: nat)
    ensures ParseDecimal(Decimal(n)) == Some(n)
    decreases n
  {
    var s := Decimal(n);
    if n < 10 {
      assert s[..|s| - 1] == [];
      assert DigitValue(s[0]) == n;
      assert DigitsValue(s) == 10 * DigitsValue([]) + DigitValue(s[0]);
    } else {
      DecimalRoundTrip(n / 10);
      assert s[..|s| - 1] == Decimal(n / 10);
      assert DigitValue(s[|s| - 1]) == n % 10;
    }
  }

  lemma DecimalHasNo(n: nat, c: char)
    requires !IsDigit(c)
    ensures c !in Decimal(n)
  {
  }

  // ---------------------------------------------------------------------------
  // Whitespace

  predicate IsSpace(c: char) {
    c == ' ' || c == '\t'
  }

  function TrimLeft(s: string): string {
    if |s| > 0 && IsSpace(s[0]) then TrimLeft(s[1..]) else s
  }

  function TrimRight(s: string): string {
    if |s| > 0 && IsSpace(s[|s| - 1]) then TrimRight(s[..|s| - 1]) else s
  }

  /** strings.TrimSpace, restricted to blanks and tabs. */
  function TrimSpace(s: string): string {
    TrimRight(TrimLeft(s))
  }

  /** No blank or tab at either end. */
  predicate Trimmed(s: string) {
    s == [] || (!IsSpace(s[0]) && !IsSpace(s[|s| - 1]))
  }

  /** A string with no blank or tab at either end is its own trimming. */
  lemma TrimSpaceOfTrimmed(s: string)
    requires Trimmed(s)
    ensures TrimSpace(s) == s
  {
  }

  lemma TrimSpaceSkipsBlank(s: string)
    ensures TrimSpace(" " + s) == TrimSpace(s)
  {
    assert (" " + s)[1..] == s;
  }

  // ---------------------------------------------------------------------------
  // Canonical header names (textproto.CanonicalMIMEHeaderKey, ASCII letters only)

  function Upper(c: char): char {
    if 'a' <= c <= 'z' then (c as int - 32) as char else c
  }

  function Lower(c: char): char {
    if 'A' <= c <= 'Z' then (c as int + 32) as char else c
  }

  /** The first letter and every letter after a '-' in upper case, all others in lower case. */
  function CanonicalKey(k: string): (r: string)
    ensures |r| == |k|
  {
    seq(|k|, i requires 0 <= i < |k| => if i == 0 || k[i - 1] == '-' then Upper(k[i]) else Lower(k[i]))
  }

  /** Canonicalising a canonical name changes nothing. */
  lemma CanonicalKeyIdempotent(k: string)
    ensures CanonicalKey(CanonicalKey(k)) == CanonicalKey(k)
  {
    var c := CanonicalKey(k);
    forall i | 0 <= i < |k|
      ensures CanonicalKey(c)[i] == c[i]
    {
      if i > 0 {
        assert c[i - 1] == '-' <==> k[i - 1] == '-';
      }
    }
  }
}
