/**
 * The few pieces of java.lang / java.util.regex behaviour the plugin depends on:
 * nullable references, String.trim, ASCII case folding, prefix/suffix/substring
 * tests, and the character classes `\s` and "line terminator" of java.util.regex.
 *
 * Case folding is ASCII-only: it is what a regex compiled with CASE_INSENSITIVE
 * (without UNICODE_CASE) does, and it is the part of String.toLowerCase the
 * plugin's fixed words and tags rely on.
 */
module JavaLang {

  /** A Java reference that may be null. */
  datatype Option<+T> = None | Some(value: T)

  // ---------------------------------------------------------------------------
  // String.trim

  /** String.trim drops every leading and trailing char whose code is at most U+0020. */
  predicate IsTrimmable(c: char) {
    c <= ' '
  }

  /** `s.trim().isEmpty()`: every char of s is trimmable. */
  predicate IsBlank(s: string) {
    forall i | 0 <= i < |s| :: IsTrimmable(s[i])
  }

  function TrimStart(s: string): (r: string)
    ensures |r| <= |s| && r == s[|s| - |r|..]
    ensures r != [] ==> !IsTrimmable(r[0])
    ensures forall i | 0 <= i < |s| - |r| :: IsTrimmable(s[i])
  {
    if s != [] && IsTrimmable(s[0]) then TrimStart(s[1..]) else s
  }

  function TrimEnd(s: string): (r: string)
    ensures |r| <= |s| && r == s[..|r|]
    ensures r != [] ==> !IsTrimmable(r[|r| - 1])
    ensures forall i | |r| <= i < |s| :: IsTrimmable(s[i])
  {
    if s != [] && IsTrimmable(s[|s| - 1]) then TrimEnd(s[..|s| - 1]) else s
  }

  /** String.trim: the longest infix of s that neither starts nor ends with a trimmable char. */
  function Trim(s: string): (r: string)
    ensures |r| <= |s|
    ensures r == [] <==> IsBlank(s)
    ensures r != [] ==> !IsTrimmable(r[0]) && !IsTrimmable(r[|r| - 1])
  {
    var t := TrimStart(s);
    var r := TrimEnd(t);
    assert r == [] ==> t == [];
    r
  }

  lemma {:induction false} TrimIdempotent(s: string)
    ensures Trim(Trim(s)) == Trim(s)
  {
    var r := Trim(s);
    assert TrimStart(r) == r;
    assert TrimEnd(r) == r;
  }

  // ---------------------------------------------------------------------------
  // ASCII case folding

  function LowerChar(c: char): (r: char)
    ensures 'A' <= c <= 'Z' ==> r as int == c as int + 32
    ensures !('A' <= c <= 'Z') ==> r == c
  {
    if 'A' <= c <= 'Z' then (c as int + 32) as char else c
  }

  /** toLowerCase restricted to ASCII letters. */
  function Lower(s: string): (r: string)
    ensures |r| == |s|
    ensures forall i | 0 <= i < |s| :: r[i] == LowerChar(s[i])
  {
    seq(|s|, i requires 0 <= i < |s| => LowerChar(s[i]))
  }

  /** equalsIgnoreCase restricted to ASCII letters. */
  predicate EqualsIgnoreCase(a: string, b: string) {
    Lower(a) == Lower(b)
  }

  // ---------------------------------------------------------------------------
  // startsWith / endsWith / contains

  predicate StartsWith(s: string, prefix: string) {
    |prefix| <= |s| && s[..|prefix|] == prefix
  }

  predicate EndsWith(s: string, suffix: string) {
    |suffix| <= |s| && s[|s| - |suffix|..] == suffix
  }

  predicate OccursAt(s: string, part: string, i: nat) {
    i + |part| <= |s| && s[i..i + |part|] == part
  }

  predicate Contains(s: string, part: string) {
    exists i: nat | i <= |s| :: OccursAt(s, part, i)
  }

  /** The index just after the last `c` in s, or 0 when s holds no `c`. */
  function AfterLast(s: string, c: char): (k: nat)
    ensures k <= |s|
    ensures k > 0 ==> s[k - 1] == c
    ensures forall i | k <= i < |s| :: s[i] != c
    decreases |s|
  {
    if s == [] then 0
    else if s[|s| - 1] == c then |s|
    else AfterLast(s[..|s| - 1], c)
  }

  /** When `part` holds no `c` and `prefix` is empty or ends in `c`, the last `c` of `prefix + part` ends `prefix`. */
  lemma {:induction false} AfterLastOf(prefix: string, part: string, c: char)
    requires forall i | 0 <= i < |part| :: part[i] != c
    requires prefix == [] || prefix[|prefix| - 1] == c
    ensures AfterLast(prefix + part, c) == |prefix|
    decreases |part|
  {
    if part != [] {
      assert (prefix + part)[..|prefix + part| - 1] == prefix + part[..|part| - 1];
      AfterLastOf(prefix, part[..|part| - 1], c);
    } else {
      assert prefix + part == prefix;
    }
  }

  // ---------------------------------------------------------------------------
  // java.util.regex character classes

  /** The predefined class `\s`: [ \t\n\x0B\f\r]. */
  predicate IsRegexSpace(c: char) {
    c == ' ' || c == '\t' || c == '\n' || c == '\r' || c as int == 0x0B || c as int == 0x0C
  }

  /** The chars that `.` does not match without DOTALL: \n, \r, U+0085, U+2028, U+2029. */
  predicate IsLineTerminator(c: char) {
    c == '\n' || c == '\r' || c as int == 0x85 || c as int == 0x2028 || c as int == 0x2029
  }

  lemma RegexSpaceIsTrimmable(c: char)
    ensures IsRegexSpace(c) ==> IsTrimmable(c)
  {
  }

  /** The longest suffix of s that does not start with a `\s` char (what a greedy `\s*` leaves). */
  function DropSpaces(s: string): (r: string)
    ensures |r| <= |s| && r == s[|s| - |r|..]
    ensures r != [] ==> !IsRegexSpace(r[0])
    ensures forall i | 0 <= i < |s| - |r| :: IsRegexSpace(s[i])
  {
    if s != [] && IsRegexSpace(s[0]) then DropSpaces(s[1..]) else s
  }

  predicate AllRegexSpace(s: string) {
    forall i | 0 <= i < |s| :: IsRegexSpace(s[i])
  }

  /** A greedy `\s*` run over `w + q` stops exactly where q begins, when q does not begin with `\s`. */
  lemma {:induction false} DropSpacesPrefix(w: string, q: string)
    requires AllRegexSpace(w)
    requires q == [] || !IsRegexSpace(q[0])
    ensures DropSpaces(w + q) == q
    decreases |w|
  {
    if w == [] {
      assert w + q == q;
    } else {
      assert (w + q)[1..] == w[1..] + q;
      DropSpacesPrefix(w[1..], q);
    }
  }

  // ---------------------------------------------------------------------------
  // Integer.toString for the non-negative values the plugin prints

  function DigitChar(d: nat): char
    requires d < 10
  {
    "0123456789"[d]
  }

  function DigitValue(c: char): int {
    c as int - '0' as int
  }

  /** Decimal rendering of n, as `"" + n` gives it. */
  function NatToString(n: nat): (r: string)
    ensures r != []
    ensures forall i | 0 <= i < |r| :: '0' <= r[i] <= '9'
  {
    if n < 10 then [DigitChar(n)] else NatToString(n / 10) + [DigitChar(n % 10)]
  }

  /** Reads a string of decimal digits back as a number. */
  function ParseDigits(s: string): int {
    if s == [] then 0 else 10 * ParseDigits(s[..|s| - 1]) + DigitValue(s[|s| - 1])
  }

  /** The rendering is faithful: the digits read back as the number. */
  lemma {:induction false} NatToStringRoundTrip(n: nat)
    ensures ParseDigits(NatToString(n)) == n
  {
    var r := NatToString(n);
    if n >= 10 {
      NatToStringRoundTrip(n / 10);
      assert r[..|r| - 1] == NatToString(n / 10);
    }
  }
}
