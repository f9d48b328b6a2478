/** The .NET string operations the core relies on, on `seq<char>`. */
module Text {
  import opened Wrappers

  /** `char.IsWhiteSpace`: the Unicode categories Zs, Zl and Zp plus U+0009..U+000D, U+0085 and U+00A0. */
  predicate IsWhiteSpace(c: char) {
    || c == ' '
    || ('\t' <= c <= '\r')
    || c == '\U{0085}'
    || c == '\U{00A0}'
    || c == '\U{1680}'
    || ('\U{2000}' <= c <= '\U{200A}')
    || c == '\U{2028}'
    || c == '\U{2029}'
    || c == '\U{202F}'
    || c == '\U{205F}'
    || c == '\U{3000}'
  }

  /** Every character is white space (the empty string included). */
  predicate Blank(s: string) {
    forall i | 0 <= i < |s| :: IsWhiteSpace(s[i])
  }

  /** `string.IsNullOrWhiteSpace`. */
  predicate NullOrBlank(s: Option<string>) {
    s.None? || Blank(s.value)
  }

  /** `string.IsNullOrEmpty`. */
  predicate NullOrEmpty(s: Option<string>) {
    s.None? || s.value == ""
  }

  /** `string.IsNullOrWhiteSpace(s) ? null : s`, the blank-to-null normalisation of form fields. */
  function BlankToNull(s: Option<string>): (r: Option<string>)
    ensures r.None? <==> NullOrBlank(s)
    ensures r.Some? ==> r == s && !Blank(r.value)
  {
    if NullOrBlank(s) then None else s
  }

  /** `string.IsNullOrWhiteSpace(s) ? string.Empty : s`. */
  function BlankToEmpty(s: Option<string>): (r: string)
    ensures Blank(r) <==> NullOrBlank(s)
    ensures !NullOrBlank(s) ==> r == s.value
    ensures NullOrBlank(s) ==> r == []
  {
    if NullOrBlank(s) then [] else s.value
  }

  /** `s` is `p` followed only by copies of `c`, and `p` does not end in `c`. */
  predicate StripsTrailing(s: string, c: char, p: string) {
    && |p| <= |s|
    && s[..|p|] == p
    && (|p| == 0 || p[|p| - 1] != c)
    && forall i | |p| <= i < |s| :: s[i] == c
  }

  /** `s` is a run of copies of `c` followed by `p`, and `p` does not start with `c`. */
  predicate StripsLeading(s: string, c: char, p: string) {
    && |p| <= |s|
    && s[|s| - |p|..] == p
    && (|p| == 0 || p[0] != c)
    && forall i | 0 <= i < |s| - |p| :: s[i] == c
  }

  /** `s.TrimEnd(c)`. */
  function TrimEndChar(s: string, c: char): (r: string)
    ensures StripsTrailing(s, c, r)
  {
    if |s| > 0 && s[|s| - 1] == c then TrimEndChar(s[..|s| - 1], c) else s
  }

  /** `s.TrimStart(c)`. */
  function TrimStartChar(s: string, c: char): (r: string)
    ensures StripsLeading(s, c, r)
  {
    if |s| > 0 && s[0] == c then TrimStartChar(s[1..], c) else s
  }

  /** `s.TrimStart()`: drops leading white space. */
  function TrimStart(s: string): (r: string)
    ensures |r| <= |s| && r == s[|s| - |r|..]
    ensures Blank(s[..|s| - |r|])
    ensures |r| == 0 || !IsWhiteSpace(r[0])
  {
    if |s| > 0 && IsWhiteSpace(s[0]) then TrimStart(s[1..]) else s
  }

  /** `s.TrimEnd()`: drops trailing white space. */
  function TrimEnd(s: string): (r: string)
    ensures |r| <= |s| && r == s[..|r|]
    ensures Blank(s[|r|..])
    ensures |r| == 0 || !IsWhiteSpace(r[|r| - 1])
  {
    if |s| > 0 && IsWhiteSpace(s[|s| - 1]) then TrimEnd(s[..|s| - 1]) else s
  }

  /** `s.Trim()`: a contiguous slice of `s` with no white space at either end, empty exactly for blank input. */
  function Trim(s: string): (r: string)
    ensures |r| <= |s|
    ensures exists k | 0 <= k <= |s| - |r| :: OccursAt(s, r, k) && Blank(s[..k]) && Blank(s[k + |r|..])
    ensures |r| == 0 || (!IsWhiteSpace(r[0]) && !IsWhiteSpace(r[|r| - 1]))
    ensures r == [] <==> Blank(s)
  {
    var a := TrimStart(s);
    var r := TrimEnd(a);
    TrimSlice(s, a, r);
    r
  }

  /** `r`, the trailing trim of `a`, itself the leading trim of `s`, is the slice of `s` between blank ends. */
  lemma TrimSlice(s: string, a: string, r: string)
    requires |a| <= |s| && a == s[|s| - |a|..] && Blank(s[..|s| - |a|])
    requires |r| <= |a| && r == a[..|r|] && Blank(a[|r|..])
    ensures exists k | 0 <= k <= |s| - |r| :: OccursAt(s, r, k) && Blank(s[..k]) && Blank(s[k + |r|..])
    ensures r == [] ==> Blank(s)
  {
    var k := |s| - |a|;
    assert r == s[k..][..|r|];
    assert s[k + |r|..] == a[|r|..];
    assert OccursAt(s, r, k) && Blank(s[..k]) && Blank(s[k + |r|..]);
    if r == [] {
      assert s == s[..k] + a;
      BlankConcat(s[..k], a);
    }
  }

  lemma BlankConcat(a: string, b: string)
    requires Blank(a) && Blank(b)
    ensures Blank(a + b)
  {
    forall i | 0 <= i < |a + b| ensures IsWhiteSpace((a + b)[i]) {
      if i < |a| {
        assert (a + b)[i] == a[i];
      } else {
        assert (a + b)[i] == b[i - |a|];
      }
    }
  }

  /** A string without white space at either end is its own trim. */
  lemma TrimOfTrimmed(s: string)
    requires |s| == 0 || (!IsWhiteSpace(s[0]) && !IsWhiteSpace(s[|s| - 1]))
    ensures Trim(s) == s
  {
  }

  /** ASCII upper case to lower case; every other character is unchanged (`ToLowerInvariant` restricted to ASCII). */
  function LowerChar(c: char): char {
    if 'A' <= c <= 'Z' then (c as int + 32) as char else c
  }

  function Lower(s: string): (r: string)
    ensures |r| == |s|
    ensures forall i | 0 <= i < |s| :: r[i] == LowerChar(s[i])
  {
    seq(|s|, i requires 0 <= i < |s| => LowerChar(s[i]))
  }

  /** A string without ASCII capitals is its own lower-case form. */
  lemma LowerOfLower(s: string)
    requires forall i | 0 <= i < |s| :: !('A' <= s[i] <= 'Z')
    ensures Lower(s) == s
  {
  }

  /** `StringComparison.OrdinalIgnoreCase` equality, on ASCII case folding. */
  predicate EqualsIgnoreCase(a: string, b: string) {
    Lower(a) == Lower(b)
  }

  predicate StartsWith(s: string, prefix: string) {
    |prefix| <= |s| && s[..|prefix|] == prefix
  }

  predicate OccursAt(s: string, sub: string, i: int)
    requires 0 <= i <= |s| - |sub|
  {
    s[i..i + |sub|] == sub
  }

  /** `s.Contains(sub)`: ordinal substring test. */
  predicate Contains(s: string, sub: string) {
    exists i | 0 <= i <= |s| - |sub| :: OccursAt(s, sub, i)
  }

  /** `s.Contains(c)` for one character. */
  predicate HasChar(s: string, c: char) {
    exists i | 0 <= i < |s| :: s[i] == c
  }

  /** Every character of `s` satisfies `p`. */
  predicate All(s: string, p: char -> bool) {
    forall i | 0 <= i < |s| :: p(s[i])
  }

  predicate IsAsciiLetter(c: char) { ('a' <= c <= 'z') || ('A' <= c <= 'Z') }
  predicate IsAsciiDigit(c: char) { '0' <= c <= '9' }
}
