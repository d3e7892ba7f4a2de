/**
 * The pieces of java.lang.String that the core relies on, stated over
 * Dafny strings (sequences of Unicode scalar values):
 *  - trim(): strips every leading and trailing character at or below U+0020;
 *  - isBlank(): true when every character is Character.isWhitespace;
 *  - equalsIgnoreCase(): equal length and equal characters after case folding;
 *  - indexOf()/contains() for a literal, non-empty pattern.
 */
module JavaText {

  // ---------------------------------------------------------------- whitespace

  /** Character.isWhitespace: the Unicode space, line and paragraph separators
    * other than the no-break spaces, plus the ASCII controls TAB, LF, VT, FF, CR
    * and FS, GS, RS, US. */
  predicate IsWhitespace(c: char) {
    || c == ' ' || c == '\t' || c == '\n' || c == '\U{000B}' || c == '\U{000C}' || c == '\r'
    || ('\U{001C}' <= c <= '\U{001F}')
    || c == '\U{1680}'
    || ('\U{2000}' <= c <= '\U{2006}')
    || ('\U{2008}' <= c <= '\U{200A}')
    || c == '\U{2028}' || c == '\U{2029}' || c == '\U{205F}' || c == '\U{3000}'
  }

  /** String.isBlank: empty, or whitespace only. */
  predicate IsBlank(s: string)
    ensures s == [] ==> IsBlank(s)
    ensures IsBlank(s) <==> forall c :: c in s ==> IsWhitespace(c)
  {
    forall i :: 0 <= i < |s| ==> IsWhitespace(s[i])
  }

  /** The characters String.trim removes from both ends. */
  predicate IsTrimmable(c: char) {
    c <= ' '
  }

  /** A string that trim leaves alone: empty, or starting and ending with a
    * character above U+0020. */
  predicate IsTrimmed(s: string) {
    s == [] || (!IsTrimmable(s[0]) && !IsTrimmable(s[|s| - 1]))
  }

  // ---------------------------------------------------------------- trim

  /** The longest suffix of s that does not start with a trimmable character. */
  function TrimStart(s: string): (r: string)
    ensures |r| <= |s| && r == s[|s| - |r|..]
    ensures r == [] || !IsTrimmable(r[0])
    ensures forall i :: 0 <= i < |s| - |r| ==> IsTrimmable(s[i])
  {
    if |s| > 0 && IsTrimmable(s[0]) then TrimStart(s[1..]) else s
  }

  /** The longest prefix of s that does not end with a trimmable character. */
  function TrimEnd(s: string): (r: string)
    ensures |r| <= |s| && r == s[..|r|]
    ensures r == [] || !IsTrimmable(r[|r| - 1])
    ensures forall i :: |r| <= i < |s| ==> IsTrimmable(s[i])
  {
    if |s| > 0 && IsTrimmable(s[|s| - 1]) then TrimEnd(s[..|s| - 1]) else s
  }

  /** s[a..b] is what remains of s when only trimmable characters are cut
    * away, before a and from b on. */
  predicate IsMiddle(s: string, a: int, b: int) {
    && 0 <= a <= b <= |s|
    && (forall i :: 0 <= i < a ==> IsTrimmable(s[i]))
    && (forall i :: b <= i < |s| ==> IsTrimmable(s[i]))
  }

  /** Cutting trimmable characters off the front of s, leaving the suffix t,
    * and then off the back of t, leaving the prefix r, leaves s[a..b] with
    * IsMiddle(s, a, b). */
  lemma MiddleOfCuts(s: string, t: string, r: string)
    requires |t| <= |s| && t == s[|s| - |t|..]
    requires forall i :: 0 <= i < |s| - |t| ==> IsTrimmable(s[i])
    requires |r| <= |t| && r == t[..|r|]
    requires forall i :: |r| <= i < |t| ==> IsTrimmable(t[i])
    ensures IsMiddle(s, |s| - |t|, |s| - |t| + |r|)
    ensures r == s[|s| - |t|..|s| - |t| + |r|]
  {
    var a := |s| - |t|;
    forall i | a + |r| <= i < |s| ensures IsTrimmable(s[i]) {
      assert s[i] == t[i - a];
    }
  }

  /** String.trim: the middle s[a..b] of s, where everything before a and
    * from b on is a trimmable character and the result has none at its ends. */
  function Trim(s: string): (r: string)
    ensures IsTrimmed(r)
    ensures |r| <= |s|
    ensures exists a, b :: IsMiddle(s, a, b) && r == s[a..b]
  {
    MiddleOfCuts(s, TrimStart(s), TrimEnd(TrimStart(s)));
    TrimEnd(TrimStart(s))
  }

  /** trim does nothing to a string that is already trimmed. */
  lemma TrimOfTrimmed(s: string)
    requires IsTrimmed(s)
    ensures Trim(s) == s
  {
  }

  /** trim is idempotent. */
  lemma TrimIdempotent(s: string)
    ensures Trim(Trim(s)) == Trim(s)
  {
    TrimOfTrimmed(Trim(s));
  }

  /** On ASCII text isBlank and trim agree: a blank string trims to "".
    * (Above ASCII they part: U+2000 is blank but survives trim.) */
  lemma {:induction false} AsciiBlankTrimsToEmpty(s: string)
    requires IsBlank(s)
    requires forall i :: 0 <= i < |s| ==> s[i] < '\U{0080}'
    ensures Trim(s) == ""
  {
    forall i | 0 <= i < |s| ensures IsTrimmable(s[i]) {
      assert IsWhitespace(s[i]) && s[i] < '\U{0080}';
    }
    TrimStartOfTrimmable(s);
  }

  /** A string made only of trimmable characters loses all of them. */
  lemma {:induction false} TrimStartOfTrimmable(s: string)
    requires forall i :: 0 <= i < |s| ==> IsTrimmable(s[i])
    ensures TrimStart(s) == ""
    decreases |s|
  {
    if |s| > 0 {
      assert forall i :: 0 <= i < |s| - 1 ==> s[1..][i] == s[i + 1];
      TrimStartOfTrimmable(s[1..]);
    }
  }

  lemma BlankSurvivesTrim()
    ensures IsBlank("\U{2000}") && Trim("\U{2000}") == "\U{2000}"
  {
    assert IsWhitespace("\U{2000}"[0]);
    TrimOfTrimmed("\U{2000}");
  }

  // ---------------------------------------------------------------- case

  /** Per-character case folding: upper-case letters of ASCII, of Latin-1 and
    * the Polish letters Ą Ć Ę Ł Ń Ś Ź Ż map to their lower-case forms; every
    * other character maps to itself. */
  function FoldCase(c: char): char
  {
    if 'A' <= c <= 'Z' then (c as int + 32) as char
    else if '\U{00C0}' <= c <= '\U{00DE}' && c != '\U{00D7}' then (c as int + 32) as char
    else if c == '\U{0104}' || c == '\U{0106}' || c == '\U{0118}' || c == '\U{0141}'
         || c == '\U{0143}' || c == '\U{015A}' || c == '\U{0179}' || c == '\U{017B}'
    then (c as int + 1) as char
    else c
  }

  /** String.equalsIgnoreCase on two non-null strings. */
  predicate EqualsIgnoreCase(a: string, b: string)
    ensures a == b ==> EqualsIgnoreCase(a, b)
    ensures EqualsIgnoreCase(a, b) ==> |a| == |b|
  {
    |a| == |b| && forall i :: 0 <= i < |a| ==> FoldCase(a[i]) == FoldCase(b[i])
  }

  lemma EqualsIgnoreCaseSymmetric(a: string, b: string)
    ensures EqualsIgnoreCase(a, b) == EqualsIgnoreCase(b, a)
  {
  }

  lemma EqualsIgnoreCaseTransitive(a: string, b: string, c: string)
    requires EqualsIgnoreCase(a, b) && EqualsIgnoreCase(b, c)
    ensures EqualsIgnoreCase(a, c)
  {
  }

  // ---------------------------------------------------------------- search

  /** pat occurs in s starting at index k. */
  predicate OccursAt(s: string, pat: string, k: nat) {
    k + |pat| <= |s| && s[k..k + |pat|] == pat
  }

  /** String.indexOf for a non-empty literal pattern, with |s| standing for
    * Java's -1: the least index at which pat occurs. */
  function IndexOf(s: string, pat: string): (r: nat)
    requires |pat| > 0
    ensures r <= |s|
    ensures r < |s| ==> OccursAt(s, pat, r)
    ensures forall k :: 0 <= k < r ==> !OccursAt(s, pat, k)
    ensures r == |s| ==> forall k :: 0 <= k <= |s| ==> !OccursAt(s, pat, k)
    decreases |s|
  {
    if |s| < |pat| then |s|
    else if s[..|pat|] == pat then 0
    else
      var r := IndexOf(s[1..], pat);
      assert !OccursAt(s, pat, 0) by { assert s[0..|pat|] == s[..|pat|]; }
      forall k | 1 <= k < |s| ensures OccursAt(s, pat, k) <==> OccursAt(s[1..], pat, k - 1) {
        if k + |pat| <= |s| {
          assert s[1..][k - 1..k - 1 + |pat|] == s[k..k + |pat|];
        }
      }
      1 + r
  }

  /** String.contains for a non-empty literal pattern. */
  predicate Contains(s: string, pat: string)
    requires |pat| > 0
  {
    IndexOf(s, pat) < |s|
  }

  /** The least occurrence determines IndexOf. */
  lemma IndexOfIsLeast(s: string, pat: string, r: nat)
    requires |pat| > 0
    requires OccursAt(s, pat, r)
    requires forall k :: 0 <= k < r ==> !OccursAt(s, pat, k)
    ensures IndexOf(s, pat) == r
  {
  }
}
