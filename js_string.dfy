/**
 * The JavaScript string operations the app relies on, as ECMAScript defines them:
 * the white-space class used by `trim` and `parseInt`, `String.prototype.trim`,
 * `indexOf` with a string pattern, and `replace` with a string pattern (which
 * replaces the first occurrence only).
 */
module JsString {
  import opened Types

  /** ECMAScript WhiteSpace and LineTerminator code points (StrWhiteSpaceChar). */
  predicate IsWhiteSpace(c: char) {
    c in WhiteSpaceChars
  }

  const WhiteSpaceChars: set<char> := {'\t', '\n', '\U{0B}', '\U{0C}', '\r', ' ', '\U{A0}', '\U{1680}',
    '\U{2000}', '\U{2001}', '\U{2002}', '\U{2003}', '\U{2004}', '\U{2005}', '\U{2006}', '\U{2007}', '\U{2008}', '\U{2009}', '\U{200A}',
    '\U{2028}', '\U{2029}', '\U{202F}', '\U{205F}', '\U{3000}', '\U{FEFF}'}

  /** Neither end of `s` is white space. */
  predicate Trimmed(s: string) {
    s == [] || (!IsWhiteSpace(s[0]) && !IsWhiteSpace(s[|s| - 1]))
  }

  /** Drops leading white space. */
  function TrimStart(s: string): (r: string)
    ensures |r| <= |s| && r == s[|s| - |r|..]
    ensures forall i :: 0 <= i < |s| - |r| ==> IsWhiteSpace(s[i])
    ensures r == [] || !IsWhiteSpace(r[0])
    decreases |s|
  {
    if |s| > 0 && IsWhiteSpace(s[0]) then TrimStart(s[1..]) else s
  }

  /** Drops trailing white space. */
  function TrimEnd(s: string): (r: string)
    ensures |r| <= |s| && r == s[..|r|]
    ensures forall i :: |r| <= i < |s| ==> IsWhiteSpace(s[i])
    ensures r == [] || !IsWhiteSpace(r[|r| - 1])
    decreases |s|
  {
    if |s| > 0 && IsWhiteSpace(s[|s| - 1]) then TrimEnd(s[..|s| - 1]) else s
  }

  /** `s.trim()`: the longest middle piece of `s` with white space at neither end. */
  function Trim(s: string): (r: string)
    ensures Trimmed(r)
    ensures TrimmedFrom(r, s, |s| - |TrimStart(s)|)
    ensures multiset(r) <= multiset(s)
  {
    TrimIsTrimmedInfix(s);
    TrimDropsOnlyWhiteSpace(s);
    InfixMultiset(TrimEnd(TrimStart(s)), s, |s| - |TrimStart(s)|);
    TrimEnd(TrimStart(s))
  }

  /** Every character of `t` is white space. */
  predicate AllWhiteSpace(t: string) {
    forall k :: 0 <= k < |t| ==> IsWhiteSpace(t[k])
  }

  /** `r` is the piece of `s` at position `i`, and everything of `s` before and after it is white space. */
  predicate TrimmedFrom(r: string, s: string, i: int) {
    InfixAt(r, s, i) && AllWhiteSpace(s[..i]) && AllWhiteSpace(s[i + |r|..])
  }

  /** What `trim` drops from `s` at either end is white space. */
  lemma TrimDropsOnlyWhiteSpace(s: string)
    ensures TrimmedFrom(TrimEnd(TrimStart(s)), s, |s| - |TrimStart(s)|)
  {
    var t := TrimStart(s);
    var i := |s| - |t|;
    var r := TrimEnd(t);
    TrimIsTrimmedInfix(s);
    forall k | 0 <= k < i
      ensures IsWhiteSpace(s[..i][k])
    {
      assert s[..i][k] == s[k];
    }
    var tail := s[i + |r|..];
    forall k | 0 <= k < |tail|
      ensures IsWhiteSpace(tail[k])
    {
      assert tail[k] == t[|r| + k];
    }
  }

  /** Runs of white space around `r` add no other character. */
  lemma WhiteSpaceAddsNone(pre: string, r: string, post: string, c: char)
    requires AllWhiteSpace(pre) && AllWhiteSpace(post) && !IsWhiteSpace(c)
    ensures multiset(pre + r + post)[c] == multiset(r)[c]
  {
    assert c !in pre && c !in post;
  }

  /** `trim` keeps every occurrence of a character that is not white space. */
  lemma TrimKeepsNonWhiteSpace(s: string, c: char)
    requires !IsWhiteSpace(c)
    ensures multiset(Trim(s))[c] == multiset(s)[c]
  {
    TrimmedFromKeeps(Trim(s), s, |s| - |TrimStart(s)|, c);
  }

  /** A piece cut out of white space has every other character of the whole. */
  lemma TrimmedFromKeeps(r: string, s: string, i: int, c: char)
    requires TrimmedFrom(r, s, i) && !IsWhiteSpace(c)
    ensures multiset(r)[c] == multiset(s)[c]
  {
    assert s == s[..i] + r + s[i + |r|..];
    WhiteSpaceAddsNone(s[..i], r, s[i + |r|..], c);
  }

  lemma TrimIsTrimmedInfix(s: string)
    ensures Trimmed(TrimEnd(TrimStart(s)))
    ensures InfixAt(TrimEnd(TrimStart(s)), s, |s| - |TrimStart(s)|)
  {
    var t := TrimStart(s);
    var r := TrimEnd(t);
    TrimEndKeepsFirst(t);
    assert Trimmed(r) by {
      if r != [] {
        assert !IsWhiteSpace(r[0]) by { assert r[0] == t[0]; }
      }
    }
    PrefixOfSuffix(s, |s| - |t|, r);
  }

  /** A prefix of the suffix from `k` is the piece of `s` that starts at `k`. */
  lemma PrefixOfSuffix(s: string, k: nat, r: string)
    requires k <= |s| && |r| <= |s| - k && r == s[k..][..|r|]
    ensures InfixAt(r, s, k)
  {
  }

  /** Trimming the end keeps the first character of what remains. */
  lemma TrimEndKeepsFirst(t: string)
    ensures TrimEnd(t) == t[..|TrimEnd(t)|]
    ensures TrimEnd(t) != [] ==> TrimEnd(t)[0] == t[0]
  {
  }

  lemma InfixMultiset(r: string, s: string, i: int)
    requires InfixAt(r, s, i)
    ensures multiset(r) <= multiset(s)
  {
    assert s == s[..i] + r + s[i + |r|..];
  }

  /** `r` is the piece of `s` that starts at position `i`. */
  predicate InfixAt(r: string, s: string, i: int) {
    0 <= i <= |s| - |r| && r == s[i..i + |r|]
  }

  /** Trimming a string that is already trimmed changes nothing. */
  lemma TrimOfTrimmed(s: string)
    requires Trimmed(s)
    ensures Trim(s) == s
  {
    assert TrimStart(s) == s;
    assert TrimEnd(s) == s;
  }

  /** `pat` occurs in `s` at position `i`. */
  predicate OccursAt(s: string, pat: string, i: nat) {
    i + |pat| <= |s| && s[i..i + |pat|] == pat
  }

  /** The first position at or after `from` where `pat` occurs in `s`. */
  function IndexOfFrom(s: string, pat: string, from: nat): (r: Option<nat>)
    requires from <= |s|
    ensures r.Some? ==> from <= r.value && OccursAt(s, pat, r.value)
    ensures r.Some? ==> forall j :: from <= j < r.value ==> !OccursAt(s, pat, j)
    ensures r.None? ==> forall j :: from <= j <= |s| ==> !OccursAt(s, pat, j)
    decreases |s| - from
  {
    if OccursAt(s, pat, from) then Some(from)
    else if from == |s| then None
    else IndexOfFrom(s, pat, from + 1)
  }

  /** `s.indexOf(pat)`, with `None` for -1. */
  function IndexOf(s: string, pat: string): (r: Option<nat>)
    ensures r.Some? ==> OccursAt(s, pat, r.value)
    ensures r.Some? ==> forall j :: 0 <= j < r.value ==> !OccursAt(s, pat, j)
    ensures r.None? ==> forall j :: 0 <= j <= |s| ==> !OccursAt(s, pat, j)
  {
    IndexOfFrom(s, pat, 0)
  }

  /**
   * `s.replace(pat, rep)` with a string pattern: only the first occurrence is replaced.
   * `rep` is inserted literally; the `$` substitution patterns JavaScript expands in a
   * replacement string are not modelled (the cleanup only ever passes the empty string).
   */
  function ReplaceFirst(s: string, pat: string, rep: string): (r: string)
    ensures IndexOf(s, pat).None? ==> r == s
    ensures IndexOf(s, pat).Some? ==> |r| == |s| - |pat| + |rep|
  {
    match IndexOf(s, pat)
    case None => s
    case Some(i) => s[..i] + rep + s[i + |pat|..]
  }

  /** The first occurrence is where the replacement happens. */
  lemma ReplaceFirstAt(s: string, pat: string, rep: string, i: nat)
    requires OccursAt(s, pat, i)
    requires forall j :: 0 <= j < i ==> !OccursAt(s, pat, j)
    ensures ReplaceFirst(s, pat, rep) == s[..i] + rep + s[i + |pat|..]
  {
    assert IndexOf(s, pat) == Some(i);
  }

  /** Removing the first occurrence takes exactly the pattern's characters out, or nothing when it does not occur. */
  lemma ReplaceFirstRemoves(s: string, pat: string)
    ensures IndexOf(s, pat).None? ==> ReplaceFirst(s, pat, "") == s
    ensures IndexOf(s, pat).Some? ==>
      |ReplaceFirst(s, pat, "")| + |pat| == |s| &&
      multiset(ReplaceFirst(s, pat, "")) + multiset(pat) == multiset(s)
  {
    match IndexOf(s, pat)
    case None =>
    case Some(i) =>
      assert s == s[..i] + pat + s[i + |pat|..];
      assert ReplaceFirst(s, pat, "") == s[..i] + s[i + |pat|..];
  }

  /** A one-character pattern is found exactly when that character occurs. */
  lemma IndexOfChar(s: string, c: char)
    ensures IndexOf(s, [c]).Some? <==> c in s
  {
    if c in s {
      var j :| 0 <= j < |s| && s[j] == c;
      assert OccursAt(s, [c], j);
    }
    if IndexOf(s, [c]).Some? {
      var i := IndexOf(s, [c]).value;
      assert s[i] == s[i..i + 1][0];
    }
  }
}
