/**
 * The .NET string operations the services and validators rely on:
 * char.IsWhiteSpace, string.IsNullOrWhiteSpace, string.Trim and substring
 * containment (the meaning of a `LIKE '%term%'` pattern).
 */
module Text {

  import opened Wrappers

  /** char.IsWhiteSpace: the Unicode space, line and paragraph separators
      plus the control characters U+0009..U+000D and U+0085. */
  predicate IsWhiteSpace(c: char)
  {
    || ('\U{0009}' <= c <= '\U{000D}')
    || c == ' ' || c == '\U{0085}' || c == '\U{00A0}' || c == '\U{1680}'
    || ('\U{2000}' <= c <= '\U{200A}')
    || c == '\U{2028}' || c == '\U{2029}' || c == '\U{202F}' || c == '\U{205F}' || c == '\U{3000}'
  }

  /** Every character of s is white space (true of the empty string). */
  predicate IsBlank(s: string)
  {
    forall i :: 0 <= i < |s| ==> IsWhiteSpace(s[i])
  }

  /** string.IsNullOrWhiteSpace. */
  predicate IsNullOrWhiteSpace(s: Option<string>)
  {
    s.None? || IsBlank(s.value)
  }

  /** The UTF-16 code units c takes in a .NET string: two (a surrogate pair)
      outside the Basic Multilingual Plane, one inside it. */
  function CodeUnits(c: char): (n: nat)
    ensures 1 <= n <= 2
    ensures n == 2 <==> c >= '\U{10000}'
  {
    if c >= '\U{10000}' then 2 else 1
  }

  /** string.Length: the number of UTF-16 code units of s. */
  function Utf16Length(s: string): (n: nat)
    ensures |s| <= n <= 2 * |s|
  {
    if s == [] then 0 else CodeUnits(s[0]) + Utf16Length(s[1..])
  }

  /** The code units of a concatenation are those of its parts. */
  lemma {:induction false} Utf16LengthConcat(x: string, y: string)
    ensures Utf16Length(x + y) == Utf16Length(x) + Utf16Length(y)
  {
    if x != [] {
      assert (x + y)[0] == x[0] && (x + y)[1..] == x[1..] + y;
      Utf16LengthConcat(x[1..], y);
    } else {
      assert x + y == y;
    }
  }

  /** Inside the Basic Multilingual Plane string.Length counts characters. */
  lemma {:induction false} Utf16LengthOfBasicPlane(s: string)
    requires forall i :: 0 <= i < |s| ==> s[i] < '\U{10000}'
    ensures Utf16Length(s) == |s|
  {
    if s != [] {
      assert forall i :: 0 <= i < |s[1..]| ==> s[1..][i] == s[i + 1];
      Utf16LengthOfBasicPlane(s[1..]);
    }
  }

  /** Every character of s from index lo up to, not including, hi is white space. */
  predicate BlankBetween(s: string, lo: int, hi: int)
    requires 0 <= lo <= hi <= |s|
  {
    forall i :: lo <= i < hi ==> IsWhiteSpace(s[i])
  }

  /** The index of the first character at or after i that is not white space,
      or |s| when there is none. */
  function SkipWhiteSpace(s: string, i: nat): (k: nat)
    requires i <= |s|
    ensures i <= k <= |s|
    decreases |s| - i
  {
    if i == |s| || !IsWhiteSpace(s[i]) then i else SkipWhiteSpace(s, i + 1)
  }

  /** Everything skipped is white space, and the skip stops at another character
      or at the end of s. */
  lemma {:induction false} SkipWhiteSpaceRun(s: string, i: nat)
    requires i <= |s|
    ensures var k := SkipWhiteSpace(s, i);
      BlankBetween(s, i, k) && (k < |s| ==> !IsWhiteSpace(s[k]))
    decreases |s| - i
  {
    if i < |s| && IsWhiteSpace(s[i]) {
      SkipWhiteSpaceRun(s, i + 1);
    }
  }

  /** The end of s[lo..hi] once its trailing white space is dropped: the index
      just after the last character in that range that is not white space, or
      lo when there is none. */
  function DropTrailingWhiteSpace(s: string, lo: nat, hi: nat): (e: nat)
    requires lo <= hi <= |s|
    ensures lo <= e <= hi
    decreases hi - lo
  {
    if hi == lo || !IsWhiteSpace(s[hi - 1]) then hi else DropTrailingWhiteSpace(s, lo, hi - 1)
  }

  /** Everything dropped is white space, and what is kept ends with another
      character or is empty. */
  lemma {:induction false} DropTrailingWhiteSpaceRun(s: string, lo: nat, hi: nat)
    requires lo <= hi <= |s|
    ensures var e := DropTrailingWhiteSpace(s, lo, hi);
      BlankBetween(s, e, hi) && (lo < e ==> !IsWhiteSpace(s[e - 1]))
    decreases hi - lo
  {
    if hi > lo && IsWhiteSpace(s[hi - 1]) {
      DropTrailingWhiteSpaceRun(s, lo, hi - 1);
    }
  }

  /** A concatenation is blank when both parts are. */
  lemma BlankConcat(x: string, y: string)
    ensures IsBlank(x + y) <==> IsBlank(x) && IsBlank(y)
  {
    if IsBlank(x + y) {
      forall i | 0 <= i < |x| ensures IsWhiteSpace(x[i]) { assert x[i] == (x + y)[i]; }
      forall i | 0 <= i < |y| ensures IsWhiteSpace(y[i]) { assert y[i] == (x + y)[|x| + i]; }
    }
  }

  /** string.Trim: s with its leading and trailing white space removed. */
  function Trim(s: string): (r: string)
    ensures |r| <= |s|
  {
    var a := SkipWhiteSpace(s, 0);
    s[a..DropTrailingWhiteSpace(s, a, |s|)]
  }

  /** What Trim leaves: the slice of s between its leading white space and a
      white-space suffix, neither starting nor ending with white space, and
      empty exactly when s is all white space. */
  lemma TrimSlice(s: string)
    ensures var a, r := SkipWhiteSpace(s, 0), Trim(s);
      a + |r| <= |s| && r == s[a..a + |r|] && BlankBetween(s, 0, a) && BlankBetween(s, a + |r|, |s|)
    ensures var r := Trim(s);
      r != [] ==> !IsWhiteSpace(r[0]) && !IsWhiteSpace(r[|r| - 1])
    ensures Trim(s) == [] <==> IsBlank(s)
  {
    var a := SkipWhiteSpace(s, 0);
    var e := DropTrailingWhiteSpace(s, a, |s|);
    SkipWhiteSpaceRun(s, 0);
    DropTrailingWhiteSpaceRun(s, a, |s|);
    var r := s[a..e];
    assert Trim(s) == r;
    if r != [] {
      assert r[0] == s[a] && r[|r| - 1] == s[e - 1];
      assert !IsBlank(s);
    } else {
      assert IsBlank(s) by {
        forall i | 0 <= i < |s| ensures IsWhiteSpace(s[i]) {
          assert i < a || e <= i;
        }
      }
    }
  }

  /** A string with no white space at either end is its own trim. */
  lemma {:induction false} TrimOfTrimmed(s: string)
    requires s != [] ==> !IsWhiteSpace(s[0]) && !IsWhiteSpace(s[|s| - 1])
    ensures Trim(s) == s
  {
    if s != [] {
      assert SkipWhiteSpace(s, 0) == 0;
      assert DropTrailingWhiteSpace(s, 0, |s|) == |s|;
    }
  }

  /** Trimming twice is trimming once. */
  lemma {:induction false} TrimIdempotent(s: string)
    ensures Trim(Trim(s)) == Trim(s)
  {
    TrimSlice(s);
    TrimOfTrimmed(Trim(s));
  }

  /** Skipping from inside a blank prefix of x stops right after it, when the
      character after it is not white space. */
  lemma {:induction false} SkipPadding(x: string, n: nat, i: nat)
    requires i <= n < |x| && BlankBetween(x, i, n) && !IsWhiteSpace(x[n])
    ensures SkipWhiteSpace(x, i) == n
    decreases n - i
  {
    if i < n {
      SkipPadding(x, n, i + 1);
    }
  }

  /** Dropping white space from the end of x, above a character at n - 1 that
      is not white space, stops at n when everything from n on is blank. */
  lemma {:induction false} DropPadding(x: string, lo: nat, n: nat, hi: nat)
    requires lo < n <= hi <= |x| && BlankBetween(x, n, hi) && !IsWhiteSpace(x[n - 1])
    ensures DropTrailingWhiteSpace(x, lo, hi) == n
    decreases hi - n
  {
    if n < hi {
      DropPadding(x, lo, n, hi - 1);
    }
  }

  /** Trim undoes white-space padding: Trim(pre + s + post) == s for a blank pre
      and post and an s with no white space at either end. */
  lemma {:induction false} TrimStripsPadding(pre: string, s: string, post: string)
    requires IsBlank(pre) && IsBlank(post)
    requires s != [] ==> !IsWhiteSpace(s[0]) && !IsWhiteSpace(s[|s| - 1])
    ensures Trim(pre + s + post) == s
  {
    var x := pre + s + post;
    if s == [] {
      assert x == pre + post;
      BlankConcat(pre, post);
      TrimSlice(x);
    } else {
      var n, m := |pre|, |pre| + |s|;
      assert forall i :: 0 <= i < n ==> x[i] == pre[i];
      assert x[n] == s[0] && x[m - 1] == s[|s| - 1];
      assert forall i :: m <= i < |x| ==> x[i] == post[i - m];
      SkipPadding(x, n, 0);
      DropPadding(x, n, m, |x|);
      assert x[n..m] == s;
    }
  }

  /** A string that is not null or white space trims to a non-empty string. */
  lemma TrimNonBlank(s: Option<string>)
    requires !IsNullOrWhiteSpace(s)
    ensures |Trim(s.value)| >= 1
  {
    TrimSlice(s.value);
  }

  /** t occurs in s starting at index i. */
  predicate OccursAt(s: string, t: string, i: nat)
  {
    i + |t| <= |s| && s[i..i + |t|] == t
  }

  /** Substring containment, scanning s from the left. */
  function Contains(s: string, t: string): bool
    decreases |s|
  {
    if |t| > |s| then false
    else if s[..|t|] == t then true
    else Contains(s[1..], t)
  }

  /** Contains(s, t) holds exactly when t occurs somewhere in s. */
  lemma {:induction false} ContainsOccurs(s: string, t: string)
    ensures Contains(s, t) <==> exists i: nat :: OccursAt(s, t, i)
    decreases |s|
  {
    if |t| > |s| {
      assert forall i: nat :: !OccursAt(s, t, i);
    } else if s[..|t|] == t {
      assert OccursAt(s, t, 0);
    } else {
      ContainsOccurs(s[1..], t);
      assert forall i: nat :: OccursAt(s[1..], t, i) <==> OccursAt(s, t, i + 1) by {
        forall i: nat ensures OccursAt(s[1..], t, i) <==> OccursAt(s, t, i + 1) {
          if i + |t| <= |s[1..]| { assert s[1..][i..i + |t|] == s[i + 1..i + 1 + |t|]; }
        }
      }
      assert forall i: nat :: OccursAt(s, t, i) && i > 0 ==> OccursAt(s[1..], t, i - 1);
    }
  }
}
