/**
 * String helpers used by the row reader and by the integer parser:
 * trimming by a white-space class and the comma-to-period replacement.
 */
module Text {

  /** The characters `Char.IsWhiteSpace` accepts, which `String.Trim()` removes. */
  predicate IsWhiteSpace(c: char)
  {
    var n := c as int;
    (0x09 <= n <= 0x0D) || n == 0x20 || n == 0x85 || n == 0xA0 || n == 0x1680
    || (0x2000 <= n <= 0x200A) || n == 0x2028 || n == 0x2029 || n == 0x202F
    || n == 0x205F || n == 0x3000
  }

  /** The white space `int.TryParse` skips around a number: tab through carriage return, and space. */
  predicate IsNumberWhite(c: char)
  {
    c == ' ' || '\t' <= c <= '\r'
  }

  predicate AllWhite(s: string, white: char -> bool)
  {
    forall k :: 0 <= k < |s| ==> white(s[k])
  }

  /** Number of characters at the front of `s` that belong to `white`. */
  function LeadingCount(s: string, white: char -> bool): (n: nat)
    ensures n <= |s|
  {
    if |s| > 0 && white(s[0]) then 1 + LeadingCount(s[1..], white) else 0
  }

  /** Number of characters at the back of `s` that belong to `white`. */
  function TrailingCount(s: string, white: char -> bool): (n: nat)
    ensures n <= |s|
  {
    if |s| > 0 && white(s[|s| - 1]) then 1 + TrailingCount(s[..|s| - 1], white) else 0
  }

  /** `LeadingCount` counts the longest run of `white` at the front. */
  lemma {:induction false} LeadingRun(s: string, white: char -> bool)
    ensures var n := LeadingCount(s, white);
            AllWhite(s[..n], white) && (n < |s| ==> !white(s[n]))
  {
    if |s| > 0 && white(s[0]) {
      LeadingRun(s[1..], white);
      var n := LeadingCount(s, white);
      assert forall k :: 1 <= k < n ==> s[..n][k] == s[1..][..n - 1][k - 1];
    }
  }

  /** `TrailingCount` counts the longest run of `white` at the back. */
  lemma {:induction false} TrailingRun(s: string, white: char -> bool)
    ensures var n := TrailingCount(s, white);
            AllWhite(s[|s| - n..], white) && (n < |s| ==> !white(s[|s| - 1 - n]))
  {
    if |s| > 0 && white(s[|s| - 1]) {
      var t := s[..|s| - 1];
      TrailingRun(t, white);
      var n := TrailingCount(s, white);
      var back, rest := s[|s| - n..], t[|t| - (n - 1)..];
      assert forall k :: 0 <= k < n - 1 ==> back[k] == rest[k];
    }
  }

  /** `s` without its leading and trailing `white` characters. */
  function Trim(s: string, white: char -> bool): string
  {
    var t := s[LeadingCount(s, white)..];
    t[..|t| - TrailingCount(t, white)]
  }

  /**
   * What `Trim` keeps is the infix `s[i..j]` of `s` with only white space before and after
   * it, and it neither starts nor ends with white space; it is empty exactly when `s` is all
   * white space.
   */
  lemma TrimSpan(s: string, white: char -> bool) returns (i: nat, j: nat)
    ensures i <= j <= |s| && Trim(s, white) == s[i..j]
    ensures AllWhite(s[..i], white) && AllWhite(s[j..], white)
    ensures i == j || (!white(s[i]) && !white(s[j - 1]))
    ensures i == j <==> AllWhite(s, white)
  {
    i := LeadingCount(s, white);
    var t := s[i..];
    var m := TrailingCount(t, white);
    LeadingRun(s, white);
    TrailingRun(t, white);
    j := |s| - m;
    assert t[..|t| - m] == s[i..j];
    forall k | j <= k < |s|
      ensures white(s[k])
    {
      assert s[k] == t[k - i];
    }
    if i < j {
      assert s[j - 1] == t[|t| - 1 - m];
    }
  }

  lemma {:induction false} LeadingCountIs(s: string, white: char -> bool, i: nat)
    requires i <= |s| && AllWhite(s[..i], white)
    requires i == |s| || !white(s[i])
    ensures LeadingCount(s, white) == i
  {
    if i > 0 {
      var front, rest := s[..i], s[1..][..i - 1];
      assert white(front[0]);
      assert forall k :: 0 <= k < i - 1 ==> rest[k] == front[k + 1];
      LeadingCountIs(s[1..], white, i - 1);
    }
  }

  lemma {:induction false} TrailingCountIs(s: string, white: char -> bool, m: nat)
    requires m <= |s| && AllWhite(s[|s| - m..], white)
    requires m == |s| || !white(s[|s| - 1 - m])
    ensures TrailingCount(s, white) == m
  {
    if m > 0 {
      var t := s[..|s| - 1];
      var back, rest := s[|s| - m..], t[|t| - (m - 1)..];
      assert white(back[m - 1]);
      assert forall k :: 0 <= k < m - 1 ==> rest[k] == back[k];
      TrailingCountIs(t, white, m - 1);
    }
  }

  /** `Trim` gives back the one infix that has only white space around it and none at its ends. */
  lemma TrimUnique(s: string, white: char -> bool, i: nat, j: nat)
    requires i <= j <= |s|
    requires AllWhite(s[..i], white) && AllWhite(s[j..], white)
    requires i == j || (!white(s[i]) && !white(s[j - 1]))
    ensures Trim(s, white) == s[i..j]
  {
    if i == j {
      assert forall k :: 0 <= k < |s| ==> (k < i ==> s[k] == s[..i][k]) && (k >= j ==> s[k] == s[j..][k - j]);
      LeadingCountIs(s, white, |s|);
    } else {
      LeadingCountIs(s, white, i);
      var t := s[i..];
      assert t[|t| - (|s| - j)..] == s[j..];
      TrailingCountIs(t, white, |s| - j);
      assert t[..j - i] == s[i..j];
    }
  }

  lemma PaddedInfix(pre: string, s: string, post: string, white: char -> bool, i: nat, j: nat)
    requires AllWhite(pre, white) && AllWhite(post, white)
    requires i <= j <= |s| && AllWhite(s[..i], white) && AllWhite(s[j..], white)
    ensures (pre + s + post)[|pre| + i..|pre| + j] == s[i..j]
    ensures AllWhite((pre + s + post)[..|pre| + i], white)
    ensures AllWhite((pre + s + post)[|pre| + j..], white)
  {
    var whole := pre + s + post;
    forall k | 0 <= k < |pre| + i ensures white(whole[k]) {
      if k < |pre| {
        assert whole[k] == pre[k];
      } else {
        assert whole[k] == s[..i][k - |pre|];
      }
    }
    forall k | |pre| + j <= k < |whole| ensures white(whole[k]) {
      if k < |pre| + |s| {
        assert whole[k] == s[j..][k - |pre| - j];
      } else {
        assert whole[k] == post[k - |pre| - |s|];
      }
    }
  }

  /** An infix with only white space around it, padded further, is still what `Trim` keeps. */
  lemma TrimOfPadded(pre: string, s: string, post: string, white: char -> bool, i: nat, j: nat)
    requires AllWhite(pre, white) && AllWhite(post, white)
    requires i <= j <= |s| && AllWhite(s[..i], white) && AllWhite(s[j..], white)
    requires i == j || (!white(s[i]) && !white(s[j - 1]))
    ensures Trim(pre + s + post, white) == s[i..j]
  {
    var whole := pre + s + post;
    PaddedInfix(pre, s, post, white, i, j);
    assert i < j ==> whole[|pre| + i] == s[i] && whole[|pre| + j - 1] == s[j - 1];
    TrimUnique(whole, white, |pre| + i, |pre| + j);
  }

  /** White space added around a string is removed again by `Trim`. */
  lemma TrimAbsorbsPadding(pre: string, s: string, post: string, white: char -> bool)
    requires AllWhite(pre, white) && AllWhite(post, white)
    ensures Trim(pre + s + post, white) == Trim(s, white)
  {
    var i, j := TrimSpan(s, white);
    TrimOfPadded(pre, s, post, white, i, j);
  }

  /** Trimming twice is trimming once. */
  lemma TrimIdempotent(s: string, white: char -> bool)
    ensures Trim(Trim(s, white), white) == Trim(s, white)
  {
    var i, j := TrimSpan(s, white);
    TrimUnique(s[i..j], white, 0, j - i);
  }

  /** `s.Replace(",", ".")`: every comma becomes a period, every other character stays. */
  function ReplaceCommas(s: string): string
  {
    if s == [] then []
    else [if s[0] == ',' then '.' else s[0]] + ReplaceCommas(s[1..])
  }

  /** No comma is left, every comma became a period and every other character is kept in place. */
  lemma {:induction false} ReplaceCommasSpec(s: string)
    ensures var r := ReplaceCommas(s);
            && |r| == |s| && ',' !in r
            && (forall k :: 0 <= k < |s| && s[k] != ',' ==> r[k] == s[k])
            && (forall k :: 0 <= k < |s| && s[k] == ',' ==> r[k] == '.')
  {
    if s != [] {
      ReplaceCommasSpec(s[1..]);
      var r := ReplaceCommas(s);
      assert forall k :: 1 <= k < |s| ==> r[k] == ReplaceCommas(s[1..])[k - 1];
    }
  }
}
