/** String operations the indexer relies on: substring search (`std::string::find`),
    prefix tests, `fmt::join`, `hdoc::utils::replaceAll`, `std::to_string` and the
    two `std::regex_replace(s, std::regex("<.*>"), r)` calls of the matchers. */
module Strings {
  import opened Util

  /** `sub` occurs in `s` starting at position `i`. */
  predicate OccursAt(s: string, sub: string, i: nat) {
    i + |sub| <= |s| && s[i..i + |sub|] == sub
  }

  /** `s.find(sub) != std::string::npos`: the empty string occurs everywhere. */
  predicate IsSubstring(sub: string, s: string) {
    exists i :: 0 <= i <= |s| && OccursAt(s, sub, i)
  }

  /** `s.starts_with(prefix)`. */
  predicate StartsWith(s: string, prefix: string) {
    |prefix| <= |s| && s[..|prefix|] == prefix
  }

  /** `fmt::join(xs, sep)`: the elements in order, separated by `sep`. */
  function Join(xs: seq<string>, sep: string): string {
    if |xs| == 0 then ""
    else if |xs| == 1 then xs[0]
    else Join(xs[..|xs| - 1], sep) + sep + xs[|xs| - 1]
  }

  /** Decimal digits of `n`, most significant first, as `std::to_string` prints them. */
  function ToDecimal(n: nat): (r: string)
    ensures |r| > 0
    ensures forall k :: 0 <= k < |r| ==> '0' <= r[k] <= '9'
  {
    if n < 10 then [('0' as int + n) as char]
    else ToDecimal(n / 10) + [('0' as int + n % 10) as char]
  }

  /** A larger number never has fewer digits. */
  lemma {:induction false} ToDecimalLengthMonotone(n: nat, m: nat)
    requires n <= m
    ensures |ToDecimal(n)| <= |ToDecimal(m)|
    decreases m
  {
    if n >= 10 {
      ToDecimalLengthMonotone(n / 10, m / 10);
    }
  }

  /** Different numbers print differently. */
  lemma {:induction false} ToDecimalInjective(n: nat, m: nat)
    requires ToDecimal(n) == ToDecimal(m)
    ensures n == m
    decreases n
  {
    var a, b := ToDecimal(n), ToDecimal(m);
    if n < 10 && m < 10 {
      assert a[0] == b[0];
    } else if n >= 10 && m >= 10 {
      assert a[|a| - 1] == b[|b| - 1];
      assert n % 10 == m % 10;
      assert ToDecimal(n / 10) == a[..|a| - 1] == b[..|b| - 1] == ToDecimal(m / 10);
      ToDecimalInjective(n / 10, m / 10);
    }
  }

  /** `replaceAll(s, from, to)`: every occurrence of `from` found scanning left to right
      (non-overlapping, resuming after the inserted text) is replaced by `to`. */
  function ReplaceAll(s: string, from: string, to: string): string
    requires |from| > 0
    decreases |s|
  {
    if |s| < |from| then s
    else if s[..|from|] == from then to + ReplaceAll(s[|from|..], from, to)
    else [s[0]] + ReplaceAll(s[1..], from, to)
  }

  lemma {:induction false} ReplaceAllAbsent(s: string, from: string, to: string)
    requires |from| > 0
    requires !IsSubstring(from, s)
    ensures ReplaceAll(s, from, to) == s
    decreases |s|
  {
    if |s| >= |from| {
      assert OccursAt(s, from, 0) == (s[..|from|] == from);
      if !IsSubstring(from, s[1..]) {
        ReplaceAllAbsent(s[1..], from, to);
      } else {
        var i :| 0 <= i <= |s[1..]| && OccursAt(s[1..], from, i);
        assert s[1..][i..i + |from|] == s[i + 1..i + 1 + |from|];
        assert OccursAt(s, from, i + 1);
        assert false;
      }
    }
  }

  /** A prefix in which no occurrence of `from` starts is copied unchanged. */
  lemma {:induction false} ReplaceAllSkipPrefix(a: string, b: string, from: string, to: string)
    requires |from| > 0
    requires forall k :: 0 <= k < |a| ==> !OccursAt(a + b, from, k)
    ensures ReplaceAll(a + b, from, to) == a + ReplaceAll(b, from, to)
    decreases |a|
  {
    if |a| > 0 {
      var s := a + b;
      if |s| < |from| {
        assert ReplaceAll(s, from, to) == s;
        assert ReplaceAll(b, from, to) == b;
      } else {
        assert !OccursAt(s, from, 0);
        assert s[1..] == a[1..] + b;
        forall k | 0 <= k < |a| - 1 ensures !OccursAt(a[1..] + b, from, k) {
          assert !OccursAt(s, from, k + 1);
          if k + |from| <= |s[1..]| {
            assert s[1..][k..k + |from|] == s[k + 1..k + 1 + |from|];
          }
        }
        ReplaceAllSkipPrefix(a[1..], b, from, to);
        assert s[..|from|] != from;
        assert ReplaceAll(s, from, to) == [s[0]] + ReplaceAll(s[1..], from, to);
        assert s[0] == a[0];
        assert a == [a[0]] + a[1..];
        assert [a[0]] + (a[1..] + ReplaceAll(b, from, to)) == a + ReplaceAll(b, from, to);
      }
    } else {
      assert a + b == b;
    }
  }

  /** An occurrence of `from` at the very start is replaced, and the scan resumes after it. */
  lemma ReplaceAllLeading(from: string, b: string, to: string)
    requires |from| > 0
    ensures ReplaceAll(from + b, from, to) == to + ReplaceAll(b, from, to)
  {
    assert (from + b)[..|from|] == from;
    assert (from + b)[|from|..] == b;
  }

  /** A string whose only occurrence of `from` is the whole of it becomes `to`. */
  lemma ReplaceAllWhole(s: string, to: string)
    requires |s| > 0
    ensures ReplaceAll(s, s, to) == to
  {
    assert s[..|s|] == s;
    assert s[|s|..] == [];
    assert ReplaceAll(s, s, to) == to + ReplaceAll([], s, to);
  }

  /** A line terminator, which the ECMAScript `.` of `std::regex` does not match. */
  predicate IsLineTerminator(c: char) {
    c == '\n' || c == '\r' || c == '\U{2028}' || c == '\U{2029}'
  }

  /** First index at or after `i` that holds a line terminator, or `|s|`. */
  function LineEnd(s: string, i: nat): (e: nat)
    requires i <= |s|
    ensures i <= e <= |s|
    ensures forall k :: i <= k < e ==> !IsLineTerminator(s[k])
    ensures e < |s| ==> IsLineTerminator(s[e])
    decreases |s| - i
  {
    if i == |s| || IsLineTerminator(s[i]) then i else LineEnd(s, i + 1)
  }

  /** The last index in `[lo, hi)` holding '>'. */
  function LastClose(s: string, lo: nat, hi: nat): (q: Option<nat>)
    requires lo <= hi <= |s|
    ensures q.Some? ==> lo <= q.value < hi && s[q.value] == '>'
    ensures q.Some? ==> forall k :: q.value < k < hi ==> s[k] != '>'
    ensures q.None? ==> forall k :: lo <= k < hi ==> s[k] != '>'
    decreases hi
  {
    if hi == lo then None
    else if s[hi - 1] == '>' then Some(hi - 1)
    else LastClose(s, lo, hi - 1)
  }


  /** `std::regex_replace(s, std::regex("<.*>"), repl)`: from left to right, each '<'
      that has a '>' later on its line starts a match, which extends greedily to the
      last '>' of that line and is replaced by `repl`; the search resumes after it. */
  function ReplaceAngleSpans(s: string, repl: string): string
    decreases |s|
  {
    if |s| == 0 then ""
    else if s[0] == '<' && LastClose(s, 1, LineEnd(s, 1)).Some? then
      repl + ReplaceAngleSpans(s[LastClose(s, 1, LineEnd(s, 1)).value + 1..], repl)
    else [s[0]] + ReplaceAngleSpans(s[1..], repl)
  }

  predicate SingleLine(s: string) {
    forall k :: 0 <= k < |s| ==> !IsLineTerminator(s[k])
  }

  /** A single-line string without '>' is left unchanged. */
  lemma {:induction false} ReplaceAngleSpansNoClose(s: string, repl: string)
    requires forall k :: 0 <= k < |s| ==> s[k] != '>'
    ensures ReplaceAngleSpans(s, repl) == s
    decreases |s|
  {
    if |s| > 0 {
      assert s[0] == '<' ==> LastClose(s, 1, LineEnd(s, 1)).None?;
      ReplaceAngleSpansNoClose(s[1..], repl);
    }
  }

  /** A match at the very start swallows everything up to the last '>' of the line. */
  lemma {:induction false} ReplaceAngleSpansAtStart(s: string, repl: string, j: nat)
    requires SingleLine(s)
    requires 0 < j < |s| && s[0] == '<' && s[j] == '>'
    requires forall k :: j < k < |s| ==> s[k] != '>'
    ensures ReplaceAngleSpans(s, repl) == repl + s[j + 1..]
  {
    assert LineEnd(s, 1) == |s|;
    var q := LastClose(s, 1, |s|);
    assert s[j] == '>';
    assert q.Some? && q.value == j;
    ReplaceAngleSpansNoClose(s[j + 1..], repl);
  }

  /** On one line, the regex removes exactly the span from the first '<' to the last '>'. */
  lemma {:induction false} ReplaceAngleSpansGreedy(s: string, repl: string, i: nat, j: nat)
    requires SingleLine(s)
    requires i < j < |s| && s[i] == '<' && s[j] == '>'
    requires forall k :: 0 <= k < i ==> s[k] != '<'
    requires forall k :: j < k < |s| ==> s[k] != '>'
    ensures ReplaceAngleSpans(s, repl) == s[..i] + repl + s[j + 1..]
    decreases i
  {
    if i == 0 {
      ReplaceAngleSpansAtStart(s, repl, j);
    } else {
      var t := s[1..];
      GreedyTail(s, i, j);
      ReplaceAngleSpansGreedy(t, repl, i - 1, j - 1);
      ReplaceAngleSpansOther(s, repl);
      assert t[..i - 1] == s[1..i];
      assert t[j..] == s[j + 1..];
      assert s[..i] == [s[0]] + s[1..i];
      calc {
        ReplaceAngleSpans(s, repl);
        [s[0]] + (s[1..i] + repl + s[j + 1..]);
        s[..i] + repl + s[j + 1..];
      }
    }
  }

  /** The hypotheses of `ReplaceAngleSpansGreedy` carry over to the tail. */
  lemma GreedyTail(s: string, i: nat, j: nat)
    requires SingleLine(s)
    requires 0 < i < j < |s| && s[i] == '<' && s[j] == '>'
    requires forall k :: 0 <= k < i ==> s[k] != '<'
    requires forall k :: j < k < |s| ==> s[k] != '>'
    ensures var t := s[1..];
            && SingleLine(t) && t[i - 1] == '<' && t[j - 1] == '>'
            && (forall k :: 0 <= k < i - 1 ==> t[k] != '<')
            && (forall k :: j - 1 < k < |t| ==> t[k] != '>')
  {
    var t := s[1..];
    forall k | 0 <= k < |t| ensures t[k] == s[k + 1] { }
  }

  /** A first character other than '<' is copied. */
  lemma ReplaceAngleSpansOther(s: string, repl: string)
    requires |s| > 0 && s[0] != '<'
    ensures ReplaceAngleSpans(s, repl) == [s[0]] + ReplaceAngleSpans(s[1..], repl)
  {
  }

  /** On one line, a string with no '>' after any '<' is left unchanged. */
  lemma {:induction false} ReplaceAngleSpansNoSpan(s: string, repl: string)
    requires SingleLine(s)
    requires forall i, j :: 0 <= i < j < |s| && s[i] == '<' ==> s[j] != '>'
    ensures ReplaceAngleSpans(s, repl) == s
    decreases |s|
  {
    if |s| > 0 {
      if s[0] == '<' {
        assert LineEnd(s, 1) == |s|;
        var q := LastClose(s, 1, |s|);
        assert q.None?;
      }
      var t := s[1..];
      forall k | 0 <= k < |t| ensures !IsLineTerminator(t[k]) { assert t[k] == s[k + 1]; }
      forall i, j | 0 <= i < j < |t| && t[i] == '<' ensures t[j] != '>' {
        assert t[i] == s[i + 1] && t[j] == s[j + 1];
      }
      ReplaceAngleSpansNoSpan(t, repl);
    }
  }

  /** A substring of a slice is a substring of the whole. */
  lemma SubstringOfSlice(sub: string, s: string, lo: nat, hi: nat)
    requires lo <= hi <= |s|
    ensures IsSubstring(sub, s[lo..hi]) ==> IsSubstring(sub, s)
  {
    if IsSubstring(sub, s[lo..hi]) {
      var t := s[lo..hi];
      var i :| 0 <= i <= |t| && OccursAt(t, sub, i);
      forall k | 0 <= k < |sub| ensures s[lo + i..lo + i + |sub|][k] == sub[k] {
        assert sub[k] == t[i..i + |sub|][k] == t[i + k] == s[lo + i + k];
      }
      assert s[lo + i..lo + i + |sub|] == sub;
      assert OccursAt(s, sub, lo + i);
    }
  }
}
