/**
 * Go's `strings.Replace(s, old, new, -1)`, used by the login step to hide the
 * password in the logged command line, and facts about it.
 */
module Text {

  /** `pat` occurs in `s` starting at index `i`. */
  predicate OccursAt(s: string, pat: string, i: nat) {
    i + |pat| <= |s| && s[i..i + |pat|] == pat
  }

  /** `pat` is a substring of `s`. */
  ghost predicate Contains(s: string, pat: string) {
    exists i: nat :: OccursAt(s, pat, i)
  }

  /**
   * Replaces every occurrence of `pat` in `s` by `repl`, scanning left to right
   * and never rescanning inserted text. As in Go, an empty `pat` matches at the
   * start of the string and after every character. A replacement as long as
   * the pattern keeps the length.
   */
  function ReplaceAll(s: string, pat: string, repl: string): (r: string)
    ensures |repl| == |pat| ==> |r| == |s|
    decreases |s|
  {
    if pat == [] then
      repl + (if s == [] then [] else [s[0]] + ReplaceAll(s[1..], pat, repl))
    else if |pat| <= |s| && s[..|pat|] == pat then
      repl + ReplaceAll(s[|pat|..], pat, repl)
    else if s == [] then
      []
    else
      [s[0]] + ReplaceAll(s[1..], pat, repl)
  }

  /** The `i`-th copy of `repl` in a text made of copies of it with one character between each two. */
  predicate ReplacementAt(r: string, repl: string, i: nat) {
    && i * (|repl| + 1) + |repl| <= |r|
    && r[i * (|repl| + 1)..i * (|repl| + 1) + |repl|] == repl
  }

  /**
   * With an empty pattern the replacement lands before, between and after
   * every character: the result is `|s| + 1` copies of the replacement with
   * the characters of `s` in order between them.
   */
  lemma {:induction false} ReplaceAllEmptyPattern(s: string, repl: string)
    ensures |ReplaceAll(s, [], repl)| == |s| + (|s| + 1) * |repl|
    ensures forall i :: 0 <= i < |s| ==> ReplaceAll(s, [], repl)[(i + 1) * |repl| + i] == s[i]
    ensures forall i :: 0 <= i <= |s| ==> ReplacementAt(ReplaceAll(s, [], repl), repl, i)
    decreases |s|
  {
    if s == [] {
      assert ReplaceAll(s, [], repl) == repl;
      assert ReplacementAt(repl, repl, 0);
    } else {
      ReplaceAllEmptyPattern(s[1..], repl);
      var rest := ReplaceAll(s[1..], [], repl);
      EmptyPatternCons(s, repl, rest);
      EmptyPatternGaps(s, repl, rest);
      assert ReplaceAll(s, [], repl) == repl + [s[0]] + rest;
    }
  }

  /** The gaps of ReplaceAllEmptyPattern: the replacement first, then the gaps of the result for the tail. */
  lemma EmptyPatternGaps(s: string, repl: string, rest: string)
    requires s != []
    requires |rest| == (|s| - 1) + |s| * |repl|
    requires forall k :: 0 <= k <= |s| - 1 ==> ReplacementAt(rest, repl, k)
    ensures forall i :: 0 <= i <= |s| ==> ReplacementAt(repl + [s[0]] + rest, repl, i)
  {
    forall i | 0 <= i <= |s| ensures ReplacementAt(repl + [s[0]] + rest, repl, i) {
      if i == 0 {
        var t := repl + [s[0]] + rest;
        assert t[..|repl|] == repl;
      } else {
        EmptyPatternGap(s[0], repl, rest, i - 1);
      }
    }
  }

  /** A copy of the replacement in the tail is a copy, one further on, after the replacement and a character. */
  lemma EmptyPatternGap(c: char, repl: string, rest: string, k: nat)
    requires ReplacementAt(rest, repl, k)
    ensures ReplacementAt(repl + [c] + rest, repl, k + 1)
  {
    var m := |repl|;
    var a := k * (m + 1);
    assert (k + 1) * (m + 1) == (m + 1) + a;
    ShiftedSlice(repl, c, rest, a, m);
  }

  /** Slicing past a prefix and one character. */
  lemma ShiftedSlice(a: string, c: char, b: string, k: nat, len: nat)
    requires k + len <= |b|
    ensures (a + [c] + b)[|a| + 1 + k..|a| + 1 + k + len] == b[k..k + len]
  {
  }

  /** The step of ReplaceAllEmptyPattern: the replacement and the first character put before the result for the tail. */
  lemma EmptyPatternCons(s: string, repl: string, rest: string)
    requires s != []
    requires |rest| == (|s| - 1) + |s| * |repl|
    requires forall k :: 0 <= k < |s| - 1 && (k + 1) * |repl| + k < |rest| ==> rest[(k + 1) * |repl| + k] == s[1..][k]
    ensures |repl + [s[0]] + rest| == |s| + (|s| + 1) * |repl|
    ensures forall i :: 0 <= i < |s| ==>
              (i + 1) * |repl| + i < |repl + [s[0]] + rest| && (repl + [s[0]] + rest)[(i + 1) * |repl| + i] == s[i]
  {
    EmptyPatternIndex(0, |s|, |repl|);
    forall i | 0 <= i < |s|
      ensures (i + 1) * |repl| + i < |repl + [s[0]] + rest| && (repl + [s[0]] + rest)[(i + 1) * |repl| + i] == s[i]
    {
      EmptyPatternStep(s, repl, rest, i);
    }
  }

  /** One index of ReplaceAllEmptyPattern, from the facts about the tail. */
  lemma EmptyPatternStep(s: string, repl: string, rest: string, i: nat)
    requires i < |s|
    requires |rest| == (|s| - 1) + |s| * |repl|
    requires forall k :: 0 <= k < |s| - 1 && (k + 1) * |repl| + k < |rest| ==> rest[(k + 1) * |repl| + k] == s[1..][k]
    ensures (i + 1) * |repl| + i < |repl + [s[0]] + rest|
    ensures (repl + [s[0]] + rest)[(i + 1) * |repl| + i] == s[i]
  {
    var n, m := |s|, |repl|;
    EmptyPatternIndex(i, n, m);
    if i > 0 {
      var k := i * m + (i - 1);
      assert rest[k] == s[1..][i - 1];
      Shifted(repl, s[0], rest, k);
    }
  }

  /** The index arithmetic of ReplaceAllEmptyPattern: one replacement and one character per step. */
  lemma EmptyPatternIndex(i: nat, n: nat, m: nat)
    requires i < n
    ensures m + 1 + ((n - 1) + n * m) == n + (n + 1) * m
    ensures i > 0 ==> (i + 1) * m + i == m + 1 + (i * m + (i - 1))
    ensures i > 0 ==> ((i - 1) + 1) * m + (i - 1) == i * m + (i - 1) < (n - 1) + n * m
    ensures (i + 1) * m + i < n + (n + 1) * m
  {
    assert (n + 1) * m == n * m + m;
    assert (i + 1) * m == i * m + m;
    assert i * m <= n * m by {
      assert (n - i) * m >= 0;
    }
  }

  /** Indexing past a prefix and one character. */
  lemma Shifted(a: string, c: char, b: string, k: nat)
    requires k < |b|
    ensures (a + [c] + b)[|a| + 1 + k] == b[k]
  {
  }

  /** A character of a suffix is a character of the whole. */
  lemma InSuffix(s: string, n: nat, x: char)
    requires n <= |s| && x in s[n..]
    ensures x in s
  {
    var k :| 0 <= k < |s[n..]| && s[n..][k] == x;
    assert s[n + k] == x;
  }

  /** Every character of the result is a character of the text or of the replacement. */
  lemma {:induction false} ReplaceAllDrawsFrom(s: string, pat: string, repl: string)
    ensures forall j :: 0 <= j < |ReplaceAll(s, pat, repl)| ==> ReplaceAll(s, pat, repl)[j] in s || ReplaceAll(s, pat, repl)[j] in repl
    decreases |s|
  {
    var r := ReplaceAll(s, pat, repl);
    if pat == [] {
      if s == [] {
        assert r == repl;
      } else {
        ReplaceAllDrawsFrom(s[1..], pat, repl);
        PiecesDrawFrom(s, 1, repl, [s[0]], ReplaceAll(s[1..], pat, repl), repl);
      }
    } else if |pat| <= |s| && s[..|pat|] == pat {
      ReplaceAllDrawsFrom(s[|pat|..], pat, repl);
      PiecesDrawFrom(s, |pat|, repl, [], ReplaceAll(s[|pat|..], pat, repl), repl);
    } else if s != [] {
      ReplaceAllDrawsFrom(s[1..], pat, repl);
      PiecesDrawFrom(s, 1, [], [s[0]], ReplaceAll(s[1..], pat, repl), repl);
    }
  }

  /** One step of ReplaceAllDrawsFrom: the replacement or nothing, the first character or nothing, then the rest. */
  lemma PiecesDrawFrom(s: string, n: nat, front: string, head: string, rest: string, repl: string)
    requires 0 < n <= |s|
    requires front == repl || front == []
    requires head == [] || head == [s[0]]
    requires forall j :: 0 <= j < |rest| ==> rest[j] in s[n..] || rest[j] in repl
    ensures forall j :: 0 <= j < |front + head + rest| ==> (front + head + rest)[j] in s || (front + head + rest)[j] in repl
  {
    var r := front + head + rest;
    forall j | 0 <= j < |r| ensures r[j] in s || r[j] in repl {
      if j >= |front| + |head| {
        var x := rest[j - |front| - |head|];
        assert r[j] == x;
        if x in s[n..] {
          InSuffix(s, n, x);
        }
      } else if j >= |front| {
        assert r[j] == s[0];
      }
    }
  }

  /** Text without an occurrence of the pattern comes out unchanged. */
  lemma {:induction false} ReplaceAllWithoutOccurrence(s: string, pat: string, repl: string)
    requires pat != []
    requires !Contains(s, pat)
    ensures ReplaceAll(s, pat, repl) == s
    decreases |s|
  {
    if s != [] {
      assert !OccursAt(s, pat, 0);
      if Contains(s[1..], pat) {
        var i: nat :| OccursAt(s[1..], pat, i);
        assert s[i + 1..i + 1 + |pat|] == s[1..][i..i + |pat|];
        assert OccursAt(s, pat, i + 1);
      }
      ReplaceAllWithoutOccurrence(s[1..], pat, repl);
    }
  }

  /** Occurrences in the tail of a string are the occurrences one index further in the string. */
  lemma OccursInTail(s: string, pat: string, i: nat)
    requires s != []
    ensures OccursAt(s[1..], pat, i) <==> OccursAt(s, pat, i + 1)
  {
    if i + 1 + |pat| <= |s| {
      assert s[1..][i..i + |pat|] == s[i + 1..i + 1 + |pat|];
    }
  }

  /** A string that does not start with the pattern keeps its first character. */
  lemma ReplaceAllKeepsHead(s: string, pat: string, repl: string)
    requires pat != [] && s != []
    requires !OccursAt(s, pat, 0)
    ensures ReplaceAll(s, pat, repl) == [s[0]] + ReplaceAll(s[1..], pat, repl)
  {
    if |pat| <= |s| {
      assert s[..|pat|] == s[0..0 + |pat|];
    }
  }

  /** Removing the first character of a prefix keeps it free of occurrences. */
  lemma NoOccurrenceInTail(a: string, b: string, pat: string)
    requires a != []
    requires forall i: nat :: i < |a| ==> !OccursAt(a + b, pat, i)
    ensures forall i: nat :: i < |a| - 1 ==> !OccursAt(a[1..] + b, pat, i)
  {
    var s := a + b;
    assert s[1..] == a[1..] + b;
    forall i: nat | i < |a| - 1 ensures !OccursAt(a[1..] + b, pat, i) {
      OccursInTail(s, pat, i);
    }
  }

  /** A prefix in which no occurrence starts is copied through unchanged. */
  lemma {:induction false} ReplaceAllSkipsPrefix(a: string, b: string, pat: string, repl: string)
    requires pat != []
    requires forall i: nat :: i < |a| ==> !OccursAt(a + b, pat, i)
    ensures ReplaceAll(a + b, pat, repl) == a + ReplaceAll(b, pat, repl)
    decreases |a|
  {
    if a == [] {
      assert a + b == b;
    } else {
      var s, tail := a + b, a[1..] + b;
      var rb := ReplaceAll(b, pat, repl);
      assert ReplaceAll(s, pat, repl) == [a[0]] + ReplaceAll(tail, pat, repl) by {
        assert s[1..] == tail && s[0] == a[0];
        ReplaceAllKeepsHead(s, pat, repl);
      }
      assert ReplaceAll(tail, pat, repl) == a[1..] + rb by {
        NoOccurrenceInTail(a, b, pat);
        ReplaceAllSkipsPrefix(a[1..], b, pat, repl);
      }
      assert [a[0]] + (a[1..] + rb) == a + rb;
    }
  }

  /** An occurrence at the very start is replaced and scanning resumes after it. */
  lemma ReplaceAllAtStart(pat: string, b: string, repl: string)
    requires pat != []
    ensures ReplaceAll(pat + b, pat, repl) == repl + ReplaceAll(b, pat, repl)
  {
    var s := pat + b;
    assert s[..|pat|] == pat;
    assert s[|pat|..] == b;
  }

  /**
   * When the replacement is not empty, the characters of the output up to the
   * first one taken from a replacement are the input's own: a prefix of the
   * output free of replacement characters is a prefix of the input.
   */
  lemma {:induction false} PlainPrefix(s: string, pat: string, repl: string, n: nat)
    requires pat != [] && repl != []
    requires n <= |ReplaceAll(s, pat, repl)|
    requires forall j :: 0 <= j < n ==> ReplaceAll(s, pat, repl)[j] !in repl
    ensures n <= |s| && ReplaceAll(s, pat, repl)[..n] == s[..n]
    decreases |s|
  {
    var r := ReplaceAll(s, pat, repl);
    if |pat| <= |s| && s[..|pat|] == pat {
      assert r == repl + ReplaceAll(s[|pat|..], pat, repl);
      assert r[0] == repl[0];
      assert n == 0;
    } else if s == [] {
      assert n == 0;
    } else {
      var rest := ReplaceAll(s[1..], pat, repl);
      assert r == [s[0]] + rest;
      if n > 0 {
        forall j | 0 <= j < n - 1 ensures rest[j] !in repl {
          assert rest[j] == r[j + 1];
        }
        PlainPrefix(s[1..], pat, repl, n - 1);
        assert r[..n] == [s[0]] + rest[..n - 1];
        assert s[..n] == [s[0]] + s[1..][..n - 1];
      }
    }
  }

  /** No occurrence of the pattern starts at index `i` of the output (see ReplaceAllRemovesPattern). */
  lemma {:induction false} NoOccurrenceAt(s: string, pat: string, repl: string, i: nat)
    requires pat != [] && repl != []
    requires forall j :: 0 <= j < |pat| ==> pat[j] !in repl
    ensures !OccursAt(ReplaceAll(s, pat, repl), pat, i)
    decreases |s|
  {
    var r := ReplaceAll(s, pat, repl);
    if i + |pat| <= |r| {
      if |pat| <= |s| && s[..|pat|] == pat {
        var rest := ReplaceAll(s[|pat|..], pat, repl);
        assert r == repl + rest;
        if i < |repl| {
          assert r[i] == repl[i] != pat[0];
          assert r[i..i + |pat|][0] != pat[0];
        } else {
          NoOccurrenceAt(s[|pat|..], pat, repl, i - |repl|);
          assert r[i..i + |pat|] == rest[i - |repl|..i - |repl| + |pat|];
        }
      } else if s != [] {
        var rest := ReplaceAll(s[1..], pat, repl);
        assert r == [s[0]] + rest;
        if i > 0 {
          NoOccurrenceAt(s[1..], pat, repl, i - 1);
          assert r[i..i + |pat|] == rest[i - 1..i - 1 + |pat|];
        } else {
          NoOccurrenceAtKeptHead(s, pat, repl);
        }
      }
    }
  }

  /** Where the input does not start with the pattern, no occurrence starts at the output's first character. */
  lemma NoOccurrenceAtKeptHead(s: string, pat: string, repl: string)
    requires pat != [] && repl != []
    requires forall j :: 0 <= j < |pat| ==> pat[j] !in repl
    requires s != [] && !(|pat| <= |s| && s[..|pat|] == pat)
    ensures !OccursAt(ReplaceAll(s, pat, repl), pat, 0)
  {
    var r := ReplaceAll(s, pat, repl);
    var rest := ReplaceAll(s[1..], pat, repl);
    assert r == [s[0]] + rest;
    if |pat| <= |r| {
      var n := |pat| - 1;
      if forall j :: 0 <= j < n ==> rest[j] !in repl {
        PlainPrefix(s[1..], pat, repl, n);
        assert r[..|pat|] == [s[0]] + rest[..n];
        assert s[..|pat|] == [s[0]] + s[1..][..n];
      } else {
        var j :| 0 <= j < n && rest[j] in repl;
        assert r[j + 1] == rest[j];
        assert pat[j + 1] !in repl;
        assert r[..|pat|][j + 1] != pat[j + 1];
      }
    }
  }

  /**
   * Redaction is complete when the pattern and the replacement have no
   * character in common: no occurrence of the pattern survives.
   */
  lemma ReplaceAllRemovesPattern(s: string, pat: string, repl: string)
    requires pat != [] && repl != []
    requires forall j :: 0 <= j < |pat| ==> pat[j] !in repl
    ensures !Contains(ReplaceAll(s, pat, repl), pat)
  {
    forall i: nat ensures !OccursAt(ReplaceAll(s, pat, repl), pat, i) {
      NoOccurrenceAt(s, pat, repl, i);
    }
  }
}
