/** The parts of Go's `strings` package that the uninstaller relies on:
    `Index`, `Contains`, `HasPrefix` and `ToLower`, over `seq<char>`. */
module GoStrings {

  /** `sub` occurs in `s` at position `i`, compared character by character. */
  predicate OccursAt(s: string, sub: string, i: int) {
    0 <= i && i + |sub| <= |s| && forall k :: 0 <= k < |sub| ==> s[i + k] == sub[k]
  }

  /** strings.Contains: `sub` occurs somewhere in `s` (the empty string occurs everywhere). */
  predicate Contains(s: string, sub: string) {
    exists i | 0 <= i <= |s| - |sub| :: OccursAt(s, sub, i)
  }

  /** strings.HasPrefix: a raw character-level prefix test. */
  predicate HasPrefix(s: string, prefix: string) {
    prefix <= s
  }

  /** The first occurrence of `sub` in `s` at or after `from`, or -1:
      strings.Index(s[from:], sub) shifted back by `from` when it is found.
      What the position means is stated by IndexFromSpec. */
  function IndexFrom(s: string, sub: string, from: nat): (r: int)
    ensures r == -1 || from <= r <= |s| - |sub|
    decreases |s| - from
  {
    if from + |sub| > |s| then -1
    else if OccursAt(s, sub, from) then from
    else IndexFrom(s, sub, from + 1)
  }

  /** strings.Index: the position of the first occurrence of `sub` in `s`, or -1. */
  function IndexOf(s: string, sub: string): (r: int)
    ensures r == -1 || 0 <= r <= |s| - |sub|
  {
    IndexFrom(s, sub, 0)
  }

  /** IndexFrom finds an occurrence at or after `from` exactly when there is
      one, and the one it finds is the first. */
  lemma {:induction false} IndexFromSpec(s: string, sub: string, from: nat)
    ensures IndexFrom(s, sub, from) == -1 <==> forall j :: from <= j ==> !OccursAt(s, sub, j)
    ensures IndexFrom(s, sub, from) != -1 ==> OccursAt(s, sub, IndexFrom(s, sub, from))
    ensures forall j :: from <= j < IndexFrom(s, sub, from) ==> !OccursAt(s, sub, j)
    decreases |s| - from
  {
    if from + |sub| > |s| {
    } else if !OccursAt(s, sub, from) {
      IndexFromSpec(s, sub, from + 1);
    }
  }

  /** IndexOf finds an occurrence exactly when there is one, and the one it
      finds is the first. */
  lemma IndexOfSpec(s: string, sub: string)
    ensures IndexOf(s, sub) == -1 <==> !Contains(s, sub)
    ensures IndexOf(s, sub) != -1 ==> OccursAt(s, sub, IndexOf(s, sub))
    ensures forall j :: 0 <= j < IndexOf(s, sub) ==> !OccursAt(s, sub, j)
  {
    IndexFromSpec(s, sub, 0);
  }

  /** `m` cannot overlap itself: no proper suffix of `m` is also a prefix of `m`. */
  predicate SelfOverlapFree(m: string) {
    forall d :: 0 < d < |m| ==> m[d..] != m[..|m| - d]
  }

  /** Every shift of `m` from `d` on moves a different character under one of
      its first two: a check of SelfOverlapFree one shift at a time. */
  predicate HeadsDifferFrom(m: string, d: nat)
    decreases |m| - d
  {
    d >= |m| || ((m[d] != m[0] || (d + 1 < |m| && m[d + 1] != m[1])) && HeadsDifferFrom(m, d + 1))
  }

  lemma {:induction false} HeadsDifferNoBorder(m: string, d: nat)
    requires 0 < d && HeadsDifferFrom(m, d)
    ensures forall e :: d <= e < |m| ==> m[e..] != m[..|m| - e]
    decreases |m| - d
  {
    if d < |m| {
      HeadsDifferNoBorder(m, d + 1);
      assert m[d..][0] == m[d] && m[..|m| - d][0] == m[0];
      if d + 1 < |m| {
        assert m[d..][1] == m[d + 1] && m[..|m| - d][1] == m[1];
      }
    }
  }

  /** Two occurrences of `m` less than `|m|` apart make a suffix of `m` equal to a prefix. */
  lemma OverlapIsBorder(s: string, m: string, i: int, j: int)
    requires OccursAt(s, m, i) && OccursAt(s, m, j)
    requires i < j < i + |m|
    ensures m[j - i..] == m[..|m| - (j - i)]
  {
    var d := j - i;
    forall k | 0 <= k < |m| - d ensures m[d..][k] == m[..|m| - d][k] {
      assert s[i + (d + k)] == m[d + k];
      assert s[j + k] == m[k];
    }
  }

  /** Searching a text behind a prefix is searching the text and shifting
      the answer by the prefix's length. */
  lemma {:induction false} IndexFromAfterPrefix(p: string, t: string, sub: string, from: nat)
    ensures IndexFrom(p + t, sub, |p| + from)
            == if IndexFrom(t, sub, from) == -1 then -1 else IndexFrom(t, sub, from) + |p|
    decreases |t| - from
  {
    assert OccursAt(p + t, sub, |p| + from) <==> OccursAt(t, sub, from) by {
      assert forall q | |p| <= q < |p + t| :: (p + t)[q] == t[q - |p|];
    }
    if from + |sub| <= |t| && !OccursAt(t, sub, from) {
      IndexFromAfterPrefix(p, t, sub, from + 1);
    }
  }

  /** Searching from `from` for a self-overlap-free `m` that occurs at `p`
      finds `p`, when no occurrence lies wholly between `from` and `p`. */
  lemma {:induction false} FirstOccurrenceAt(s: string, m: string, from: nat, p: int)
    requires SelfOverlapFree(m) && from <= p && OccursAt(s, m, p)
    requires forall j :: from <= j && j + |m| <= p ==> !OccursAt(s, m, j)
    ensures IndexFrom(s, m, from) == p
  {
    IndexFromSpec(s, m, from);
    var r := IndexFrom(s, m, from);
    if r < p && r + |m| > p {
      OverlapIsBorder(s, m, r, p);
    }
  }

  /** The text between `from` and the first occurrence of a non-empty `sub`
      after it does not contain `sub`. */
  lemma PrefixBeforeFirstOccurrence(s: string, sub: string, from: int, n: int)
    requires sub != [] && 0 <= from <= n <= |s|
    requires forall j :: from <= j < n ==> !OccursAt(s, sub, j)
    ensures !Contains(s[from..n], sub)
  {
    forall j | 0 <= j <= n - from - |sub| ensures !OccursAt(s[from..n], sub, j) {
      assert !OccursAt(s, sub, from + j);
      assert forall q | 0 <= q < n - from :: s[from..n][q] == s[from + q];
    }
  }

  /** Three adjacent occurrences make one occurrence of the concatenation. */
  lemma AdjacentOccurrences(s: string, a: string, b: string, c: string, i: int)
    requires OccursAt(s, a, i) && OccursAt(s, b, i + |a|) && OccursAt(s, c, i + |a| + |b|)
    ensures OccursAt(s, a + b + c, i)
  {
    forall k | 0 <= k < |a + b + c| ensures s[i + k] == (a + b + c)[k] {
      if k < |a| {
      } else if k < |a| + |b| {
        assert s[i + |a| + (k - |a|)] == b[k - |a|];
      } else {
        assert s[i + |a| + |b| + (k - |a| - |b|)] == c[k - |a| - |b|];
      }
    }
  }

  /** Every character of a contained string occurs in the containing one. */
  lemma ContainedCharsOccur(s: string, sub: string)
    requires Contains(s, sub)
    ensures forall c :: c in sub ==> c in s
  {
    var i :| 0 <= i <= |s| - |sub| && OccursAt(s, sub, i);
    forall c | c in sub ensures c in s {
      var k :| 0 <= k < |sub| && sub[k] == c;
      assert s[i + k] == c;
    }
  }

  /** A string holding a character that `s` lacks is not contained in `s`. */
  lemma MissingCharNotContained(s: string, sub: string, c: char)
    requires c in sub && c !in s
    ensures !Contains(s, sub)
  {
    forall i | 0 <= i <= |s| - |sub| ensures !OccursAt(s, sub, i) {
      var k :| 0 <= k < |sub| && sub[k] == c;
      assert s[i + k] != c;
    }
  }

  /** A text containing `a + m + b` contains `m`. */
  lemma ContainsInner(s: string, a: string, m: string, b: string)
    requires Contains(s, a + m + b)
    ensures Contains(s, m)
  {
    var i :| 0 <= i <= |s| - |a + m + b| && OccursAt(s, a + m + b, i);
    forall k | 0 <= k < |m| ensures s[i + |a| + k] == m[k] {
      assert (a + m + b)[|a| + k] == m[k];
    }
    assert OccursAt(s, m, i + |a|);
  }

  /** The empty string occurs in every string. */
  lemma ContainsEmpty(s: string)
    ensures Contains(s, [])
  {
    assert OccursAt(s, [], 0);
  }

  /** A string contains each of its prefixes. */
  lemma PrefixContained(s: string, prefix: string)
    requires prefix <= s
    ensures Contains(s, prefix)
  {
    assert OccursAt(s, prefix, 0);
  }

  /** A string occurs in itself preceded and followed by anything. */
  lemma ContainsInfix(a: string, sub: string, b: string)
    ensures Contains(a + sub + b, sub)
  {
    assert OccursAt(a + sub + b, sub, |a|);
  }

  /** The ASCII part of unicode.ToLower. */
  function LowerChar(c: char): char {
    if 'A' <= c <= 'Z' then (c as int + 32) as char else c
  }

  /** strings.ToLower, restricted to ASCII case folding. */
  function ToLower(s: string): (r: string)
    ensures |r| == |s|
    ensures forall i :: 0 <= i < |s| ==> r[i] == LowerChar(s[i])
  {
    seq(|s|, i requires 0 <= i < |s| => LowerChar(s[i]))
  }

  /** Lowering twice is lowering once. */
  lemma ToLowerIdempotent(s: string)
    ensures ToLower(ToLower(s)) == ToLower(s)
  {
  }

  /** A case-sensitive occurrence is also a case-insensitive one. */
  lemma ContainsToLower(s: string, sub: string)
    requires Contains(s, sub)
    ensures Contains(ToLower(s), ToLower(sub))
  {
    var i :| 0 <= i <= |s| - |sub| && OccursAt(s, sub, i);
    assert OccursAt(ToLower(s), ToLower(sub), i);
  }
}
