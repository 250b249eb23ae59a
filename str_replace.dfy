/**
 * A model of Rust's `str::replace(&self, from, to)` on strings of characters:
 * the string is scanned left to right, every leftmost non-overlapping match
 * of `from` is replaced by `to`, and the inserted text is never scanned again.
 * An empty pattern matches at every character boundary, the end included.
 */
module StrReplace {

  /** `pat` occurs in `s` starting at index `i`. */
  predicate MatchAt(s: string, pat: string, i: int) {
    0 <= i && i + |pat| <= |s| && s[i..i + |pat|] == pat
  }

  /** `pat` occurs somewhere in `s`. */
  predicate Occurs(s: string, pat: string) {
    exists i | 0 <= i <= |s| - |pat| :: MatchAt(s, pat, i)
  }

  /** The result of `s.replace(pat, rep)`. */
  function ReplaceAll(s: string, pat: string, rep: string): string
    decreases |s|
  {
    if |pat| == 0 then
      if |s| == 0 then rep else rep + [s[0]] + ReplaceAll(s[1..], pat, rep)
    else if pat <= s then rep + ReplaceAll(s[|pat|..], pat, rep)
    else if |s| == 0 then []
    else [s[0]] + ReplaceAll(s[1..], pat, rep)
  }

  /** The number of matches `s.match_indices(pat)` yields: the leftmost
      non-overlapping occurrences, or every character boundary when `pat`
      is empty. */
  function Count(s: string, pat: string): nat
    decreases |s|
  {
    if |pat| == 0 then |s| + 1
    else if pat <= s then 1 + Count(s[|pat|..], pat)
    else if |s| == 0 then 0
    else Count(s[1..], pat)
  }

  /** The reference meaning of a one-character replacement: every `c` becomes `d`. */
  function SubstChar(s: string, c: char, d: char): (r: string)
    ensures |r| == |s|
    ensures forall i :: 0 <= i < |s| ==> r[i] == if s[i] == c then d else s[i]
  {
    seq(|s|, i requires 0 <= i < |s| => if s[i] == c then d else s[i])
  }

  /** No occurrence of `pat` in `a + b` starts in `a` and ends in `b`. */
  predicate NoStraddle(a: string, b: string, pat: string) {
    forall i :: 0 <= i < |a| < i + |pat| ==> !MatchAt(a + b, pat, i)
  }

  // ---------------------------------------------------------------------
  // One scanning step
  // ---------------------------------------------------------------------

  /** A match at the front is replaced and scanning resumes after it. */
  lemma ReplaceStepMatch(s: string, pat: string, rep: string)
    requires |pat| > 0 && pat <= s
    ensures ReplaceAll(s, pat, rep) == rep + ReplaceAll(s[|pat|..], pat, rep)
  {
  }

  /** Without a match at the front, the first character is copied. */
  lemma ReplaceStepCopy(s: string, pat: string, rep: string)
    requires |pat| > 0 && |s| > 0 && !(pat <= s)
    ensures ReplaceAll(s, pat, rep) == [s[0]] + ReplaceAll(s[1..], pat, rep)
  {
  }

  // ---------------------------------------------------------------------
  // Occurrences
  // ---------------------------------------------------------------------

  /** Dropping the first `k` characters shifts every occurrence by `k`. */
  lemma MatchShift(s: string, pat: string, k: nat, j: nat)
    requires k <= |s|
    ensures MatchAt(s[k..], pat, j) <==> MatchAt(s, pat, j + k)
  {
    if j + |pat| <= |s| - k {
      assert s[k..][j..j + |pat|] == s[j + k..j + k + |pat|];
    }
  }

  /** Without a match at the front, `pat` occurs in `s` exactly when it occurs in its tail. */
  lemma OccursTail(s: string, pat: string)
    requires |s| > 0 && !MatchAt(s, pat, 0)
    ensures Occurs(s, pat) <==> Occurs(s[1..], pat)
  {
    if Occurs(s, pat) {
      var i :| 0 <= i <= |s| - |pat| && MatchAt(s, pat, i);
      MatchShift(s, pat, 1, i - 1);
    }
    if Occurs(s[1..], pat) {
      var j :| 0 <= j <= |s[1..]| - |pat| && MatchAt(s[1..], pat, j);
      MatchShift(s, pat, 1, j);
    }
  }

  /** A pattern that holds a character `s` lacks does not occur in `s`. */
  lemma AbsentChar(s: string, pat: string, c: char)
    requires c in pat && c !in s
    ensures !Occurs(s, pat)
  {
    var k :| 0 <= k < |pat| && pat[k] == c;
    forall i | 0 <= i <= |s| - |pat| ensures !MatchAt(s, pat, i) {
      assert s[i..i + |pat|][k] == s[i + k] != c;
    }
  }

  /** The leftmost occurrence of `pat` in `s`. */
  lemma {:induction false} FirstMatch(s: string, pat: string) returns (i: nat)
    requires Occurs(s, pat)
    ensures MatchAt(s, pat, i)
    ensures forall j :: 0 <= j < i ==> !MatchAt(s, pat, j)
    decreases |s|
  {
    if MatchAt(s, pat, 0) {
      i := 0;
    } else {
      OccursTail(s, pat);
      var t := FirstMatch(s[1..], pat);
      MatchShift(s, pat, 1, t);
      forall j | 0 < j < t + 1 ensures !MatchAt(s, pat, j) {
        MatchShift(s, pat, 1, j - 1);
      }
      i := t + 1;
    }
  }

  /** One more match adds one more difference. */
  lemma MulSucc(c: int, d: int)
    ensures (1 + c) * d == d + c * d
  {
  }

  /** A non-zero number of non-zero differences is non-zero. */
  lemma MulNonZero(c: int, d: int)
    requires c != 0 && d != 0
    ensures c * d != 0
  {
  }

  // ---------------------------------------------------------------------
  // Counting and length
  // ---------------------------------------------------------------------

  /** A non-empty pattern is counted zero times exactly when it does not occur. */
  lemma {:induction false} CountZeroIff(s: string, pat: string)
    requires |pat| > 0
    ensures Count(s, pat) == 0 <==> !Occurs(s, pat)
    decreases |s|
  {
    if pat <= s {
      assert MatchAt(s, pat, 0);
    } else if |s| > 0 {
      assert !MatchAt(s, pat, 0);
      OccursTail(s, pat);
      CountZeroIff(s[1..], pat);
    }
  }

  /** Matches of a non-empty pattern never overlap, so they cover at most `|s|` characters. */
  lemma {:induction false} CountBound(s: string, pat: string)
    requires |pat| > 0
    ensures Count(s, pat) * |pat| <= |s|
    decreases |s|
  {
    if pat <= s {
      var c := Count(s[|pat|..], pat);
      CountBound(s[|pat|..], pat);
      MulSucc(c, |pat|);
    } else if |s| > 0 {
      CountBound(s[1..], pat);
    }
  }

  /** Every match trades `|pat|` characters for `|rep|`. */
  lemma {:induction false} ReplaceAllLength(s: string, pat: string, rep: string)
    ensures |ReplaceAll(s, pat, rep)| == |s| + Count(s, pat) * (|rep| - |pat|)
    decreases |s|
  {
    if |pat| == 0 {
      if |s| > 0 {
        ReplaceAllLength(s[1..], pat, rep);
        MulSucc(|s|, |rep|);
      }
    } else if pat <= s {
      var c := Count(s[|pat|..], pat);
      ReplaceAllLength(s[|pat|..], pat, rep);
      MulSucc(c, |rep| - |pat|);
    } else if |s| > 0 {
      ReplaceAllLength(s[1..], pat, rep);
    }
  }

  // ---------------------------------------------------------------------
  // Scanning behaviour
  // ---------------------------------------------------------------------

  /** No match among the first `k` positions means none among the first `k - 1` of the tail. */
  lemma NoMatchTail(s: string, pat: string, k: nat)
    requires 0 < k <= |s|
    requires forall j :: 0 <= j < k ==> !MatchAt(s, pat, j)
    ensures forall j :: 0 <= j < k - 1 ==> !MatchAt(s[1..], pat, j)
  {
    forall j | 0 <= j < k - 1 ensures !MatchAt(s[1..], pat, j) {
      MatchShift(s, pat, 1, j);
    }
  }

  /** Characters before the first match are copied unchanged. */
  lemma {:induction false} ReplacePrefix(s: string, pat: string, rep: string, k: nat)
    requires |pat| > 0 && k <= |s|
    requires forall j :: 0 <= j < k ==> !MatchAt(s, pat, j)
    ensures ReplaceAll(s, pat, rep) == s[..k] + ReplaceAll(s[k..], pat, rep)
    decreases k
  {
    if k > 0 {
      assert !(pat <= s) by { assert !MatchAt(s, pat, 0); }
      NoMatchTail(s, pat, k);
      var t := s[1..];
      calc {
        ReplaceAll(s, pat, rep);
        { ReplaceStepCopy(s, pat, rep); }
        [s[0]] + ReplaceAll(t, pat, rep);
        { ReplacePrefix(t, pat, rep, k - 1); }
        [s[0]] + (t[..k - 1] + ReplaceAll(t[k - 1..], pat, rep));
        { TailSlices(s, k); }
        s[..k] + ReplaceAll(s[k..], pat, rep);
      }
    }
  }

  /** How the slices of the tail of `s` relate to those of `s`. */
  lemma TailSlices(s: string, k: nat)
    requires 0 < k <= |s|
    ensures s[1..][k - 1..] == s[k..]
    ensures [s[0]] + s[1..][..k - 1] == s[..k]
  {
  }

  /** The leftmost match is the one replaced; scanning resumes after it. */
  lemma ReplaceLeftmost(s: string, pat: string, rep: string, i: nat)
    requires |pat| > 0 && MatchAt(s, pat, i)
    requires forall j :: 0 <= j < i ==> !MatchAt(s, pat, j)
    ensures ReplaceAll(s, pat, rep) == s[..i] + rep + ReplaceAll(s[i + |pat|..], pat, rep)
  {
    calc {
      ReplaceAll(s, pat, rep);
      { ReplacePrefix(s, pat, rep, i); }
      s[..i] + ReplaceAll(s[i..], pat, rep);
      { assert pat <= s[i..]; ReplaceStepMatch(s[i..], pat, rep); }
      s[..i] + (rep + ReplaceAll(s[i..][|pat|..], pat, rep));
      { assert s[i..][|pat|..] == s[i + |pat|..]; }
      s[..i] + rep + ReplaceAll(s[i + |pat|..], pat, rep);
    }
  }

  /** A non-empty pattern that does not occur leaves the string unchanged. */
  lemma ReplaceAbsent(s: string, pat: string, rep: string)
    requires |pat| > 0 && !Occurs(s, pat)
    ensures ReplaceAll(s, pat, rep) == s
  {
    forall j | 0 <= j < |s| ensures !MatchAt(s, pat, j) {
      if j <= |s| - |pat| {
        assert !MatchAt(s, pat, j);
      }
    }
    ReplacePrefix(s, pat, rep, |s|);
    assert s[..|s|] == s;
  }

  /** Replacing a pattern by itself is the identity. */
  lemma {:induction false} ReplaceSelf(s: string, pat: string)
    ensures ReplaceAll(s, pat, pat) == s
    decreases |s|
  {
    if |pat| == 0 {
      if |s| > 0 {
        ReplaceSelf(s[1..], pat);
        assert [s[0]] + s[1..] == s;
      }
    } else if pat <= s {
      ReplaceSelf(s[|pat|..], pat);
      assert s[..|pat|] + s[|pat|..] == s;
    } else if |s| > 0 {
      ReplaceSelf(s[1..], pat);
      assert [s[0]] + s[1..] == s;
    }
  }

  /** A replacement leaves its input unchanged exactly when the pattern does
      not occur or is replaced by itself. */
  lemma ReplaceUnchangedIff(s: string, pat: string, rep: string)
    requires |pat| > 0
    ensures ReplaceAll(s, pat, rep) == s <==> (rep == pat || !Occurs(s, pat))
  {
    if rep == pat {
      ReplaceSelf(s, pat);
    } else if !Occurs(s, pat) {
      ReplaceAbsent(s, pat, rep);
    } else {
      var r := ReplaceAll(s, pat, rep);
      if |rep| == |pat| {
        var i := FirstMatch(s, pat);
        ReplaceLeftmost(s, pat, rep, i);
        assert r[i..i + |rep|] == rep by {
          assert r == s[..i] + rep + ReplaceAll(s[i + |pat|..], pat, rep);
        }
        assert r[i..i + |pat|] != s[i..i + |pat|];
      } else {
        CountZeroIff(s, pat);
        ReplaceAllLength(s, pat, rep);
        MulNonZero(Count(s, pat), |rep| - |pat|);
        assert |r| != |s|;
      }
    }
  }

  /** Replacing one character by another substitutes it everywhere. */
  lemma {:induction false} ReplaceCharIsSubst(s: string, c: char, d: char)
    ensures ReplaceAll(s, [c], [d]) == SubstChar(s, c, d)
    decreases |s|
  {
    if |s| > 0 {
      ReplaceCharIsSubst(s[1..], c, d);
      assert ([c] <= s) == (s[0] == c);
      var r := ReplaceAll(s, [c], [d]);
      assert r == [if s[0] == c then d else s[0]] + SubstChar(s[1..], c, d);
    }
  }

  /** A replaced character never survives a one-character replacement. */
  lemma {:induction false} ReplaceCharRemoves(s: string, c: char, d: char)
    requires c != d
    ensures c !in ReplaceAll(s, [c], [d])
  {
    ReplaceCharIsSubst(s, c, d);
  }

  // ---------------------------------------------------------------------
  // Concatenation
  // ---------------------------------------------------------------------

  /** Without a match across the join, the pieces are rewritten independently. */
  lemma {:induction false} ReplaceConcat(a: string, b: string, pat: string, rep: string)
    requires |pat| > 0 && NoStraddle(a, b, pat)
    ensures ReplaceAll(a + b, pat, rep) == ReplaceAll(a, pat, rep) + ReplaceAll(b, pat, rep)
    decreases |a|
  {
    if |a| == 0 {
      assert a + b == b;
    } else if pat <= a + b {
      assert MatchAt(a + b, pat, 0);
      assert |pat| <= |a|;
      assert pat <= a by { assert a[..|pat|] == (a + b)[..|pat|]; }
      var a' := a[|pat|..];
      assert (a + b)[|pat|..] == a' + b;
      forall i | 0 <= i < |a'| < i + |pat| ensures !MatchAt(a' + b, pat, i) {
        MatchShift(a + b, pat, |pat|, i);
      }
      ReplaceConcat(a', b, pat, rep);
    } else {
      if |pat| <= |a| {
        assert (a + b)[..|pat|] == a[..|pat|];
      }
      var a' := a[1..];
      assert (a + b)[1..] == a' + b;
      forall i | 0 <= i < |a'| < i + |pat| ensures !MatchAt(a' + b, pat, i) {
        MatchShift(a + b, pat, 1, i);
      }
      ReplaceConcat(a', b, pat, rep);
    }
  }

  /** A separator character that cannot sit inside a match across the join rules one out:
      the last character of `a` is not among the pattern's first `|pat| - 1`, or the
      first character of `b` is not among its last `|pat| - 1`. */
  lemma SeparatorBlocksStraddle(a: string, b: string, pat: string)
    requires |pat| > 0
    requires (|a| > 0 && a[|a| - 1] !in pat[..|pat| - 1]) || (|b| > 0 && b[0] !in pat[1..])
    ensures NoStraddle(a, b, pat)
  {
    forall i | 0 <= i < |a| < i + |pat| ensures !MatchAt(a + b, pat, i) {
      if i + |pat| <= |a| + |b| {
        var w := (a + b)[i..i + |pat|];
        if |a| > 0 && a[|a| - 1] !in pat[..|pat| - 1] {
          assert w[|a| - 1 - i] == a[|a| - 1];
          assert pat[..|pat| - 1][|a| - 1 - i] == pat[|a| - 1 - i];
          assert w[|a| - 1 - i] != pat[|a| - 1 - i];
        } else {
          assert w[|a| - i] == b[0];
          assert pat[1..][|a| - i - 1] == pat[|a| - i];
          assert w[|a| - i] != pat[|a| - i];
        }
      }
    }
  }

  /** `ReplaceConcat` with the join guarded by a separator character, as in
      `SeparatorBlocksStraddle`. */
  lemma ReplaceConcatAtSeparator(a: string, b: string, pat: string, rep: string)
    requires |pat| > 0
    requires (|a| > 0 && a[|a| - 1] !in pat[..|pat| - 1]) || (|b| > 0 && b[0] !in pat[1..])
    ensures ReplaceAll(a + b, pat, rep) == ReplaceAll(a, pat, rep) + ReplaceAll(b, pat, rep)
  {
    SeparatorBlocksStraddle(a, b, pat);
    ReplaceConcat(a, b, pat, rep);
  }

  /** A one-character pattern cannot straddle a join. */
  lemma ReplaceCharConcat(a: string, b: string, c: char, rep: string)
    ensures ReplaceAll(a + b, [c], rep) == ReplaceAll(a, [c], rep) + ReplaceAll(b, [c], rep)
  {
    ReplaceConcat(a, b, [c], rep);
  }

  /** A pattern holding a character the input lacks leaves the input unchanged. */
  lemma ReplaceAbsentChar(s: string, pat: string, rep: string, c: char)
    requires c in pat && c !in s
    ensures ReplaceAll(s, pat, rep) == s
  {
    AbsentChar(s, pat, c);
    ReplaceAbsent(s, pat, rep);
  }

  /** Without a match across the join, `pat` occurs in `a + b` only if it occurs in a piece. */
  lemma OccursConcat(a: string, b: string, pat: string)
    requires NoStraddle(a, b, pat) && !Occurs(a, pat) && !Occurs(b, pat)
    ensures !Occurs(a + b, pat)
  {
    forall i | 0 <= i <= |a + b| - |pat| ensures !MatchAt(a + b, pat, i) {
      if i + |pat| <= |a| {
        assert (a + b)[i..i + |pat|] == a[i..i + |pat|];
        assert !MatchAt(a, pat, i);
      } else if |a| <= i {
        assert (a + b)[|a|..] == b;
        MatchShift(a + b, pat, |a|, i - |a|);
        assert !MatchAt(b, pat, i - |a|);
      }
    }
  }
}
