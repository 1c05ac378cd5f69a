/** The Python string operations the engine relies on, over `seq<char>`:
    the substring test `p in s`, `s.replace(p, r)`, and, as an independent
    reference for `replace`, the identity `s.replace(p, r) == r.join(s.split(p))`. */
module Strings {
  import opened Wrappers

  /** `p` is a prefix of `s`, compared character by character. */
  predicate StartsWith(s: string, p: string)
    decreases |p|
  {
    |p| == 0 || (|s| > 0 && s[0] == p[0] && StartsWith(s[1..], p[1..]))
  }

  /** Python's `p in s`: `p` occurs somewhere in `s`, not only at the start. */
  predicate Contains(s: string, p: string)
    decreases |s|
  {
    StartsWith(s, p) || (|s| > 0 && Contains(s[1..], p))
  }

  /** `p` occurs in `s` at index `i`. */
  ghost predicate OccursAt(s: string, p: string, i: int) {
    0 <= i && i + |p| <= |s| && s[i..i + |p|] == p
  }

  lemma {:induction false} StartsWithIffPrefix(s: string, p: string)
    ensures StartsWith(s, p) <==> |p| <= |s| && s[..|p|] == p
    decreases |p|
  {
    if |p| > 0 && |s| > 0 {
      StartsWithIffPrefix(s[1..], p[1..]);
      if |p| <= |s| && s[..|p|] == p {
        assert s[1..][..|p| - 1] == s[..|p|][1..];
      }
      if StartsWith(s, p) {
        assert s[..|p|] == [s[0]] + s[1..][..|p| - 1];
        assert p == [p[0]] + p[1..];
      }
    }
  }

  /** A string never contains a longer one. */
  lemma {:induction false} ShorterLacks(s: string, p: string)
    requires |s| < |p|
    ensures !Contains(s, p)
    decreases |s|
  {
    StartsWithIffPrefix(s, p);
    if |s| > 0 { ShorterLacks(s[1..], p); }
  }

  /** `Contains` is the substring test: `p` occurs at some index of `s`. */
  lemma {:induction false} ContainsIffOccurs(s: string, p: string)
    ensures Contains(s, p) <==> exists i :: OccursAt(s, p, i)
    decreases |s|
  {
    StartsWithIffPrefix(s, p);
    if StartsWith(s, p) {
      assert OccursAt(s, p, 0);
    }
    if |s| > 0 {
      ContainsIffOccurs(s[1..], p);
      if Contains(s[1..], p) {
        var i :| OccursAt(s[1..], p, i);
        assert s[1..][i..i + |p|] == s[i + 1..i + 1 + |p|];
        assert OccursAt(s, p, i + 1);
      }
      if exists i :: OccursAt(s, p, i) {
        var i :| OccursAt(s, p, i);
        if i > 0 {
          assert s[1..][i - 1..i - 1 + |p|] == s[i..i + |p|];
          assert OccursAt(s[1..], p, i - 1);
        } else {
          assert s[..|p|] == s[0..0 + |p|];
        }
      }
    } else if Contains(s, p) {
      assert OccursAt(s, p, 0);
    }
  }

  /** Every character of a contained string appears in the containing one:
      a cheap way to show that a string is absent. */
  lemma {:induction false} ContainsChar(s: string, p: string, k: nat)
    requires Contains(s, p) && k < |p|
    ensures p[k] in s
    decreases |s|
  {
    if StartsWith(s, p) {
      StartsWithIffPrefix(s, p);
      assert s[k] == p[k];
    } else {
      ContainsChar(s[1..], p, k);
    }
  }

  /** A string missing one character of `p` does not contain `p`. */
  lemma LacksChar(s: string, p: string, k: nat)
    requires k < |p| && p[k] !in s
    ensures !Contains(s, p)
  {
    if Contains(s, p) { ContainsChar(s, p, k); }
  }

  /** Python's `s.replace(p, r)` for a non-empty `p`: one left-to-right pass
      that replaces each occurrence of `p` it meets and resumes after it, so
      occurrences never overlap and the inserted text is never rescanned. */
  function ReplaceAll(s: string, p: string, r: string): (t: string)
    requires |p| > 0
    ensures !Contains(s, p) ==> t == s
    ensures r == [] ==> |t| <= |s|
    ensures r == [] && Contains(s, p) ==> |t| + |p| <= |s|
    decreases |s|
  {
    if |s| < |p| then ShorterLacks(s, p); s
    else if StartsWith(s, p) then (StartsWithIffPrefix(s, p); r + ReplaceAll(s[|p|..], p, r))
    else [s[0]] + ReplaceAll(s[1..], p, r)
  }

  /** A stretch that does not hold the first character of `p` passes through
      `ReplaceAll` untouched. */
  lemma {:induction false} ReplaceAllSkips(a: string, b: string, p: string, r: string)
    requires |p| > 0 && p[0] !in a
    ensures ReplaceAll(a + b, p, r) == a + ReplaceAll(b, p, r)
    decreases |a|
  {
    if |a| > 0 {
      var s := a + b;
      assert s[0] == a[0] != p[0];
      assert !StartsWith(s, p);
      assert s[1..] == a[1..] + b;
      ReplaceAllSkips(a[1..], b, p, r);
      if |s| < |p| {
        assert ReplaceAll(b, p, r) == b;
      } else {
        calc {
          ReplaceAll(s, p, r);
          [s[0]] + ReplaceAll(s[1..], p, r);
          [a[0]] + (a[1..] + ReplaceAll(b, p, r));
          a + ReplaceAll(b, p, r);
        }
      }
    } else {
      assert a + b == b;
    }
  }

  /** An occurrence at the front is replaced and the scan resumes after it. */
  lemma ReplaceAllHits(p: string, b: string, r: string)
    requires |p| > 0
    ensures ReplaceAll(p + b, p, r) == r + ReplaceAll(b, p, r)
  {
    StartsWithIffPrefix(p + b, p);
    assert (p + b)[|p|..] == b;
  }

  /** An occurrence past the first position is an occurrence in the tail. */
  lemma OccursShift(s: string, p: string, j: int)
    requires 1 <= j && j + |p| <= |s|
    ensures OccursAt(s, p, j) <==> OccursAt(s[1..], p, j - 1)
  {
    assert s[1..][j - 1..j - 1 + |p|] == s[j..j + |p|];
  }

  /** Index of the leftmost occurrence of `p` in `s`, if any. */
  function FindFirst(s: string, p: string): (r: Option<nat>)
    requires |p| > 0
    ensures r.Some? ==> r.value + |p| <= |s|
    decreases |s|
  {
    if |s| < |p| then None
    else if StartsWith(s, p) then Some(0)
    else match FindFirst(s[1..], p)
      case None => None
      case Some(i) => Some(i + 1)
  }

  /** `FindFirst` finds an occurrence exactly when there is one, and the one
      it finds is the leftmost. */
  lemma {:induction false} FindFirstIsLeftmost(s: string, p: string)
    requires |p| > 0
    ensures FindFirst(s, p).None? <==> !Contains(s, p)
    ensures FindFirst(s, p).Some? ==> OccursAt(s, p, FindFirst(s, p).value)
    ensures FindFirst(s, p).Some? ==> forall j | 0 <= j < FindFirst(s, p).value :: !OccursAt(s, p, j)
    decreases |s|
  {
    StartsWithIffPrefix(s, p);
    if |s| < |p| {
      ShorterLacks(s, p);
    } else if !StartsWith(s, p) {
      FindFirstIsLeftmost(s[1..], p);
      var found := FindFirst(s[1..], p);
      if found.Some? {
        var i := found.value;
        assert s[1..][i..i + |p|] == s[i + 1..i + 1 + |p|];
        forall j | 1 <= j < i + 1 ensures !OccursAt(s, p, j) {
          OccursShift(s, p, j);
        }
        assert !OccursAt(s, p, 0) by {
          assert s[..|p|] == s[0..0 + |p|];
        }
      }
    } else {
      assert s[..|p|] == s[0..0 + |p|];
    }
  }

  /** Python's `s.split(p)`: the pieces between the leftmost non-overlapping
      occurrences of `p`. */
  function Split(s: string, p: string): (parts: seq<string>)
    requires |p| > 0
    ensures |parts| >= 1
    decreases |s|
  {
    var found := FindFirst(s, p);
    if found.None? then [s]
    else [s[..found.value]] + Split(s[found.value + |p|..], p)
  }

  /** Python's `sep.join(parts)`. */
  function Join(parts: seq<string>, sep: string): string {
    if |parts| == 0 then []
    else if |parts| == 1 then parts[0]
    else parts[0] + sep + Join(parts[1..], sep)
  }

  /** Splitting and joining back with the same separator restores the string. */
  lemma {:induction false} SplitJoinRoundTrip(s: string, p: string)
    requires |p| > 0
    ensures Join(Split(s, p), p) == s
    decreases |s|
  {
    var found := FindFirst(s, p);
    if found.Some? {
      var i := found.value;
      var rest := s[i + |p|..];
      var parts := Split(s, p);
      FindFirstIsLeftmost(s, p);
      assert parts == [s[..i]] + Split(rest, p);
      assert parts[1..] == Split(rest, p);
      SplitJoinRoundTrip(rest, p);
      assert Join(parts, p) == s[..i] + p + rest;
      assert s == s[..i] + s[i..i + |p|] + rest;
    }
  }

  /** Where `p` starts at the leftmost occurrence of the tail, it starts one
      position later in the whole string. */
  lemma FindFirstShifts(s: string, p: string)
    requires |p| > 0 && |s| >= |p| && !StartsWith(s, p)
    ensures FindFirst(s, p) == if FindFirst(s[1..], p).Some? then Some(FindFirst(s[1..], p).value + 1) else None
  {
  }

  /** Away from an occurrence at the front, the first piece of the split
      grows by the first character. */
  lemma SplitCons(s: string, p: string)
    requires |p| > 0 && |s| > 0 && !StartsWith(s, p)
    ensures Split(s, p) == [[s[0]] + Split(s[1..], p)[0]] + Split(s[1..], p)[1..]
  {
    if |s| < |p| {
      ShorterLacks(s, p);
      ShorterLacks(s[1..], p);
      assert [s[0]] + s[1..] == s;
    } else {
      FindFirstShifts(s, p);
      var found := FindFirst(s[1..], p);
      if found.None? {
        assert [s[0]] + s[1..] == s;
      } else {
        SplitConsAt(s, p, found.value);
      }
    }
  }

  lemma SplitConsAt(s: string, p: string, i: nat)
    requires |p| > 0 && |s| >= |p| && FindFirst(s, p) == Some(i + 1) && FindFirst(s[1..], p) == Some(i)
    ensures Split(s, p) == [[s[0]] + Split(s[1..], p)[0]] + Split(s[1..], p)[1..]
  {
    var tail := s[1..][i + |p|..];
    assert tail == s[i + 1 + |p|..];
    SplitAt(s[1..], p, i);
    SplitAt(s, p, i + 1);
    assert [s[0]] + s[1..][..i] == s[..i + 1];
  }

  lemma SplitAt(s: string, p: string, i: nat)
    requires |p| > 0 && FindFirst(s, p) == Some(i)
    ensures i + |p| <= |s|
    ensures Split(s, p) == [s[..i]] + Split(s[i + |p|..], p)
  {
  }

  lemma JoinGrowsHead(c: char, parts: seq<string>, sep: string)
    requires |parts| >= 1
    ensures Join([[c] + parts[0]] + parts[1..], sep) == [c] + Join(parts, sep)
  {
    var q := [[c] + parts[0]] + parts[1..];
    assert q[1..] == parts[1..];
  }

  /** Python's identity `s.replace(p, r) == r.join(s.split(p))`: the single
      scan agrees with the split-based reference on every input. */
  lemma {:induction false} ReplaceAllIsJoinOfSplit(s: string, p: string, r: string)
    requires |p| > 0
    ensures ReplaceAll(s, p, r) == Join(Split(s, p), r)
    decreases |s|
  {
    if |s| < |p| {
      ShorterLacks(s, p);
    } else if StartsWith(s, p) {
      ReplaceAllIsJoinOfSplit(s[|p|..], p, r);
      var parts := Split(s, p);
      assert parts == [""] + Split(s[|p|..], p);
      assert parts[1..] == Split(s[|p|..], p);
    } else {
      ReplaceAllIsJoinOfSplit(s[1..], p, r);
      SplitCons(s, p);
      JoinGrowsHead(s[0], Split(s[1..], p), r);
    }
  }
}
