/** The Rust `str` operations the canonicaliser is built from, on `seq<char>`:
    `starts_with`, `contains` and `replace`, together with the facts about them
    that the rest of the model relies on. */
module Strings {

  /** `s.starts_with(p)` */
  predicate StartsWith(s: string, p: string) {
    |p| <= |s| && s[..|p|] == p
  }

  /** `p` occurs in `s` beginning at index `i`. */
  predicate OccursAt(s: string, i: int, p: string) {
    0 <= i && i + |p| <= |s| && s[i..i + |p|] == p
  }

  /** `s.contains(p)` */
  predicate Contains(s: string, p: string) {
    exists i | 0 <= i <= |s| - |p| :: OccursAt(s, i, p)
  }

  /** `s.replace(p, r)`: every non-overlapping occurrence of `p`, found from
      left to right, is replaced by `r` (std's `str::replace`). The source
      only ever passes a non-empty pattern. */
  function Replace(s: string, p: string, r: string): string
    requires p != []
    decreases |s|
  {
    if s == [] then []
    else if StartsWith(s, p) then r + Replace(s[|p|..], p, r)
    else [s[0]] + Replace(s[1..], p, r)
  }

  /** The number of occurrences `Replace` rewrites (`s.matches(p).count()`). */
  function Count(s: string, p: string): nat
    requires p != []
    decreases |s|
  {
    if s == [] then 0
    else if StartsWith(s, p) then 1 + Count(s[|p|..], p)
    else Count(s[1..], p)
  }

  /** `s.split(p)`: the pieces between the occurrences `Replace` rewrites. */
  function Split(s: string, p: string): (parts: seq<string>)
    requires p != []
    ensures |parts| == Count(s, p) + 1
    decreases |s|
  {
    if s == [] then [[]]
    else if StartsWith(s, p) then [[]] + Split(s[|p|..], p)
    else
      var rest := Split(s[1..], p);
      [[s[0]] + rest[0]] + rest[1..]
  }

  /** `parts.join(sep)` */
  function Join(parts: seq<string>, sep: string): string
    decreases |parts|
  {
    if parts == [] then []
    else if |parts| == 1 then parts[0]
    else parts[0] + sep + Join(parts[1..], sep)
  }

  // ---------------------------------------------------------------------------
  // Replace is split-then-join: it changes the occurrences and nothing else.
  // ---------------------------------------------------------------------------

  /** The partner of `Replace`: it rejoins the pieces of `Split` with `r`. */
  lemma {:induction false} ReplaceIsJoinOfSplit(s: string, p: string, r: string)
    requires p != []
    ensures Replace(s, p, r) == Join(Split(s, p), r)
    decreases |s|
  {
    if s == [] {
    } else if StartsWith(s, p) {
      ReplaceIsJoinOfSplit(s[|p|..], p, r);
    } else {
      ReplaceIsJoinOfSplit(s[1..], p, r);
      var rest := Split(s[1..], p);
      if |rest| > 1 {
        assert [[s[0]] + rest[0]] + rest[1..] == [[s[0]] + rest[0]] + rest[1..];
        assert Join(rest, r) == rest[0] + r + Join(rest[1..], r);
        assert ([[s[0]] + rest[0]] + rest[1..])[1..] == rest[1..];
      }
    }
  }

  /** Rejoining the pieces with the pattern itself gives back the input. */
  lemma {:induction false} JoinOfSplitIsInput(s: string, p: string)
    requires p != []
    ensures Join(Split(s, p), p) == s
    decreases |s|
  {
    ReplaceIsJoinOfSplit(s, p, p);
    ReplaceByItself(s, p);
  }

  lemma {:induction false} ReplaceByItself(s: string, p: string)
    requires p != []
    ensures Replace(s, p, p) == s
    decreases |s|
  {
    if s == [] {
    } else if StartsWith(s, p) {
      ReplaceByItself(s[|p|..], p);
      assert s == s[..|p|] + s[|p|..];
    } else {
      ReplaceByItself(s[1..], p);
      assert s == [s[0]] + s[1..];
    }
  }

  /** The first piece of a split is a prefix of the input. */
  lemma {:induction false} SplitHeadIsPrefix(s: string, p: string)
    requires p != []
    ensures StartsWith(s, Split(s, p)[0])
    decreases |s|
  {
    if s != [] && !StartsWith(s, p) {
      SplitHeadIsPrefix(s[1..], p);
      var h := Split(s[1..], p)[0];
      assert ([s[0]] + h) == s[..|h| + 1];
    }
  }

  /** No piece of a split contains the pattern: every occurrence went into a separator. */
  lemma {:induction false} SplitPiecesAreFree(s: string, p: string)
    requires p != []
    ensures forall k :: 0 <= k < |Split(s, p)| ==> !Contains(Split(s, p)[k], p)
    decreases |s|
  {
    if s == [] {
      assert Split(s, p) == [[]];
      assert !OccursAt([], 0, p);
    } else if StartsWith(s, p) {
      SplitPiecesAreFree(s[|p|..], p);
      var parts := Split(s, p);
      forall k | 0 <= k < |parts| ensures !Contains(parts[k], p) {
        if k == 0 {
          assert parts[0] == [];
          assert forall i :: !OccursAt(parts[0], i, p);
        } else {
          assert parts[k] == Split(s[|p|..], p)[k - 1];
        }
      }
    } else {
      SplitPiecesAreFree(s[1..], p);
      SplitHeadIsPrefix(s[1..], p);
      var rest := Split(s[1..], p);
      var head := [s[0]] + rest[0];
      assert head == s[..|head|];
      forall i | 0 <= i <= |head| - |p| ensures !OccursAt(head, i, p) {
        if i == 0 {
          assert head[..|p|] == s[..|p|];
        } else {
          OccursAtShift(head, rest[0], i - 1, p);
        }
      }
      var parts := Split(s, p);
      forall k | 0 <= k < |parts| ensures !Contains(parts[k], p) {
        if k > 0 {
          assert parts[k] == rest[k];
        }
      }
    }
  }

  // ---------------------------------------------------------------------------
  // Length, characters and the absent pattern
  // ---------------------------------------------------------------------------

  /** Each rewritten occurrence trades `|p|` characters for `|r|`. */
  lemma {:induction false} ReplaceLength(s: string, p: string, r: string)
    requires p != []
    ensures |Replace(s, p, r)| + Count(s, p) * |p| == |s| + Count(s, p) * |r|
    decreases |s|
  {
    if s == [] {
    } else if StartsWith(s, p) {
      ReplaceLength(s[|p|..], p, r);
      var c := Count(s[|p|..], p);
      assert (1 + c) * |p| == |p| + c * |p|;
      assert (1 + c) * |r| == |r| + c * |r|;
    } else {
      ReplaceLength(s[1..], p, r);
    }
  }

  /** Replacing one character by one character changes exactly the positions
      that held it. */
  lemma {:induction false} ReplaceCharPointwise(s: string, c: char, d: char)
    ensures |Replace(s, [c], [d])| == |s|
    ensures forall i :: 0 <= i < |s| ==> Replace(s, [c], [d])[i] == (if s[i] == c then d else s[i])
    decreases |s|
  {
    if s != [] {
      ReplaceCharPointwise(s[1..], c, d);
      assert StartsWith(s, [c]) <==> s[0] == c;
      var t := Replace(s, [c], [d]);
      assert t == (if s[0] == c then [d] else [s[0]]) + Replace(s[1..], [c], [d]);
      forall i | 0 <= i < |s| ensures t[i] == (if s[i] == c then d else s[i]) {
        if i > 0 {
          assert t[i] == Replace(s[1..], [c], [d])[i - 1];
        }
      }
    }
  }

  /** A character map commutes with taking a suffix. */
  lemma ReplaceCharSuffix(s: string, c: char, d: char, j: nat)
    requires j <= |s|
    ensures |Replace(s, [c], [d])| == |s| && Replace(s, [c], [d])[j..] == Replace(s[j..], [c], [d])
  {
    ReplaceCharPointwise(s, c, d);
    ReplaceCharPointwise(s[j..], c, d);
  }

  /** A character map that touches no character of `p` keeps its occurrences. */
  lemma {:induction false} CountUnderCharMap(s: string, c: char, d: char, p: string)
    requires p != [] && c !in p && d !in p
    ensures Count(Replace(s, [c], [d]), p) == Count(s, p)
    decreases |s|
  {
    var t := Replace(s, [c], [d]);
    ReplaceCharPointwise(s, c, d);
    if s != [] {
      CharMapStartsWith(s, c, d, p);
      if StartsWith(s, p) {
        ReplaceCharSuffix(s, c, d, |p|);
        CountUnderCharMap(s[|p|..], c, d, p);
      } else {
        ReplaceCharSuffix(s, c, d, 1);
        CountUnderCharMap(s[1..], c, d, p);
      }
    }
  }

  /** A character map that touches no character of `p` neither creates nor
      destroys an occurrence of `p` at the front. */
  lemma CharMapStartsWith(s: string, c: char, d: char, p: string)
    requires c !in p && d !in p
    ensures StartsWith(Replace(s, [c], [d]), p) <==> StartsWith(s, p)
  {
    var t := Replace(s, [c], [d]);
    ReplaceCharPointwise(s, c, d);
    if |p| <= |s| {
      forall k | 0 <= k < |p| ensures (t[..|p|][k] == p[k]) <==> (s[..|p|][k] == p[k]) {
        assert t[..|p|][k] == t[k] && s[..|p|][k] == s[k];
      }
    }
  }

  /** Every character of the result comes from the input or from `r`. */
  lemma {:induction false} ReplaceKeepsAlphabet(s: string, p: string, r: string, x: char)
    requires p != [] && x in Replace(s, p, r)
    ensures x in s || x in r
    decreases |s|
  {
    if s != [] {
      if StartsWith(s, p) {
        if x !in r {
          ReplaceKeepsAlphabet(s[|p|..], p, r, x);
        }
      } else if x != s[0] {
        ReplaceKeepsAlphabet(s[1..], p, r, x);
      }
    }
  }

  /** Without an occurrence of the pattern, `Replace` is the identity. */
  lemma {:induction false} ReplaceAbsent(s: string, p: string, r: string)
    requires p != [] && !Contains(s, p)
    ensures Replace(s, p, r) == s
    decreases |s|
  {
    if s != [] {
      assert !OccursAt(s, 0, p);
      forall i | 0 <= i <= |s[1..]| - |p| ensures !OccursAt(s[1..], i, p) {
        assert s == [s[0]] + s[1..];
        OccursAtShift(s, s[1..], i, p);
      }
      ReplaceAbsent(s[1..], p, r);
      assert s == [s[0]] + s[1..];
    }
  }

  /** A stretch `a` in which no occurrence begins is copied unchanged. */
  lemma {:induction false} ReplaceSkip(a: string, b: string, p: string, r: string)
    requires p != []
    requires forall i :: 0 <= i < |a| ==> !OccursAt(a + b, i, p)
    ensures Replace(a + b, p, r) == a + Replace(b, p, r)
    decreases |a|
  {
    if a != [] {
      assert !OccursAt(a + b, 0, p);
      assert (a + b)[1..] == a[1..] + b;
      forall i | 0 <= i < |a[1..]| ensures !OccursAt(a[1..] + b, i, p) {
        assert a + b == [a[0]] + (a[1..] + b);
        OccursAtShift(a + b, a[1..] + b, i, p);
      }
      ReplaceSkip(a[1..], b, p, r);
      assert !StartsWith(a + b, p);
      assert Replace(a + b, p, r) == [a[0]] + Replace(a[1..] + b, p, r);
      assert [a[0]] + (a[1..] + Replace(b, p, r)) == a + Replace(b, p, r);
    } else {
      assert a + b == b;
    }
  }

  /** An occurrence at the front is rewritten and scanning resumes after it. */
  lemma ReplaceHit(p: string, b: string, r: string)
    requires p != []
    ensures Replace(p + b, p, r) == r + Replace(b, p, r)
  {
    assert (p + b)[..|p|] == p;
    assert (p + b)[|p|..] == b;
  }

  /** Occurrences in `y` are those in `[ch] + y`, one place later. */
  lemma OccursAtShift(x: string, y: string, i: nat, p: string)
    requires |x| > 0 && x == [x[0]] + y
    ensures OccursAt(x, i + 1, p) <==> OccursAt(y, i, p)
  {
    if i + 1 + |p| <= |x| {
      assert x[i + 1..i + 1 + |p|] == y[i..i + |p|];
    }
  }
  /** An occurrence anywhere is found by the scan: `Count` is positive. */
  lemma {:induction false} ContainsIsCounted(s: string, p: string)
    requires p != [] && Contains(s, p)
    ensures Count(s, p) > 0
    decreases |s|
  {
    var i :| 0 <= i <= |s| - |p| && OccursAt(s, i, p);
    if !StartsWith(s, p) {
      assert i != 0 && s == [s[0]] + s[1..];
      OccursAtShift(s, s[1..], i - 1, p);
      ContainsIsCounted(s[1..], p);
    }
  }

  /** No occurrence begins where the pattern's first character is absent. */
  lemma AbsentFirst(s: string, p: string)
    requires p != [] && forall i :: 0 <= i < |s| ==> s[i] != p[0]
    ensures !Contains(s, p)
  {
    forall i | 0 <= i <= |s| - |p| ensures !OccursAt(s, i, p) {
      assert s[i..i + |p|][0] == s[i];
    }
  }
  /** A stretch without the pattern's first character is copied unchanged. */
  lemma ReplaceSkipFree(a: string, b: string, p: string, r: string)
    requires p != [] && forall i :: 0 <= i < |a| ==> a[i] != p[0]
    ensures Replace(a + b, p, r) == a + Replace(b, p, r)
  {
    forall i | 0 <= i < |a| ensures !OccursAt(a + b, i, p) {
      if i + |p| <= |a + b| {
        assert (a + b)[i..i + |p|][0] == a[i];
      }
    }
    ReplaceSkip(a, b, p, r);
  }
  /** No occurrence begins where the pattern's first two characters never
      stand side by side. */
  lemma AbsentPair(s: string, p: string)
    requires |p| >= 2 && forall i :: 0 <= i < |s| - 1 ==> s[i] != p[0] || s[i + 1] != p[1]
    ensures !Contains(s, p)
  {
    forall i | 0 <= i <= |s| - |p| ensures !OccursAt(s, i, p) {
      assert s[i..i + |p|][0] == s[i] && s[i..i + |p|][1] == s[i + 1];
    }
  }
}
