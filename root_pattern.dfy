/** The root-prefix regular expression of `get_canon_name`, hand-compiled.

    The pattern (compiled with the `(?i)` flag) is
        ((Content|(atmosphere/(titles|contents)/)?01007EF00011E000/romfs)/)
      | ((Aoc(/0010)?|(atmosphere/(titles|contents)/)?01007EF00011[ef]00[0-2]/romfs)/)
    Every alternative has a fixed length, so the regex unfolds into the nine
    fixed-length branches below, tried at each position in the order a leftmost-first
    engine prefers them (alternation left to right, an optional group taken
    before it is skipped). `ReplaceRoots` is `Regex::replace_all` with the
    source's closure as the replacement. */
module RootPattern {
  import opened Options
  import opened Strings

  /** The other ASCII case of a letter; any other character is its own.
      ASCII letters are the only case folding this model gives `(?i)`. */
  function SwapCase(c: char): char {
    if 'A' <= c <= 'Z' then (c as int + 32) as char
    else if 'a' <= c <= 'z' then (c as int - 32) as char
    else c
  }

  /** `x` matches the pattern character `c` under `(?i)`. */
  predicate SameIgnoringCase(x: char, c: char) {
    x == c || x == SwapCase(c)
  }

  /** `t` reads `w` from index `i` on, ASCII case-insensitively: a run of
      literal characters of the pattern under `(?i)`. */
  predicate FoldedAt(t: string, i: nat, w: string) {
    i + |w| <= |t| && forall k :: 0 <= k < |w| ==> SameIgnoringCase(t[i + k], w[k])
  }

  /** `t[i]` is in the bracketed class listing `members` (`[ef]` lists "ef",
      `[0-2]` lists "012"), ASCII case-insensitively. */
  predicate ClassAt(t: string, i: nat, members: string) {
    i < |t| && exists j | 0 <= j < |members| :: SameIgnoringCase(t[i], members[j])
  }

  /** The base game's title directory `01007EF00011E000/romfs/` at `i`. */
  predicate BaseTitleAt(t: string, i: nat) {
    FoldedAt(t, i, "01007EF00011E000/romfs/")
  }

  /** A DLC title directory `01007EF00011[ef]00[0-2]/romfs/` at `i`. */
  predicate AocTitleAt(t: string, i: nat) {
    FoldedAt(t, i, "01007EF00011") && ClassAt(t, i + 12, "ef") && FoldedAt(t, i + 13, "00")
    && ClassAt(t, i + 15, "012") && FoldedAt(t, i + 16, "/romfs/")
  }

  /** The case-sensitive title identifier the replacement closure looks for. */
  const BaseTitleId: string := "01007EF00011E000"

  /** The number of fixed-length branches the pattern unfolds into. */
  const BranchCount: nat := 9

  /** Branch `k` of the pattern matches at the start of `t`. The branches are
      numbered in the order a leftmost-first engine tries them:
      `Content/`, then the base title directory with the `atmosphere/titles/`
      prefix, with `atmosphere/contents/`, and bare; then `Aoc/0010/` before
      `Aoc/`; then the DLC title directories in the same three forms. */
  predicate BranchMatches(t: string, k: nat) {
    match k
    case 0 => FoldedAt(t, 0, "Content/")
    case 1 => FoldedAt(t, 0, "atmosphere/titles/") && BaseTitleAt(t, 18)
    case 2 => FoldedAt(t, 0, "atmosphere/contents/") && BaseTitleAt(t, 20)
    case 3 => BaseTitleAt(t, 0)
    case 4 => FoldedAt(t, 0, "Aoc/0010/")
    case 5 => FoldedAt(t, 0, "Aoc/")
    case 6 => FoldedAt(t, 0, "atmosphere/titles/") && AocTitleAt(t, 18)
    case 7 => FoldedAt(t, 0, "atmosphere/contents/") && AocTitleAt(t, 20)
    case 8 => AocTitleAt(t, 0)
    case _ => false
  }

  /** The length of the text branch `k` matches. */
  function BranchLen(k: nat): nat {
    match k
    case 0 => 8
    case 1 => 41
    case 2 => 43
    case 3 => 23
    case 4 => 9
    case 5 => 4
    case 6 => 41
    case 7 => 43
    case _ => 23
  }

  /** Every branch ends in `/`, so none matches the empty string. */
  lemma BranchEndsInSlash(t: string, k: nat)
    requires BranchMatches(t, k)
    ensures 0 < BranchLen(k) <= |t| && t[BranchLen(k) - 1] == '/'
  {
    match k
    case 0 => assert SameIgnoringCase(t[7], "Content/"[7]);
    case 1 => assert SameIgnoringCase(t[18 + 22], "01007EF00011E000/romfs/"[22]);
    case 2 => assert SameIgnoringCase(t[20 + 22], "01007EF00011E000/romfs/"[22]);
    case 3 => assert SameIgnoringCase(t[22], "01007EF00011E000/romfs/"[22]);
    case 4 => assert SameIgnoringCase(t[8], "Aoc/0010/"[8]);
    case 5 => assert SameIgnoringCase(t[3], "Aoc/"[3]);
    case 6 => assert SameIgnoringCase(t[18 + 16 + 6], "/romfs/"[6]);
    case 7 => assert SameIgnoringCase(t[20 + 16 + 6], "/romfs/"[6]);
    case 8 => assert SameIgnoringCase(t[16 + 6], "/romfs/"[6]);
  }

  /** The first branch from `k` on that matches at the start of `t`. */
  function FirstMatch(t: string, k: nat): (r: Option<nat>)
    ensures r.Some? ==> 0 < r.value <= |t| && t[r.value - 1] == '/'
    decreases BranchCount - k
  {
    if k >= BranchCount then None
    else if BranchMatches(t, k) then
      BranchEndsInSlash(t, k);
      Some(BranchLen(k))
    else FirstMatch(t, k + 1)
  }

  /** The length of the match the regex prefers at the start of `t`, if any. */
  function MatchLen(t: string): (r: Option<nat>)
    ensures r.Some? ==> 0 < r.value <= |t| && t[r.value - 1] == '/'
  {
    FirstMatch(t, 0)
  }

  /** The source's replacement closure: `"content/"` when the matched text,
      compared case-sensitively, starts with `content` or holds the base
      title identifier; `"aoc/0010/"` otherwise. */
  function Substitute(m: string): (r: string)
    ensures r == "content/" || r == "aoc/0010/"
    ensures r == "content/" <==> StartsWith(m, "content") || Contains(m, BaseTitleId)
  {
    if StartsWith(m, "content") || Contains(m, BaseTitleId) then "content/" else "aoc/0010/"
  }

  /** `Regex::replace_all`: scan left to right; where a match starts, emit its
      substitution and resume after it, otherwise copy one character. */
  function ReplaceRoots(t: string): string
    decreases |t|
  {
    if t == [] then []
    else match MatchLen(t)
      case Some(n) => Substitute(t[..n]) + ReplaceRoots(t[n..])
      case None => [t[0]] + ReplaceRoots(t[1..])
  }

  // ---------------------------------------------------------------------------
  // Where a match can start
  // ---------------------------------------------------------------------------

  /** Every branch begins, case-folded, with `cont`, `atmo`, `aoc/` or `0100`. */
  predicate RootMayStartAt(t: string, i: nat) {
    FoldedAt(t, i, "cont") || FoldedAt(t, i, "atmo") || FoldedAt(t, i, "aoc/") || FoldedAt(t, i, "0100")
  }

  /** A run matched case-insensitively also matches, case-insensitively, any
      prefix of itself written in another case. */
  lemma PrefixFolded(t: string, w: string, v: string)
    requires FoldedAt(t, 0, w) && |v| <= |w|
    requires forall k :: 0 <= k < |v| ==> v[k] == w[k] || (v[k] == SwapCase(w[k]) && w[k] == SwapCase(v[k]))
    ensures FoldedAt(t, 0, v)
  {
    forall k | 0 <= k < |v| ensures SameIgnoringCase(t[k], v[k]) {
      assert SameIgnoringCase(t[k], w[k]);
    }
  }

  lemma BranchStartsLikeRoot(t: string, k: nat)
    requires BranchMatches(t, k)
    ensures RootMayStartAt(t, 0)
  {
    match k
    case 0 => PrefixFolded(t, "Content/", "cont");
    case 1 => PrefixFolded(t, "atmosphere/titles/", "atmo");
    case 2 => PrefixFolded(t, "atmosphere/contents/", "atmo");
    case 3 => PrefixFolded(t, "01007EF00011E000/romfs/", "0100");
    case 4 => PrefixFolded(t, "Aoc/0010/", "aoc/");
    case 5 => PrefixFolded(t, "Aoc/", "aoc/");
    case 6 => PrefixFolded(t, "atmosphere/titles/", "atmo");
    case 7 => PrefixFolded(t, "atmosphere/contents/", "atmo");
    case 8 => PrefixFolded(t, "01007EF00011", "0100");
  }

  lemma {:induction false} FirstMatchStartsLikeRoot(t: string, k: nat)
    requires FirstMatch(t, k).Some?
    ensures RootMayStartAt(t, 0)
    decreases BranchCount - k
  {
    if BranchMatches(t, k) {
      BranchStartsLikeRoot(t, k);
    } else {
      FirstMatchStartsLikeRoot(t, k + 1);
    }
  }

  /** No match can begin where the text does not open like a root. */
  lemma MatchStartsLikeRoot(t: string)
    requires MatchLen(t).Some?
    ensures RootMayStartAt(t, 0)
  {
    FirstMatchStartsLikeRoot(t, 0);
  }

  /** Where no branch can begin, one character is copied. */
  lemma ReplaceRootsCopy(t: string)
    requires t != [] && !RootMayStartAt(t, 0)
    ensures ReplaceRoots(t) == [t[0]] + ReplaceRoots(t[1..])
  {
    if MatchLen(t).Some? {
      MatchStartsLikeRoot(t);
    }
  }

  /** Where no branch can begin, one character is copied. */
  lemma ReplaceRootsCopyAt(t: string, i: nat)
    requires i < |t| && !RootMayStartAt(t, i)
    ensures ReplaceRoots(t[i..]) == [t[i]] + ReplaceRoots(t[i + 1..])
  {
    RootSuffix(t, i);
    ReplaceRootsCopy(t[i..]);
    assert t[i..][1..] == t[i + 1..];
  }

  /** A stretch `t[i..k]` in which no branch can begin is copied unchanged. */
  lemma {:induction false} ReplaceRootsSkip(t: string, i: nat, k: nat)
    requires i <= k <= |t|
    requires forall j :: i <= j < k ==> !RootMayStartAt(t, j)
    ensures ReplaceRoots(t[i..]) == t[i..k] + ReplaceRoots(t[k..])
    decreases k - i
  {
    if i < k {
      ReplaceRootsCopyAt(t, i);
      ReplaceRootsSkip(t, i + 1, k);
      ConsSlice(t, i, k, ReplaceRoots(t[k..]));
    }
  }

  lemma ConsSlice(t: string, i: nat, k: nat, x: string)
    requires i < k <= |t|
    ensures [t[i]] + (t[i + 1..k] + x) == t[i..k] + x
  {
    assert t[i..k] == [t[i]] + t[i + 1..k];
  }

  /** Where a branch can begin does not depend on what precedes it. */
  lemma RootSuffix(t: string, i: nat)
    requires i <= |t|
    ensures RootMayStartAt(t[i..], 0) <==> RootMayStartAt(t, i)
  {
    FoldedSuffix(t, i, "cont");
    FoldedSuffix(t, i, "atmo");
    FoldedSuffix(t, i, "aoc/");
    FoldedSuffix(t, i, "0100");
  }

  lemma FoldedSuffix(t: string, i: nat, w: string)
    requires i <= |t|
    ensures FoldedAt(t[i..], 0, w) <==> FoldedAt(t, i, w)
  {
  }

  /** A match at the front is substituted and scanning resumes after it. */
  lemma ReplaceRootsHit(m: string, b: string)
    requires MatchLen(m + b) == Some(|m|)
    ensures ReplaceRoots(m + b) == Substitute(m) + ReplaceRoots(b)
  {
    assert (m + b)[..|m|] == m;
    assert (m + b)[|m|..] == b;
  }


  // ---------------------------------------------------------------------------
  // Which branch the regex prefers
  // ---------------------------------------------------------------------------

  /** Branch `j` matches at the start of `t` and no branch before it does:
      the alternative a leftmost-first engine reports. */
  predicate PreferredBranch(t: string, j: nat) {
    j < BranchCount && BranchMatches(t, j) && forall i :: 0 <= i < j ==> !BranchMatches(t, i)
  }

  lemma {:induction false} FirstMatchSpec(t: string, k: nat)
    requires k <= BranchCount
    ensures FirstMatch(t, k).None? <==> forall j :: k <= j < BranchCount ==> !BranchMatches(t, j)
    ensures forall j :: k <= j < BranchCount && BranchMatches(t, j) && (forall i :: k <= i < j ==> !BranchMatches(t, i))
              ==> FirstMatch(t, k) == Some(BranchLen(j))
    decreases BranchCount - k
  {
    if k < BranchCount {
      FirstMatchSpec(t, k + 1);
    }
  }

  /** The regex matches at the start of `t` exactly when some branch does, and
      then the match is as long as the preferred branch. */
  lemma MatchLenSpec(t: string)
    ensures MatchLen(t).None? <==> forall j :: 0 <= j < BranchCount ==> !BranchMatches(t, j)
    ensures forall j :: PreferredBranch(t, j) ==> MatchLen(t) == Some(BranchLen(j))
  {
    FirstMatchSpec(t, 0);
  }

  /** The regex reports the preferred branch, substitutes it, and resumes. */
  lemma ReplaceRootsAt(m: string, x: string, j: nat)
    requires |m| == BranchLen(j) && PreferredBranch(m + x, j)
    ensures ReplaceRoots(m + x) == Substitute(m) + ReplaceRoots(x)
  {
    MatchLenSpec(m + x);
    ReplaceRootsHit(m, x);
  }

  // ---------------------------------------------------------------------------
  // How each kind of root is rewritten
  // ---------------------------------------------------------------------------

  /** One character that differs, case aside, rules a literal run out. */
  lemma NotFolded(t: string, i: nat, w: string, k: nat)
    requires k < |w| && i + k < |t| && !SameIgnoringCase(t[i + k], w[k])
    ensures !FoldedAt(t, i, w)
  {
  }

  /** `Content/` in any case is a root, but the replacement is chosen
      case-sensitively: only the lower-case spelling `content/` stays in the
      base game, every other spelling is sent to the DLC. */
  lemma ContentRoot(m: string, x: string)
    requires |m| == 8 && FoldedAt(m, 0, "Content/")
    ensures ReplaceRoots(m + x) == (if m[..7] == "content" then "content/" else "aoc/0010/") + ReplaceRoots(x)
  {
    assert SameIgnoringCase((m + x)[0], "Content/"[0]);
    ReplaceRootsAt(m, x, 0);
  }

  /** `Aoc/0010/` in any case becomes `aoc/0010/`: the regex takes the optional
      `/0010` part when it is there. */
  lemma DlcRootLong(m: string, x: string)
    requires |m| == 9 && FoldedAt(m, 0, "Aoc/0010/")
    ensures ReplaceRoots(m + x) == "aoc/0010/" + ReplaceRoots(x)
  {
    var t := m + x;
    assert SameIgnoringCase(t[0], "Aoc/0010/"[0]);
    assert SameIgnoringCase(t[1], "Aoc/0010/"[1]);
    NotFolded(t, 0, "Content/", 0);
    NotFolded(t, 0, "atmosphere/titles/", 1);
    NotFolded(t, 0, "atmosphere/contents/", 1);
    NotFolded(t, 0, "01007EF00011E000/romfs/", 0);
    assert BranchMatches(t, 4);
    ReplaceRootsAt(m, x, 4);
  }

  /** `Aoc/` in any case, not followed by `0010/`, also becomes `aoc/0010/`. */
  lemma DlcRootShort(m: string, x: string)
    requires |m| == 4 && FoldedAt(m, 0, "Aoc/") && !StartsWith(x, "0010/")
    ensures ReplaceRoots(m + x) == "aoc/0010/" + ReplaceRoots(x)
  {
    var t := m + x;
    assert SameIgnoringCase(t[0], "Aoc/"[0]);
    assert SameIgnoringCase(t[1], "Aoc/"[1]);
    NotFolded(t, 0, "Content/", 0);
    NotFolded(t, 0, "atmosphere/titles/", 1);
    NotFolded(t, 0, "atmosphere/contents/", 1);
    NotFolded(t, 0, "01007EF00011E000/romfs/", 0);
    LongDlcNeedsDigits(m, x);
    assert !BranchMatches(t, 4);
    assert BranchMatches(t, 5);
    ReplaceRootsAt(m, x, 5);
  }

  /** The long DLC branch needs `0010/` after its first four characters. */
  lemma LongDlcNeedsDigits(m: string, x: string)
    requires |m| == 4
    ensures FoldedAt(m + x, 0, "Aoc/0010/") ==> StartsWith(x, "0010/")
  {
    if FoldedAt(m + x, 0, "Aoc/0010/") {
      forall k | 0 <= k < 5 ensures x[k] == "0010/"[k] {
        assert SameIgnoringCase((m + x)[4 + k], "Aoc/0010/"[4 + k]);
      }
      assert x[..5] == "0010/";
    }
  }

  /** A literal run read within `m` is read the same once text is appended. */
  lemma FoldedExtend(m: string, x: string, i: nat, w: string)
    requires i + |w| <= |m|
    ensures FoldedAt(m + x, i, w) <==> FoldedAt(m, i, w)
  {
    forall k | 0 <= k < |w| ensures SameIgnoringCase((m + x)[i + k], w[k]) <==> SameIgnoringCase(m[i + k], w[k]) {
      assert (m + x)[i + k] == m[i + k];
    }
  }

  /** The same holds for a DLC title directory. */
  lemma AocTitleExtend(m: string, x: string, i: nat)
    requires AocTitleAt(m, i)
    ensures AocTitleAt(m + x, i)
  {
    FoldedExtend(m, x, i, "01007EF00011");
    FoldedExtend(m, x, i + 13, "00");
    FoldedExtend(m, x, i + 16, "/romfs/");
    assert (m + x)[i + 12] == m[i + 12] && (m + x)[i + 15] == m[i + 15];
  }

  /** The three places a title directory may sit: bare, under
      `atmosphere/titles/`, or under `atmosphere/contents/`. */
  predicate TitlePrefix(p: string) {
    p == "" || p == "atmosphere/titles/" || p == SwitchContents
  }

  /** The branch of the base title directory with prefix `p`; the DLC branch
      with the same prefix comes five places later. */
  function BaseTitleBranch(p: string): nat {
    if p == "" then 3 else if p == "atmosphere/titles/" then 1 else 2
  }

  /** No character read as `p` is a `0`, so the identifier cannot begin there. */
  lemma PrefixHasNoZero(m: string, p: string)
    requires TitlePrefix(p) && FoldedAt(m, 0, p)
    ensures forall i :: 0 <= i < |p| ==> m[i] != '0'
    ensures |p| > 0 ==> (m[0] == 'a' || m[0] == 'A') && (m[1] == 't' || m[1] == 'T')
    ensures |p| > 0 ==> (m[11] == 't' || m[11] == 'T' <==> p == "atmosphere/titles/")
  {
    forall i | 0 <= i < |p| ensures m[i] != '0' {
      assert SameIgnoringCase(m[i], p[i]);
    }
    if |p| > 0 {
      assert SameIgnoringCase(m[0], p[0]) && SameIgnoringCase(m[1], p[1]) && SameIgnoringCase(m[11], p[11]);
    }
  }

  /** In a title directory of length `k + 23` whose characters before `k` are
      no `0`, the base identifier can only occur at `k`: every later place
      would overlap the `/` at `k + 16`. */
  lemma TitleOnlyAtItsPlace(m: string, k: nat)
    requires |m| == k + 23 && m[k + 16] == '/'
    requires forall i :: 0 <= i < k ==> m[i] != '0'
    ensures Contains(m, BaseTitleId) <==> m[k..k + 16] == BaseTitleId
  {
    if m[k..k + 16] == BaseTitleId {
      assert OccursAt(m, k, BaseTitleId);
    }
    forall i | 0 <= i <= |m| - |BaseTitleId| && i != k ensures !OccursAt(m, i, BaseTitleId) {
      if i < k {
        assert m[i..i + 16][0] == m[i];
      } else {
        assert BaseTitleId[k + 16 - i] != '/';
        assert m[i..i + 16][k + 16 - i] == m[k + 16];
      }
    }
  }

  /** A base title directory, bare or under either Switch prefix and spelled
      in any case, is a root that no earlier branch takes; it becomes
      `content/` exactly when the identifier is spelled in upper case, since
      the closure looks for it case-sensitively. */
  lemma TitleRoot(m: string, x: string, p: string)
    requires TitlePrefix(p) && |m| == |p| + 23 && FoldedAt(m, 0, p) && BaseTitleAt(m, |p|)
    ensures PreferredBranch(m + x, BaseTitleBranch(p))
    ensures ReplaceRoots(m + x) == (if m[|p|..|p| + 16] == BaseTitleId then "content/" else "aoc/0010/") + ReplaceRoots(x)
  {
    FoldedExtend(m, x, 0, p);
    FoldedExtend(m, x, |p|, "01007EF00011E000/romfs/");
    PrefixHasNoZero(m, p);
    assert (m + x)[0] == m[0] && (m + x)[1] == m[1] && (m + x)[11] == m[11];
    TitlePreferred(m + x, p);
    ReplaceRootsAt(m, x, BaseTitleBranch(p));
    TitleSubstitute(m, p);
  }

  /** Only `Content/` and, under `atmosphere/contents/`, the titles branch come
      before a base title branch, and the prefix rules both out. */
  lemma TitlePreferred(t: string, p: string)
    requires TitlePrefix(p) && FoldedAt(t, 0, p) && BaseTitleAt(t, |p|)
    requires p != "" ==> (t[0] == 'a' || t[0] == 'A') && (t[11] == 't' || t[11] == 'T' <==> p == "atmosphere/titles/")
    ensures PreferredBranch(t, BaseTitleBranch(p))
  {
    if p == "" {
      BaseTitlePreferred(t);
    } else {
      NotFolded(t, 0, "Content/", 0);
      if p == SwitchContents {
        NotFolded(t, 0, "atmosphere/titles/", 11);
      }
    }
  }

  /** The closure tells the base title directory by its identifier's spelling. */
  lemma TitleSubstitute(m: string, p: string)
    requires TitlePrefix(p) && |m| == |p| + 23 && BaseTitleAt(m, |p|)
    requires forall i :: 0 <= i < |p| ==> m[i] != '0'
    requires p != "" ==> m[0] == 'a' || m[0] == 'A'
    ensures Substitute(m) == if m[|p|..|p| + 16] == BaseTitleId then "content/" else "aoc/0010/"
  {
    assert SameIgnoringCase(m[|p|], "01007EF00011E000/romfs/"[0]);
    assert SameIgnoringCase(m[|p| + 16], "01007EF00011E000/romfs/"[16]);
    assert !StartsWith(m, "content") by {
      assert m[..7][0] == m[0];
    }
    TitleOnlyAtItsPlace(m, |p|);
  }

  lemma BaseTitlePreferred(t: string)
    requires BaseTitleAt(t, 0)
    ensures PreferredBranch(t, 3)
  {
    assert SameIgnoringCase(t[0], "01007EF00011E000/romfs/"[0]);
    NotFolded(t, 0, "Content/", 0);
    NotFolded(t, 0, "atmosphere/titles/", 0);
    NotFolded(t, 0, "atmosphere/contents/", 0);
  }

  /** The base game's title directory is also matched by the DLC branch:
      `E` is in `[ef]` and `0` in `[0-2]`. That branch comes later, so
      `TitleRoot` is what the regex reports. */
  lemma BaseTitleIsDlcTitle(t: string, i: nat)
    requires BaseTitleAt(t, i)
    ensures AocTitleAt(t, i)
  {
    assert FoldedAt(t, i, "01007EF00011") by {
      forall k | 0 <= k < 12 ensures SameIgnoringCase(t[i + k], "01007EF00011"[k]) {
        assert SameIgnoringCase(t[i + k], "01007EF00011E000/romfs/"[k]);
      }
    }
    assert SameIgnoringCase(t[i + 12], "01007EF00011E000/romfs/"[12]);
    assert SameIgnoringCase(t[i + 12], "ef"[0]);
    assert FoldedAt(t, i + 13, "00") by {
      forall k | 0 <= k < 2 ensures SameIgnoringCase(t[i + 13 + k], "00"[k]) {
        assert SameIgnoringCase(t[i + 13 + k], "01007EF00011E000/romfs/"[13 + k]);
      }
    }
    assert SameIgnoringCase(t[i + 15], "01007EF00011E000/romfs/"[15]);
    assert SameIgnoringCase(t[i + 15], "012"[0]);
    assert FoldedAt(t, i + 16, "/romfs/") by {
      forall k | 0 <= k < 7 ensures SameIgnoringCase(t[i + 16 + k], "/romfs/"[k]) {
        assert SameIgnoringCase(t[i + 16 + k], "01007EF00011E000/romfs/"[16 + k]);
      }
    }
  }

  /** A DLC title directory spelled exactly as the base identifier is the
      base title directory. */
  lemma BaseSpelledIsBaseTitle(m: string, i: nat)
    requires AocTitleAt(m, i) && m[i..i + 16] == BaseTitleId
    ensures BaseTitleAt(m, i)
  {
    forall k | 0 <= k < 23 ensures SameIgnoringCase(m[i + k], "01007EF00011E000/romfs/"[k]) {
      if k < 16 {
        assert m[i + k] == m[i..i + 16][k];
      } else {
        assert SameIgnoringCase(m[i + 16 + (k - 16)], "/romfs/"[k - 16]);
      }
    }
  }

  /** A DLC title directory, bare or under either Switch prefix and spelled in
      any case, that is not the base game's, is a root that no earlier branch
      takes, and it becomes `aoc/0010/`. */
  lemma DlcTitleRoot(m: string, x: string, p: string)
    requires TitlePrefix(p) && |m| == |p| + 23 && FoldedAt(m, 0, p)
    requires AocTitleAt(m, |p|) && !BaseTitleAt(m, |p|)
    ensures PreferredBranch(m + x, BaseTitleBranch(p) + 5)
    ensures ReplaceRoots(m + x) == "aoc/0010/" + ReplaceRoots(x)
  {
    FoldedExtend(m, x, 0, p);
    AocTitleExtend(m, x, |p|);
    FoldedExtend(m, x, |p|, "01007EF00011E000/romfs/");
    PrefixHasNoZero(m, p);
    assert SameIgnoringCase(m[|p|], "01007EF00011"[0]);
    assert (m + x)[0] == m[0] && (m + x)[1] == m[1] && (m + x)[11] == m[11];
    DlcTitlePreferred(m + x, p);
    ReplaceRootsAt(m, x, BaseTitleBranch(p) + 5);
    DlcTitleSubstitute(m, p);
  }

  /** Every branch before the DLC one fails on the prefix's first or twelfth
      character, or, for the base branch with the same prefix, on the
      identifier. */
  lemma DlcTitlePreferred(t: string, p: string)
    requires TitlePrefix(p) && FoldedAt(t, 0, p) && AocTitleAt(t, |p|) && !BaseTitleAt(t, |p|)
    requires p == "" ==> t[0] == '0'
    requires p != "" ==> (t[0] == 'a' || t[0] == 'A') && (t[1] == 't' || t[1] == 'T')
    requires p != "" ==> (t[11] == 't' || t[11] == 'T' <==> p == "atmosphere/titles/")
    ensures PreferredBranch(t, BaseTitleBranch(p) + 5)
  {
    if p == "" {
      BareDlcTitlePreferred(t);
    } else {
      PrefixedDlcTitlePreferred(t, p);
    }
  }

  lemma BareDlcTitlePreferred(t: string)
    requires AocTitleAt(t, 0) && !BaseTitleAt(t, 0) && t[0] == '0'
    ensures PreferredBranch(t, 8)
  {
    NotFolded(t, 0, "Content/", 0);
    NotFolded(t, 0, "atmosphere/titles/", 0);
    NotFolded(t, 0, "atmosphere/contents/", 0);
    NotFolded(t, 0, "Aoc/0010/", 0);
    NotFolded(t, 0, "Aoc/", 0);
  }

  lemma PrefixedDlcTitlePreferred(t: string, p: string)
    requires (p == "atmosphere/titles/" || p == SwitchContents) && FoldedAt(t, 0, p)
    requires AocTitleAt(t, |p|) && !BaseTitleAt(t, |p|)
    requires (t[0] == 'a' || t[0] == 'A') && (t[1] == 't' || t[1] == 'T')
    requires t[11] == 't' || t[11] == 'T' <==> p == "atmosphere/titles/"
    ensures PreferredBranch(t, BaseTitleBranch(p) + 5)
  {
    NotFolded(t, 0, "Content/", 0);
    if p == SwitchContents {
      NotFolded(t, 0, "atmosphere/titles/", 11);
    } else {
      NotFolded(t, 0, "atmosphere/contents/", 11);
    }
    NotFolded(t, 0, "01007EF00011E000/romfs/", 0);
    NotFolded(t, 0, "Aoc/0010/", 1);
    NotFolded(t, 0, "Aoc/", 1);
  }

  /** The closure finds neither `content` at the front of a DLC title
      directory nor the base identifier in it. */
  lemma DlcTitleSubstitute(m: string, p: string)
    requires TitlePrefix(p) && |m| == |p| + 23 && AocTitleAt(m, |p|) && !BaseTitleAt(m, |p|)
    requires forall i :: 0 <= i < |p| ==> m[i] != '0'
    requires m[0] != 'c'
    ensures Substitute(m) == "aoc/0010/"
  {
    assert SameIgnoringCase(m[|p| + 16], "/romfs/"[0]);
    assert !StartsWith(m, "content") by {
      assert m[..7][0] == m[0];
    }
    if m[|p|..|p| + 16] == BaseTitleId {
      BaseSpelledIsBaseTitle(m, |p|);
    }
    TitleOnlyAtItsPlace(m, |p|);
  }

  /** The prefix under which the Switch layout keeps title directories. */
  const SwitchContents: string := "atmosphere/contents/"

  /** A DLC title identifier `01007EF00011[ef]00[0-2]`, from its two variable
      characters. */
  function AocTitleId(e: char, d: char): string {
    "01007EF00011" + [e] + "00" + [d]
  }

  /** The base game's directory under `atmosphere/contents/`, with the title
      identifier spelled exactly, is rewritten to `content/`. */
  lemma SwitchBaseRoot(m: string, x: string)
    requires m == SwitchContents + BaseTitleId + "/romfs/"
    ensures ReplaceRoots(m + x) == "content/" + ReplaceRoots(x)
  {
    assert FoldedAt(m, 0, SwitchContents) by {
      forall k | 0 <= k < 20 ensures SameIgnoringCase(m[k], SwitchContents[k]) {
        assert m[k] == SwitchContents[k];
      }
    }
    assert "01007EF00011E000/romfs/" == BaseTitleId + "/romfs/";
    assert BaseTitleAt(m, 20) by {
      forall k | 0 <= k < 23 ensures SameIgnoringCase(m[20 + k], (BaseTitleId + "/romfs/")[k]) {
        assert m[20 + k] == (BaseTitleId + "/romfs/")[k];
      }
    }
    assert m[20..36] == BaseTitleId;
    TitleRoot(m, x, SwitchContents);
  }

  /** A DLC title directory under `atmosphere/contents/`, with an identifier
      whose class `[ef]` holds `F`, is rewritten to `aoc/0010/`. */
  lemma SwitchDlcRoot(m: string, x: string, e: char, d: char)
    requires e == 'F' || e == 'f'
    requires d == '0' || d == '1' || d == '2'
    requires m == SwitchContents + AocTitleId(e, d) + "/romfs/"
    ensures ReplaceRoots(m + x) == "aoc/0010/" + ReplaceRoots(x)
  {
    SwitchDlcMatches(m, e, d);
    assert m[32] == e;
    NotFolded(m, 20, "01007EF00011E000/romfs/", 12);
    DlcTitleRoot(m, x, SwitchContents);
  }

  lemma SwitchDlcMatches(m: string, e: char, d: char)
    requires e == 'F' || e == 'f'
    requires d == '0' || d == '1' || d == '2'
    requires m == SwitchContents + AocTitleId(e, d) + "/romfs/"
    ensures |m| == 43 && FoldedAt(m, 0, SwitchContents) && AocTitleAt(m, 20)
  {
    var id := AocTitleId(e, d);
    assert FoldedAt(m, 0, SwitchContents) by {
      forall k | 0 <= k < 20 ensures SameIgnoringCase(m[k], SwitchContents[k]) {
        assert m[k] == SwitchContents[k];
      }
    }
    assert FoldedAt(m, 20, "01007EF00011") by {
      forall k | 0 <= k < 12 ensures SameIgnoringCase(m[20 + k], "01007EF00011"[k]) {
        assert m[20 + k] == id[k];
      }
    }
    assert m[32] == e && m[33] == '0' && m[34] == '0' && m[35] == d;
    assert SameIgnoringCase(m[32], "ef"[1]);
    assert ClassAt(m, 32, "ef");
    assert FoldedAt(m, 33, "00");
    assert d == "012"[0] || d == "012"[1] || d == "012"[2];
    assert ClassAt(m, 35, "012");
    assert FoldedAt(m, 36, "/romfs/") by {
      forall k | 0 <= k < 7 ensures SameIgnoringCase(m[36 + k], "/romfs/"[k]) {
        assert m[36 + k] == "/romfs/"[k];
      }
    }
  }

  // ---------------------------------------------------------------------------
  // What the rewritten text is made of
  // ---------------------------------------------------------------------------

  /** Every character of the result comes from the input or from one of the
      two replacements. */
  lemma {:induction false} ReplaceRootsKeepsAlphabet(t: string, c: char)
    requires c in ReplaceRoots(t)
    ensures c in t || c in "content/aoc/0010/"
    decreases |t|
  {
    match MatchLen(t)
    case Some(n) =>
      if c !in Substitute(t[..n]) {
        ReplaceRootsKeepsAlphabet(t[n..], c);
      }
    case None =>
      if c != t[0] {
        ReplaceRootsKeepsAlphabet(t[1..], c);
      }
  }

  /** Where the regex matches, the rewritten text begins with `a` (of
      `aoc/0010/`) or with `co` (of `content/`). */
  lemma ReplaceRootsSubstitutes(s: string)
    requires s != [] && MatchLen(s).Some?
    ensures |ReplaceRoots(s)| >= 2
    ensures ReplaceRoots(s)[0] == 'a' || (ReplaceRoots(s)[0] == 'c' && ReplaceRoots(s)[1] == 'o')
    ensures ReplaceRoots(s)[0] == 'a' ==> StartsWith(ReplaceRoots(s), "aoc/0010/")
  {
    var n := MatchLen(s).value;
    PrefixOfConcat(Substitute(s[..n]), ReplaceRoots(s[n..]));
  }

  lemma PrefixOfConcat(a: string, b: string)
    ensures StartsWith(a + b, a)
  {
    assert (a + b)[..|a|] == a;
  }

  /** A `/` at the front of rewritten text was copied from the input. */
  lemma CopiedSlash(s: string)
    ensures |ReplaceRoots(s)| > 0 && ReplaceRoots(s)[0] == '/' ==> |s| > 0 && s[0] == '/'
  {
    if s != [] {
      if MatchLen(s).Some? {
        ReplaceRootsSubstitutes(s);
      }
    }
  }

  /** So was a `c/` at the front. */
  lemma CopiedCSlash(s: string)
    ensures |ReplaceRoots(s)| > 1 && ReplaceRoots(s)[0] == 'c' && ReplaceRoots(s)[1] == '/'
            ==> |s| > 1 && s[0] == 'c' && s[1] == '/'
  {
    if s != [] {
      if MatchLen(s).None? {
          CopiedSlash(s[1..]);
      } else {
        ReplaceRootsSubstitutes(s);
      }
    }
  }

  /** And so was an `oc/` at the front. */
  lemma CopiedOcSlash(s: string)
    ensures |ReplaceRoots(s)| > 2 && ReplaceRoots(s)[0] == 'o' && ReplaceRoots(s)[1] == 'c' && ReplaceRoots(s)[2] == '/'
            ==> |s| > 2 && s[0] == 'o' && s[1] == 'c' && s[2] == '/'
  {
    if s != [] {
      if MatchLen(s).None? {
          CopiedCSlash(s[1..]);
      } else {
        ReplaceRootsSubstitutes(s);
      }
    }
  }

  /** Where an `aoc/` root is spelled out, the regex matches. */
  lemma DlcShortMatches(t: string)
    ensures |t| > 3 && t[0] == 'a' && t[1] == 'o' && t[2] == 'c' && t[3] == '/' ==> MatchLen(t).Some?
  {
    if |t| > 3 && t[0] == 'a' && t[1] == 'o' && t[2] == 'c' && t[3] == '/' {
      assert BranchMatches(t, 5);
      MatchLenSpec(t);
    }
  }

  /** `aoc/` can only reach the front of rewritten text as a replacement. */
  lemma CopiedDlcRoot(t: string)
    ensures t != [] && MatchLen(t).None? ==>
              !(|ReplaceRoots(t)| > 3 && ReplaceRoots(t)[0] == 'a' && ReplaceRoots(t)[1] == 'o'
                && ReplaceRoots(t)[2] == 'c' && ReplaceRoots(t)[3] == '/')
  {
    if t != [] && MatchLen(t).None? {
      CopiedOcSlash(t[1..]);
      DlcShortMatches(t);
    }
  }

  /** Rewritten text that begins with `aoc/` begins with `aoc/0010/`: a DLC
      root is always expanded to the full DLC directory. */
  lemma DlcOutputPrefix(t: string)
    requires StartsWith(ReplaceRoots(t), "aoc/")
    ensures StartsWith(ReplaceRoots(t), "aoc/0010/")
  {
    CopiedDlcRoot(t);
    var r := ReplaceRoots(t);
    assert r[0] == "aoc/"[0] && r[1] == "aoc/"[1] && r[2] == "aoc/"[2] && r[3] == "aoc/"[3];
    ReplaceRootsSubstitutes(t);
  }
  /** The first characters every branch needs: `co`, `at`, `ao?/`, `01`. */
  predicate RootOpensAt(t: string, j: nat) {
    j + 3 < |t|
    && (((t[j] == 'c' || t[j] == 'C') && (t[j + 1] == 'o' || t[j + 1] == 'O'))
        || ((t[j] == 'a' || t[j] == 'A') && (t[j + 1] == 't' || t[j + 1] == 'T'))
        || ((t[j] == 'a' || t[j] == 'A') && (t[j + 1] == 'o' || t[j + 1] == 'O') && t[j + 3] == '/')
        || (t[j] == '0' && t[j + 1] == '1'))
  }

  lemma RootOpens(t: string, j: nat)
    requires RootMayStartAt(t, j)
    ensures RootOpensAt(t, j)
  {
    if FoldedAt(t, j, "cont") {
      assert SameIgnoringCase(t[j + 0], "cont"[0]) && SameIgnoringCase(t[j + 1], "cont"[1]);
    } else if FoldedAt(t, j, "atmo") {
      assert SameIgnoringCase(t[j + 0], "atmo"[0]) && SameIgnoringCase(t[j + 1], "atmo"[1]);
    } else if FoldedAt(t, j, "aoc/") {
      assert SameIgnoringCase(t[j + 0], "aoc/"[0]) && SameIgnoringCase(t[j + 1], "aoc/"[1]);
      assert SameIgnoringCase(t[j + 3], "aoc/"[3]);
    } else {
      assert SameIgnoringCase(t[j + 0], "0100"[0]) && SameIgnoringCase(t[j + 1], "0100"[1]);
    }
  }

  /** A character some branch can begin with. */
  predicate MayBeginRoot(c: char) {
    c == 'c' || c == 'C' || c == 'a' || c == 'A' || c == '0'
  }

  /** No root opens anywhere in `t`. */
  predicate NoRootOpens(t: string) {
    forall j :: 0 <= j < |t| ==> !RootOpensAt(t, j)
  }

  /** Two characters with which a root may begin. */
  predicate PairMayBeginRoot(c: char, d: char) {
    ((c == 'c' || c == 'C') && (d == 'o' || d == 'O'))
    || ((c == 'a' || c == 'A') && (d == 't' || d == 'T' || d == 'o' || d == 'O'))
    || (c == '0' && d == '1')
  }

  /** No root opens in `a`, whatever text follows it: none opens inside it,
      none can begin with its last character or with two of its last three. */
  predicate NoRootOpensInFront(a: string) {
    NoRootOpens(a)
    && (a != [] ==> !MayBeginRoot(a[|a| - 1]))
    && forall j :: 0 <= j < |a| - 1 && |a| <= j + 3 ==> !PairMayBeginRoot(a[j], a[j + 1])
  }

  /** Text in which no root opens is left as it is. */
  lemma ReplaceRootsPlain(t: string)
    requires NoRootOpens(t)
    ensures ReplaceRoots(t) == t
  {
    forall j | 0 <= j < |t| ensures !RootMayStartAt(t, j) {
      if RootMayStartAt(t, j) {
        RootOpens(t, j);
      }
    }
    ReplaceRootsSkip(t, 0, |t|);
    assert t[0..] == t && t[0..|t|] == t && t[|t|..] == [];
  }

  lemma NoRootOpensInFrontFollowed(a: string, b: string, j: nat)
    requires NoRootOpensInFront(a) && j < |a|
    ensures !RootOpensAt(a + b, j)
  {
    if j + 3 < |a| {
      assert (a + b)[j] == a[j] && (a + b)[j + 1] == a[j + 1] && (a + b)[j + 3] == a[j + 3];
      assert !RootOpensAt(a, j);
    } else if j + 1 < |a| {
      assert (a + b)[j] == a[j] && (a + b)[j + 1] == a[j + 1];
      assert !PairMayBeginRoot(a[j], a[j + 1]);
    } else {
      assert (a + b)[j] == a[j];
    }
  }

  /** A front stretch in which no root opens is copied unchanged. */
  lemma ReplaceRootsPlainFront(a: string, b: string)
    requires NoRootOpensInFront(a)
    ensures ReplaceRoots(a + b) == a + ReplaceRoots(b)
  {
    var t := a + b;
    forall j | 0 <= j < |a| ensures !RootMayStartAt(t, j) {
      NoRootOpensInFrontFollowed(a, b, j);
      if RootMayStartAt(t, j) {
        RootOpens(t, j);
      }
    }
    ReplaceRootsSkip(t, 0, |a|);
    assert t[0..] == t && t[0..|a|] == a && t[|a|..] == b;
  }
}
