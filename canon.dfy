/** Canonical resource paths: `get_canon_name` and
    `get_canon_name_without_root`.

    A canonical resource path names a game file the way the game itself does:
    forward slashes, no root folder for base-game files, an `Aoc/0010/` root
    for DLC files, and no `s` marking a Yaz0-compressed extension. */
module Canon {
  import opened Options
  import opened Strings
  import opened RootPattern

  /** `.replace('\\', "/")`: the one-character map from backslash to slash. */
  function Slashed(path: string): (r: string)
    ensures |r| == |path|
    ensures forall i :: 0 <= i < |path| ==> r[i] == if path[i] == '\\' then '/' else path[i]
  {
    ReplaceCharPointwise(path, '\\', '/');
    Replace(path, "\\", "/")
  }

  /** `get_canon_name_without_root`: backslashes become slashes, then every
      `.s` becomes `.`, so `Foo.sbactorpack` becomes `Foo.bactorpack`. The
      result has no backslash, and each rewritten `.s` shortens it by one. */
  function GetCanonNameWithoutRoot(path: string): (r: string)
    ensures '\\' !in r
    ensures |r| == |path| - Count(path, ".s")
  {
    DotSFacts(Slashed(path), path);
    Replace(Slashed(path), ".s", ".")
  }

  lemma DotSFacts(slashed: string, path: string)
    requires slashed == Slashed(path)
    ensures '\\' !in Replace(slashed, ".s", ".")
    ensures |Replace(slashed, ".s", ".")| == |path| - Count(path, ".s")
  {
    assert '\\' !in slashed;
    if '\\' in Replace(slashed, ".s", ".") {
      ReplaceKeepsAlphabet(slashed, ".s", ".", '\\');
    }
    ReplaceLength(slashed, ".s", ".");
    CountUnderCharMap(path, '\\', '/', ".s");
  }

  /** The path after its root folder has been rewritten by the regex. */
  function Rooted(path: string): string {
    ReplaceRoots(GetCanonNameWithoutRoot(path))
  }

  /** The last step of `get_canon_name`: a DLC path keeps its root, spelled
      `Aoc`; a base-game path loses its `content/` root, unless it also
      names a DLC directory; anything else is not a game path. */
  function Classify(n: string): Option<string> {
    if StartsWith(n, "aoc/") then Some(Replace(Replace(n, "aoc/content", "Aoc"), "aoc", "Aoc"))
    else if StartsWith(n, "content") && !Contains(n, "/aoc") then Some(Replace(n, "content/", ""))
    else None
  }

  /** `get_canon_name` */
  function GetCanonName(path: string): Option<string> {
    Classify(Rooted(path))
  }

  // ---------------------------------------------------------------------------
  // get_canon_name_without_root
  // ---------------------------------------------------------------------------

  /** Nothing but the `.s` occurrences changes: the pieces between them are
      kept, putting `.s` back between them gives the slashed path, and no
      piece holds a `.s`, so every one was rewritten. */
  lemma WithoutRootKeepsPieces(path: string)
    ensures GetCanonNameWithoutRoot(path) == Join(Split(Slashed(path), ".s"), ".")
    ensures Join(Split(Slashed(path), ".s"), ".s") == Slashed(path)
    ensures forall k :: 0 <= k < |Split(Slashed(path), ".s")| ==> !Contains(Split(Slashed(path), ".s")[k], ".s")
  {
    ReplaceIsJoinOfSplit(Slashed(path), ".s", ".");
    JoinOfSplitIsInput(Slashed(path), ".s");
    SplitPiecesAreFree(Slashed(path), ".s");
  }

  /** Without backslashes the slash map changes nothing. */
  lemma SlashedNoBackslash(path: string)
    requires '\\' !in path
    ensures Slashed(path) == path
  {
  }

  /** Normalising again changes nothing exactly when the first pass left no
      `.s` behind. It can leave one: see `WithoutRootNotIdempotent`. */
  lemma WithoutRootIdempotentIff(path: string)
    ensures GetCanonNameWithoutRoot(GetCanonNameWithoutRoot(path)) == GetCanonNameWithoutRoot(path)
            <==> !Contains(GetCanonNameWithoutRoot(path), ".s")
  {
    var r := GetCanonNameWithoutRoot(path);
    SlashedNoBackslash(r);
    if Contains(r, ".s") {
      ContainsIsCounted(r, ".s");
    } else {
      ReplaceAbsent(r, ".s", ".");
    }
  }

  /** `Foo.ssarc` becomes `Foo.sarc`, which becomes `Foo.arc`. */
  lemma WithoutRootNotIdempotent(path: string)
    requires path == "Foo.ssarc"
    ensures GetCanonNameWithoutRoot(path) == "Foo.sarc"
    ensures GetCanonNameWithoutRoot(GetCanonNameWithoutRoot(path)) == "Foo.arc"
  {
    OneDotS("Foo", "sarc");
    assert path == "Foo" + ".s" + "sarc";
    OneDotS("Foo", "arc");
    assert "Foo.sarc" == "Foo" + ".s" + "arc";
  }

  /** A path with one `.s`, and no backslash, loses the `s`. */
  lemma OneDotS(a: string, b: string)
    requires forall i :: 0 <= i < |a| ==> a[i] != '.' && a[i] != '\\'
    requires forall i :: 0 <= i < |b| ==> b[i] != '.' && b[i] != '\\'
    ensures GetCanonNameWithoutRoot(a + ".s" + b) == a + "." + b
  {
    NoBackslashAround(a, ".s", b);
    SlashedNoBackslash(a + ".s" + b);
    ReplaceOneDotS(a, b);
  }

  lemma NoBackslashAround(a: string, m: string, b: string)
    requires forall i :: 0 <= i < |a| ==> a[i] != '\\'
    requires forall i :: 0 <= i < |b| ==> b[i] != '\\'
    requires '\\' !in m
    ensures '\\' !in a + m + b
  {
  }

  lemma ReplaceOneDotS(a: string, b: string)
    requires forall i :: 0 <= i < |a| ==> a[i] != '.'
    requires forall i :: 0 <= i < |b| ==> b[i] != '.'
    ensures Replace(a + ".s" + b, ".s", ".") == a + "." + b
  {
    ReplaceSkipFree(a, ".s" + b, ".s", ".");
    ReplaceHit(".s", b, ".");
    AbsentFirst(b, ".s");
    ReplaceAbsent(b, ".s", ".");
    assert a + ".s" + b == a + (".s" + b);
  }
  // ---------------------------------------------------------------------------
  // get_canon_name
  // ---------------------------------------------------------------------------

  /** A canonical name uses forward slashes only. */
  lemma CanonNameHasNoBackslash(path: string)
    ensures GetCanonName(path).Some? ==> '\\' !in GetCanonName(path).value
  {
    var s := GetCanonNameWithoutRoot(path);
    var n := ReplaceRoots(s);
    if '\\' in n {
      ReplaceRootsKeepsAlphabet(s, '\\');
    }
    if StartsWith(n, "aoc/") {
      var m := Replace(n, "aoc/content", "Aoc");
      if '\\' in m {
        ReplaceKeepsAlphabet(n, "aoc/content", "Aoc", '\\');
      }
      if '\\' in Replace(m, "aoc", "Aoc") {
        ReplaceKeepsAlphabet(m, "aoc", "Aoc", '\\');
      }
    } else if '\\' in Replace(n, "content/", "") {
      ReplaceKeepsAlphabet(n, "content/", "", '\\');
    }
  }

  /** A DLC path is accepted, under `Aoc/0010/`, and no lower-case `aoc` is
      left anywhere in it. */
  lemma DlcNameIsCapitalised(path: string)
    requires StartsWith(Rooted(path), "aoc/")
    ensures GetCanonName(path).Some?
    ensures StartsWith(GetCanonName(path).value, "Aoc/0010/")
    ensures !Contains(GetCanonName(path).value, "aoc")
  {
    var n := Rooted(path);
    DlcOutputPrefix(GetCanonNameWithoutRoot(path));
    assert n == "aoc/0010/" + n[9..];
    DlcRootCapitalised(n[9..]);
    NoLowerDlc(Replace(n, "aoc/content", "Aoc"));
  }

  /** The rewrite of `aoc/0010/` itself, whatever follows it. */
  lemma DlcRootCapitalised(y: string)
    ensures StartsWith(Replace(Replace("aoc/0010/" + y, "aoc/content", "Aoc"), "aoc", "Aoc"), "Aoc/0010/")
  {
    DlcRootNotContent(y);
    var z := Replace(y, "aoc/content", "Aoc");
    DlcRootToUpper(z);
    PrefixOfConcat("Aoc/0010/", Replace(z, "aoc", "Aoc"));
  }

  /** `aoc/0010/` is not `aoc/content`, so the first rewrite passes it by. */
  lemma DlcRootNotContent(y: string)
    ensures Replace("aoc/0010/" + y, "aoc/content", "Aoc") == "aoc/0010/" + Replace(y, "aoc/content", "Aoc")
  {
    var t := "aoc/0010/" + y;
    if 11 <= |t| {
      assert t[..11][4] == '0';
    }
    assert !StartsWith(t, "aoc/content");
    assert t[1..] == "oc/0010/" + y;
    ReplaceSkipFree("oc/0010/", y, "aoc/content", "Aoc");
  }

  /** The second rewrite capitalises the root's `aoc` and passes `/0010/` by. */
  lemma DlcRootToUpper(z: string)
    ensures Replace("aoc/0010/" + z, "aoc", "Aoc") == "Aoc/0010/" + Replace(z, "aoc", "Aoc")
  {
    assert "aoc/0010/" + z == "aoc" + ("/0010/" + z);
    ReplaceHit("aoc", "/0010/" + z, "Aoc");
    ReplaceSkipFree("/0010/", z, "aoc", "Aoc");
  }

  /** Where `replace("aoc", "Aoc")` has run, no `aoc` is left. */
  lemma {:induction false} NoLowerDlc(s: string)
    ensures !Contains(Replace(s, "aoc", "Aoc"), "aoc")
    decreases |s|
  {
    if s != [] {
      var r := Replace(s, "aoc", "Aoc");
      if StartsWith(s, "aoc") {
        var tail := Replace(s[3..], "aoc", "Aoc");
        NoLowerDlc(s[3..]);
        assert r == "Aoc" + tail;
        forall i | 0 <= i <= |r| - 3 ensures !OccursAt(r, i, "aoc") {
          if i >= 3 {
            assert r[i..i + 3] == tail[i - 3..i];
            assert !OccursAt(tail, i - 3, "aoc");
          } else {
            assert r[i..i + 3][0] == "Aoc"[i];
          }
        }
      } else {
        var tail := Replace(s[1..], "aoc", "Aoc");
        NoLowerDlc(s[1..]);
        assert r == [s[0]] + tail;
        forall i | 0 <= i <= |r| - 3 ensures !OccursAt(r, i, "aoc") {
          if i >= 1 {
            OccursAtShift(r, tail, i - 1, "aoc");
          } else {
            LowerDlcFront(s);
          }
        }
      }
    }
  }

  /** After `replace("aoc", "Aoc")` the text begins with `A` where the input
      began with `aoc`, and with the input's first character otherwise. */
  lemma LowerDlcHead(u: string)
    requires u != []
    ensures Replace(u, "aoc", "Aoc") != []
    ensures Replace(u, "aoc", "Aoc")[0] == if StartsWith(u, "aoc") then 'A' else u[0]
    ensures !StartsWith(u, "aoc") ==> Replace(u, "aoc", "Aoc")[1..] == Replace(u[1..], "aoc", "Aoc")
  {
  }

  /** An `aoc` cannot be assembled at the front from what follows. */
  lemma LowerDlcFront(s: string)
    requires s != [] && !StartsWith(s, "aoc")
    ensures !OccursAt(Replace(s, "aoc", "Aoc"), 0, "aoc")
  {
    LowerDlcHead(s);
    if |s| > 1 {
      LowerDlcHead(s[1..]);
    }
    if |s| > 2 {
      LowerDlcHead(s[2..]);
    }
  }

  /** A name that stays under `content` but names a DLC directory is refused. */
  lemma ContentWithDlcIsRejected(n: string)
    requires StartsWith(n, "content") && Contains(n, "/aoc")
    ensures Classify(n) == None
  {
  }

  /** A name under neither root is refused. */
  lemma UnrootedIsRejected(n: string)
    requires !StartsWith(n, "aoc/") && !StartsWith(n, "content")
    ensures Classify(n) == None
  {
  }

  /** A base-game name loses its `content/` root. */
  lemma BaseNameDropsRoot(y: string)
    requires !Contains("content/" + y, "/aoc")
    ensures Classify("content/" + y) == Some(Replace(y, "content/", ""))
  {
    var n := "content/" + y;
    ReplaceHit("content/", y, "");
    assert n[0] == 'c';
    assert !StartsWith(n, "aoc/");
    PrefixOfConcat("content", "/" + y);
    assert n == "content" + ("/" + y);
    assert StartsWith(n, "content");
    assert Replace(n, "content/", "") == Replace(y, "content/", "");
  }
  /** `s` has no `c` immediately followed by `d`. */
  predicate NoAdjacent(s: string, c: char, d: char) {
    forall i :: 0 <= i < |s| - 1 ==> s[i] != c || s[i + 1] != d
  }

  /** Text in which the classification can find none of `/aoc`, `content/`,
      `aoc` and `aoc/content`, not even one begun before it: it holds no
      `/a`, `co` or `ao`, and begins with neither `a` nor `o`. */
  predicate PassesClassify(s: string) {
    NoAdjacent(s, '/', 'a') && NoAdjacent(s, 'c', 'o') && NoAdjacent(s, 'a', 'o')
    && (s != [] ==> s[0] != 'a' && s[0] != 'o')
  }

  lemma PassesClassifyConcat(a: string, b: string)
    requires PassesClassify(a) && PassesClassify(b)
    ensures PassesClassify(a + b)
  {
    var t := a + b;
    forall i | 0 <= i < |t| - 1
      ensures (t[i] != '/' || t[i + 1] != 'a') && (t[i] != 'c' || t[i + 1] != 'o') && (t[i] != 'a' || t[i + 1] != 'o')
    {
      if i + 1 < |a| {
        assert t[i] == a[i] && t[i + 1] == a[i + 1];
      } else if i >= |a| {
        assert t[i] == b[i - |a|] && t[i + 1] == b[i + 1 - |a|];
      } else {
        assert t[i + 1] == b[0];
      }
    }
    if a == [] {
      assert t == b;
    }
  }

  /** A base-game name is accepted with its root dropped when nothing after the
      root holds `/a`, `co` or `ao`, or begins with `a`. */
  lemma BaseClassified(y: string)
    requires NoAdjacent(y, '/', 'a') && NoAdjacent(y, 'c', 'o') && NoAdjacent(y, 'a', 'o')
    requires y != [] ==> y[0] != 'a'
    ensures Classify("content/" + y) == Some(y)
  {
    var n := "content/" + y;
    assert NoAdjacent(n, '/', 'a') by {
      forall i | 0 <= i < |n| - 1 ensures n[i] != '/' || n[i + 1] != 'a' {
        if i >= 8 {
          assert n[i] == y[i - 8] && n[i + 1] == y[i - 7];
        } else if i == 7 {
          assert n[i + 1] == y[0];
        } else {
          assert n[i] == "content/"[i];
        }
      }
    }
    AbsentPair(n, "/aoc");
    BaseNameDropsRoot(y);
    AbsentPair(y, "content/");
    ReplaceAbsent(y, "content/", "");
  }

  /** A DLC name without `ao` after its root is accepted with the root
      capitalised. */
  lemma DlcClassified(y: string)
    requires NoAdjacent(y, 'a', 'o')
    ensures Classify("aoc/0010/" + y) == Some("Aoc/0010/" + y)
  {
    var n := "aoc/0010/" + y;
    assert StartsWith(n, "aoc/") by {
      assert n[..4] == "aoc/";
    }
    DlcRootNotContent(y);
    AbsentPair(y, "aoc/content");
    ReplaceAbsent(y, "aoc/content", "Aoc");
    DlcRootToUpper(y);
    AbsentPair(y, "aoc");
    ReplaceAbsent(y, "aoc", "Aoc");
  }

  // ---------------------------------------------------------------------------
  // A path, piece by piece
  // ---------------------------------------------------------------------------

  /** Text the normalisation copies: no backslash, and each `.` followed, within
      the text, by something other than `s`. */
  predicate Settled(a: string) {
    (forall i :: 0 <= i < |a| ==> a[i] != '\\')
    && (forall i :: 0 <= i < |a| - 1 ==> a[i] != '.' || a[i + 1] != 's')
    && (a != [] ==> a[|a| - 1] != '.')
  }

  /** A stretch the first `get_canon_name` steps copy: the normalisation
      leaves it alone and no root opens in it. */
  predicate PassesRooting(a: string) {
    Settled(a) && NoRootOpensInFront(a)
  }

  /** The slash map works piece by piece. */
  lemma SlashedConcat(a: string, b: string)
    ensures Slashed(a + b) == Slashed(a) + Slashed(b)
  {
    var t := a + b;
    forall i | 0 <= i < |t| ensures Slashed(t)[i] == (Slashed(a) + Slashed(b))[i] {
      if i < |a| {
        assert t[i] == a[i];
      } else {
        assert t[i] == b[i - |a|];
      }
    }
  }

  lemma WithoutRootFront(a: string, b: string)
    requires Settled(a)
    ensures GetCanonNameWithoutRoot(a + b) == a + GetCanonNameWithoutRoot(b)
  {
    SlashedConcat(a, b);
    SlashedNoBackslash(a);
    var s := Slashed(b);
    forall i | 0 <= i < |a| ensures !OccursAt(a + s, i, ".s") {
      if i + 2 <= |a + s| {
        assert (a + s)[i..i + 2][0] == a[i];
        if a[i] == '.' {
          assert i + 1 < |a|;
          assert (a + s)[i..i + 2][1] == a[i + 1];
        }
      }
    }
    ReplaceSkip(a, s, ".s", ".");
  }

  lemma WithoutRootBackslash(b: string)
    ensures GetCanonNameWithoutRoot("\\" + b) == "/" + GetCanonNameWithoutRoot(b)
  {
    SlashedConcat("\\", b);
    assert Slashed("\\") == "/";
    ReplaceSkipFree("/", Slashed(b), ".s", ".");
  }

  lemma WithoutRootDotS(b: string)
    ensures GetCanonNameWithoutRoot(".s" + b) == "." + GetCanonNameWithoutRoot(b)
  {
    SlashedConcat(".s", b);
    SlashedNoBackslash(".s");
    ReplaceHit(".s", Slashed(b), ".");
  }

  /** A stretch that passes rooting stays as it is, and keeps a remainder the classification passes by passing. */
  lemma RootedFront(a: string, b: string)
    requires PassesRooting(a)
    ensures Rooted(a + b) == a + Rooted(b)
    ensures PassesClassify(a) && PassesClassify(Rooted(b)) ==> PassesClassify(Rooted(a + b))
  {
    WithoutRootFront(a, b);
    ReplaceRootsPlainFront(a, GetCanonNameWithoutRoot(b));
    if PassesClassify(a) && PassesClassify(Rooted(b)) {
      PassesClassifyConcat(a, Rooted(b));
    }
  }

  /** A backslash becomes a slash. */
  lemma RootedBackslash(b: string)
    ensures Rooted("\\" + b) == "/" + Rooted(b)
    ensures PassesClassify(Rooted(b)) ==> PassesClassify(Rooted("\\" + b))
  {
    WithoutRootBackslash(b);
    ReplaceRootsPlainFront("/", GetCanonNameWithoutRoot(b));
    if PassesClassify(Rooted(b)) {
      PassesClassifyConcat("/", Rooted(b));
    }
  }

  /** A stretch that passes rooting, at the end, stays as it is. */
  lemma RootedUnchanged(a: string)
    requires PassesRooting(a)
    ensures Rooted(a) == a
  {
    SettledIsNormal(a);
    WithoutRootSettled(a);
    ReplaceRootsPlain(a);
  }

  /** A stretch ending in `.s` loses the `s`. */
  lemma RootedFrontDotS(a: string, b: string)
    requires Settled(a) && NoRootOpensInFront(a + ".")
    ensures Rooted(a + (".s" + b)) == (a + ".") + Rooted(b)
    ensures PassesClassify(a + ".") && PassesClassify(Rooted(b)) ==> PassesClassify(Rooted(a + (".s" + b)))
  {
    WithoutRootFrontDotS(a, b);
    ReplaceRootsPlainFront(a + ".", GetCanonNameWithoutRoot(b));
    if PassesClassify(a + ".") && PassesClassify(Rooted(b)) {
      PassesClassifyConcat(a + ".", Rooted(b));
    }
  }

  lemma WithoutRootFrontDotS(a: string, b: string)
    requires Settled(a)
    ensures GetCanonNameWithoutRoot(a + (".s" + b)) == (a + ".") + GetCanonNameWithoutRoot(b)
  {
    WithoutRootFront(a, ".s" + b);
    WithoutRootDotS(b);
  }

  lemma SettledConcat(a: string, b: string)
    requires Settled(a) && Settled(b)
    ensures Settled(a + b)
  {
    var t := a + b;
    forall i | 0 <= i < |t| - 1 ensures t[i] != '.' || t[i + 1] != 's' {
      if i + 1 < |a| {
        assert t[i] == a[i] && t[i + 1] == a[i + 1];
      } else if i >= |a| {
        assert t[i] == b[i - |a|] && t[i + 1] == b[i + 1 - |a|];
      } else {
        assert t[i] == a[i];
      }
    }
    if b == [] {
      assert t == a;
    }
  }

  // ---------------------------------------------------------------------------
  // Roots, as `get_canon_name` sees them after normalisation
  // ---------------------------------------------------------------------------

  /** A first folder spelled `content`, in any case, is a root; only the
      lower-case spelling keeps the path in the base game. */
  lemma RootedContentRoot(a: string, sep: string, rest: string)
    requires |a| == 7 && FoldedAt(a + "/", 0, "Content/") && (sep == "\\" || sep == "/")
    ensures Rooted(a + (sep + rest)) == (if a == "content" then "content/" else "aoc/0010/") + Rooted(rest)
  {
    forall i | 0 <= i < 7 ensures a[i] != '\\' && a[i] != '.' {
      assert SameIgnoringCase((a + "/")[i], "Content/"[i]);
      assert (a + "/")[i] == a[i];
    }
    WithoutRootFront(a, sep + rest);
    if sep == "\\" {
      WithoutRootBackslash(rest);
    } else {
      WithoutRootFront("/", rest);
    }
    var g := GetCanonNameWithoutRoot(rest);
    assert a + ("/" + g) == (a + "/") + g;
    ContentRoot(a + "/", g);
    assert (a + "/")[..7] == a;
  }

  /** An `Aoc/0010/` root, in any case. */
  lemma RootedDlcRoot(m: string, rest: string)
    requires |m| == 9 && FoldedAt(m, 0, "Aoc/0010/")
    ensures Rooted(m + rest) == "aoc/0010/" + Rooted(rest)
  {
    forall i | 0 <= i < 9 ensures m[i] != '\\' && m[i] != '.' {
      assert SameIgnoringCase(m[i], "Aoc/0010/"[i]);
    }
    WithoutRootFront(m, rest);
    DlcRootLong(m, GetCanonNameWithoutRoot(rest));
  }

  /** An `Aoc/` root, in any case, that `0010/` does not follow. */
  lemma RootedDlcShortRoot(m: string, rest: string)
    requires |m| == 4 && FoldedAt(m, 0, "Aoc/") && !StartsWith(GetCanonNameWithoutRoot(rest), "0010/")
    ensures Rooted(m + rest) == "aoc/0010/" + Rooted(rest)
  {
    forall i | 0 <= i < 4 ensures m[i] != '\\' && m[i] != '.' {
      assert SameIgnoringCase(m[i], "Aoc/"[i]);
    }
    WithoutRootFront(m, rest);
    DlcRootShort(m, GetCanonNameWithoutRoot(rest));
  }

  /** Text with no backslash and no `.s` is its own normal form. */
  lemma WithoutRootSettled(s: string)
    requires '\\' !in s && !Contains(s, ".s")
    ensures GetCanonNameWithoutRoot(s) == s
  {
    SlashedNoBackslash(s);
    ReplaceAbsent(s, ".s", ".");
  }

  /** Settled text holds neither a backslash nor a `.s`. */
  lemma SettledIsNormal(s: string)
    requires Settled(s)
    ensures '\\' !in s && !Contains(s, ".s")
  {
    AbsentPair(s, ".s");
  }

  /** Text with neither `.` nor backslash is settled. */
  lemma NoDotSettled(m: string)
    requires forall k :: 0 <= k < |m| ==> m[k] != '.' && m[k] != '\\'
    ensures Settled(m)
  {
  }

  /** Text read as a run without `.` or backslash holds neither. */
  lemma FoldedNoDot(m: string, i: nat, w: string)
    requires FoldedAt(m, i, w) && '.' !in w && '\\' !in w
    ensures forall k :: i <= k < i + |w| ==> m[k] != '.' && m[k] != '\\'
  {
    forall k | i <= k < i + |w| ensures m[k] != '.' && m[k] != '\\' {
      assert SameIgnoringCase(m[k], w[k - i]) && w[k - i] in w;
    }
  }

  /** Neither does a character of a bracketed class without them. */
  lemma ClassNoDot(m: string, i: nat, members: string)
    requires ClassAt(m, i, members) && '.' !in members && '\\' !in members
    ensures m[i] != '.' && m[i] != '\\'
  {
    var j :| 0 <= j < |members| && SameIgnoringCase(m[i], members[j]);
    assert members[j] in members;
  }

  /** A base title directory, bare or under either Switch prefix and in any
      case, at the front of a path. */
  lemma RootedTitleRoot(m: string, rest: string, p: string)
    requires TitlePrefix(p) && |m| == |p| + 23 && FoldedAt(m, 0, p) && BaseTitleAt(m, |p|)
    ensures Rooted(m + rest) == (if m[|p|..|p| + 16] == BaseTitleId then "content/" else "aoc/0010/") + Rooted(rest)
  {
    BaseTitleSettled(m, p);
    WithoutRootFront(m, rest);
    TitleRoot(m, GetCanonNameWithoutRoot(rest), p);
  }

  lemma BaseTitleSettled(m: string, p: string)
    requires TitlePrefix(p) && |m| == |p| + 23 && FoldedAt(m, 0, p) && BaseTitleAt(m, |p|)
    ensures Settled(m)
  {
    PrefixNoDot(p);
    FoldedNoDot(m, 0, p);
    FoldedNoDot(m, |p|, "01007EF00011E000/romfs/");
    NoDotSettled(m);
  }

  lemma PrefixNoDot(p: string)
    requires TitlePrefix(p)
    ensures '.' !in p && '\\' !in p
  {
  }

  /** A DLC title directory that is not the base game's, bare or under either
      Switch prefix and in any case, at the front of a path. */
  lemma RootedDlcTitleRoot(m: string, rest: string, p: string)
    requires TitlePrefix(p) && |m| == |p| + 23 && FoldedAt(m, 0, p)
    requires AocTitleAt(m, |p|) && !BaseTitleAt(m, |p|)
    ensures Rooted(m + rest) == "aoc/0010/" + Rooted(rest)
  {
    DlcTitleSettled(m, p);
    WithoutRootFront(m, rest);
    DlcTitleRoot(m, GetCanonNameWithoutRoot(rest), p);
  }

  lemma DlcTitleSettled(m: string, p: string)
    requires TitlePrefix(p) && |m| == |p| + 23 && FoldedAt(m, 0, p) && AocTitleAt(m, |p|)
    ensures Settled(m)
  {
    PrefixNoDot(p);
    FoldedNoDot(m, 0, p);
    FoldedNoDot(m, |p|, "01007EF00011");
    ClassNoDot(m, |p| + 12, "ef");
    FoldedNoDot(m, |p| + 13, "00");
    ClassNoDot(m, |p| + 15, "012");
    FoldedNoDot(m, |p| + 16, "/romfs/");
    NoDotSettled(m);
  }

  /** The base game's directory under Switch's `atmosphere/contents/`. */
  lemma RootedSwitchBase(m: string, rest: string)
    requires m == SwitchContents + BaseTitleId + "/romfs/"
    ensures Rooted(m + rest) == "content/" + Rooted(rest)
  {
    SettledConcat(SwitchContents, BaseTitleId);
    SettledConcat(SwitchContents + BaseTitleId, "/romfs/");
    WithoutRootFront(m, rest);
    SwitchBaseRoot(m, GetCanonNameWithoutRoot(rest));
  }

  /** A DLC directory under Switch's `atmosphere/contents/`. */
  lemma RootedSwitchDlc(m: string, rest: string, e: char, d: char)
    requires e == 'F' || e == 'f'
    requires d == '0' || d == '1' || d == '2'
    requires m == SwitchContents + AocTitleId(e, d) + "/romfs/"
    ensures Rooted(m + rest) == "aoc/0010/" + Rooted(rest)
  {
    assert Settled(AocTitleId(e, d));
    SettledConcat(SwitchContents, AocTitleId(e, d));
    SettledConcat(SwitchContents + AocTitleId(e, d), "/romfs/");
    WithoutRootFront(m, rest);
    SwitchDlcRoot(m, GetCanonNameWithoutRoot(rest), e, d);
  }
}
