// The examples that document `get_canon_name` and
// `get_canon_name_without_root`, proved about the model.
//
// A proof about a long string literal is costly for the verifier when the
// literal is one piece, so each example path is written as a concatenation of
// short literals (folders, file name, extension); the string is the same.
// Module `Pieces` checks a short literal character by character, `PieceChecks`
// applies that check to each literal, and `CanonExamples` assembles the paths.

/** A character-by-character check of a short literal piece. */
module Pieces {
  import opened RootPattern

  /** Two neighbouring characters that could matter to a later step: a
      backslash, `.s`, or one of the pairs `PassesClassify` excludes. */
  predicate SignificantPair(c: char, d: char) {
    c == '\\' || (c == '.' && d == 's') || (c == '/' && d == 'a') || (c == 'c' && d == 'o') || (c == 'a' && d == 'o')
  }

  /** From position `i` on, `t` has no backslash and no significant pair, and each
      pair that may open a root is followed by at least two more characters
      but does not open one. Written as a recursion so that the verifier can
      evaluate it on a short literal. */
  predicate CheckedPieceFrom(t: string, i: nat)
    decreases |t| - i
  {
    i >= |t|
    || (t[i] != '\\'
        && (i + 1 < |t| ==> !SignificantPair(t[i], t[i + 1]) && (PairMayBeginRoot(t[i], t[i + 1]) ==> i + 3 < |t| && !RootOpensAt(t, i)))
        && CheckedPieceFrom(t, i + 1))
  }

  lemma {:induction false} CheckedPieceAt(t: string, i: nat, k: nat)
    requires CheckedPieceFrom(t, i) && i <= k < |t|
    ensures t[k] != '\\' && !RootOpensAt(t, k)
    ensures k + 1 < |t| ==> !SignificantPair(t[k], t[k + 1]) && (|t| <= k + 3 ==> !PairMayBeginRoot(t[k], t[k + 1]))
    decreases k - i
  {
    if i < k {
      CheckedPieceAt(t, i + 1, k);
    }
  }

  /** A checked piece that neither begins with `a` or `o` nor ends with `.`. */
  predicate CheckedPiece(t: string) {
    CheckedPieceFrom(t, 0) && (t != [] ==> t[0] != 'a' && t[0] != 'o' && t[|t| - 1] != '.')
  }
}

/** Each piece of the examples passes the check, one literal at a time. */
module PieceChecks {
  import opened Pieces

  lemma CheckedActor() ensures CheckedPiece("Actor") {}
  lemma CheckedPack() ensures CheckedPiece("Pack") {}
  lemma CheckedEnemyLizal() ensures CheckedPiece("Enemy_Lizal_") {}
  lemma CheckedEnemyLizalfos() ensures CheckedPiece("Enemy_Lizalfos_") {}
  lemma CheckedSenior() ensures CheckedPiece("Senior") {}
  lemma CheckedBactorpack() ensures CheckedPiece("bactorpack") {}
  lemma CheckedMapMainField() ensures CheckedPiece("Map/MainField/") {}
  lemma CheckedA1Folder() ensures CheckedPiece("A-1/") {}
  lemma CheckedA1Dynamic() ensures CheckedPiece("A-1_Dynamic") {}
  lemma CheckedMubin() ensures CheckedPiece("mubin") {}
  lemma CheckedActorInfo() ensures CheckedPiece("Actor/ActorInfo") {}
  lemma CheckedProduct() ensures CheckedPiece(".product") {}
  lemma CheckedByml() ensures CheckedPiece("byml") {}
  lemma CheckedPackFolder() ensures CheckedPiece("Pack/") {}
  lemma CheckedAocMainField() ensures CheckedPiece("AocMainField") {}
  lemma CheckedPackExtension() ensures CheckedPiece(".pack") {}
  lemma CheckedHellow() ensures CheckedPiece("Hellow/") {}
  lemma CheckedSweetie() ensures CheckedPiece("Sweetie") {}
  lemma CheckedTardis() ensures CheckedPiece(".tardis") {}
  lemma CheckedTitleBg() ensures CheckedPiece("TitleBG") {}
  lemma CheckedEventInfo() ensures CheckedPiece("Event/EventInfo") {}
  lemma CheckedActorPack() ensures CheckedPiece("Actor/Pack/") {}
  lemma CheckedGameRomPlayer() ensures CheckedPiece("GameROMPlayer") {}
  lemma CheckedX() ensures CheckedPiece("x") {}
}

module CanonExamples {
  import opened Options
  import opened Strings
  import opened RootPattern
  import opened Canon
  import opened Pieces
  import opened PieceChecks

  // ---------------------------------------------------------------------------
  // What a checked piece is worth
  // ---------------------------------------------------------------------------

  lemma CheckedPieceFacts(t: string)
    requires CheckedPiece(t)
    ensures Settled(t) && PassesClassify(t) && NoRootOpens(t)
    ensures forall j :: 0 <= j < |t| - 1 && |t| <= j + 3 ==> !PairMayBeginRoot(t[j], t[j + 1])
  {
    forall k | 0 <= k < |t|
      ensures t[k] != '\\' && !RootOpensAt(t, k)
      ensures k + 1 < |t| ==> !SignificantPair(t[k], t[k + 1]) && (|t| <= k + 3 ==> !PairMayBeginRoot(t[k], t[k + 1]))
    {
      CheckedPieceAt(t, 0, k);
    }
  }

  /** A checked piece whose last character cannot begin a root is `PassesRooting`. */
  lemma CheckedPiecePasses(t: string)
    requires CheckedPiece(t) && (t != [] ==> !MayBeginRoot(t[|t| - 1]))
    ensures PassesRooting(t) && PassesClassify(t)
  {
    CheckedPieceFacts(t);
  }

  /** A checked piece followed by the `.` of a `.s` extension. */
  lemma CheckedPieceBeforeDot(t: string)
    requires CheckedPiece(t)
    ensures Settled(t) && NoRootOpensInFront(t + ".") && PassesClassify(t + ".")
  {
    CheckedPieceFacts(t);
    var u := t + ".";
    forall j | 0 <= j < |u| - 1 && |u| <= j + 3 ensures !PairMayBeginRoot(u[j], u[j + 1]) {
      if j + 1 < |t| {
        assert u[j] == t[j] && u[j + 1] == t[j + 1];
      } else {
        assert u[j + 1] == '.';
      }
    }
    forall j | 0 <= j < |u| ensures !RootOpensAt(u, j) {
      if j + 3 < |t| {
        assert !RootOpensAt(t, j);
        assert u[j] == t[j] && u[j + 1] == t[j + 1] && u[j + 3] == t[j + 3];
      } else if j + 1 < |t| {
        assert !PairMayBeginRoot(t[j], t[j + 1]);
        assert u[j] == t[j] && u[j + 1] == t[j + 1];
      }
    }
    PassesClassifyConcat(t, ".");
  }

  // ---------------------------------------------------------------------------
  // Regrouping a concatenation
  // ---------------------------------------------------------------------------

  lemma Regroup3(a: string, b: string, c: string)
    ensures a + b + c == a + (b + c)
  {}

  lemma Regroup4(a: string, b: string, c: string, d: string)
    ensures a + b + c + d == a + (b + (c + d))
  {}

  lemma Regroup5(a: string, b: string, c: string, d: string, e: string)
    ensures a + b + c + d + e == a + (b + (c + (d + e)))
  {}

  lemma Regroup6(a: string, b: string, c: string, d: string, e: string, g: string)
    ensures a + b + c + d + e + g == a + (b + (c + (d + (e + g))))
  {}

  /** The `.` that a `.s` extension keeps stays with the name before it. */
  lemma RegroupDot(a: string, f: string, e: string)
    ensures a + f + "." + e == a + ((f + ".") + e)
  {}

  // ---------------------------------------------------------------------------
  // The examples
  // ---------------------------------------------------------------------------

  /** `content\Actor\Pack\Enemy_Lizal_Senior.sbactorpack` names the base-game
      file `Actor/Pack/Enemy_Lizal_Senior.bactorpack`. */
  lemma CanonNameOfBaseGamePath(path: string)
    requires path == "content" + "\\" + "Actor" + "\\" + "Pack" + "\\" + "Enemy_Lizal_" + "Senior" + ".s" + "bactorpack"
    ensures GetCanonName(path) == Some("Actor" + "/" + "Pack" + "/" + "Enemy_Lizal_" + "Senior" + "." + "bactorpack")
  {
    var a, b, c, d, f, e := BaseGamePieces(path);
    BaseGameActorPack(a, b, c, d, f, e);
  }

  /** The doc-comment example: `content\Actor\Pack\Enemy_Lizalfos_Senior.sbactorpack`
      names `Actor/Pack/Enemy_Lizalfos_Senior.bactorpack`. */
  lemma CanonNameOfDocExamplePath(path: string)
    requires path == "content" + "\\" + "Actor" + "\\" + "Pack" + "\\" + "Enemy_Lizalfos_" + "Senior" + ".s" + "bactorpack"
    ensures GetCanonName(path) == Some("Actor" + "/" + "Pack" + "/" + "Enemy_Lizalfos_" + "Senior" + "." + "bactorpack")
  {
    var a, b, c, d, f, e := DocExamplePieces(path);
    BaseGameActorPack(a, b, c, d, f, e);
  }

  /** A base-game path `content\<b>\<c>\<d><f>.s<e>` whose pieces every step
      passes by names `<b>/<c>/<d><f>.<e>`. */
  lemma BaseGameActorPack(a: string, b: string, c: string, d: string, f: string, e: string)
    requires a == "content" && FoldedAt(a + "/", 0, "Content/")
    requires PassesRooting(b) && PassesRooting(c) && PassesRooting(d) && Settled(f) && NoRootOpensInFront(f + ".") && PassesRooting(e)
    requires PassesClassify(b) && PassesClassify(c) && PassesClassify(d) && PassesClassify(f + ".") && PassesClassify(e) && b != []
    ensures GetCanonName(a + ("\\" + (b + ("\\" + (c + ("\\" + (d + (f + (".s" + e)))))))))
         == Some(b + ("/" + (c + ("/" + (d + ((f + ".") + e))))))
  {
    RootedUnchanged(e);
    RootedFrontDotS(f, e);
    RootedFront(d, f + (".s" + e));
    RootedBackslash(d + (f + (".s" + e)));
    RootedFront(c, "\\" + (d + (f + (".s" + e))));
    RootedBackslash(c + ("\\" + (d + (f + (".s" + e)))));
    RootedFront(b, "\\" + (c + ("\\" + (d + (f + (".s" + e))))));
    RootedContentRoot(a, "\\", b + ("\\" + (c + ("\\" + (d + (f + (".s" + e)))))));
    BaseClassified(b + ("/" + (c + ("/" + (d + ((f + ".") + e))))));
  }

  lemma DocExamplePieces(path: string) returns (a: string, b: string, c: string, d: string, f: string, e: string)
    requires path == "content" + "\\" + "Actor" + "\\" + "Pack" + "\\" + "Enemy_Lizalfos_" + "Senior" + ".s" + "bactorpack"
    ensures path == a + ("\\" + (b + ("\\" + (c + ("\\" + (d + (f + (".s" + e))))))))
    ensures a == "content" && FoldedAt(a + "/", 0, "Content/")
    ensures PassesRooting(b) && PassesRooting(c) && PassesRooting(d) && Settled(f) && NoRootOpensInFront(f + ".") && PassesRooting(e)
    ensures PassesClassify(b) && PassesClassify(c) && PassesClassify(d) && PassesClassify(f + ".") && PassesClassify(e) && b != []
    ensures "Actor" + "/" + "Pack" + "/" + "Enemy_Lizalfos_" + "Senior" + "." + "bactorpack"
         == b + ("/" + (c + ("/" + (d + ((f + ".") + e)))))
  {
    CheckedActor();
    CheckedPack();
    CheckedEnemyLizalfos();
    CheckedSenior();
    CheckedBactorpack();
    a, b, c, d, f, e := "content", "Actor", "Pack", "Enemy_Lizalfos_", "Senior", "bactorpack";
    Regroup6(a + "\\" + b + "\\" + c, "\\", d, f, ".s", e);
    Regroup6(a, "\\", b, "\\", c, "\\" + (d + (f + (".s" + e))));
    RegroupDot(b + "/" + c + "/" + d, f, e);
    Regroup6(b, "/", c, "/", d, (f + ".") + e);
    CheckedPiecePasses(b);
    CheckedPiecePasses(c);
    CheckedPiecePasses(d);
    CheckedPieceBeforeDot(f);
    CheckedPiecePasses(e);
  }

  lemma BaseGamePieces(path: string) returns (a: string, b: string, c: string, d: string, f: string, e: string)
    requires path == "content" + "\\" + "Actor" + "\\" + "Pack" + "\\" + "Enemy_Lizal_" + "Senior" + ".s" + "bactorpack"
    ensures path == a + ("\\" + (b + ("\\" + (c + ("\\" + (d + (f + (".s" + e))))))))
    ensures a == "content" && FoldedAt(a + "/", 0, "Content/")
    ensures PassesRooting(b) && PassesRooting(c) && PassesRooting(d) && Settled(f) && NoRootOpensInFront(f + ".") && PassesRooting(e)
    ensures PassesClassify(b) && PassesClassify(c) && PassesClassify(d) && PassesClassify(f + ".") && PassesClassify(e) && b != []
    ensures "Actor" + "/" + "Pack" + "/" + "Enemy_Lizal_" + "Senior" + "." + "bactorpack"
         == b + ("/" + (c + ("/" + (d + ((f + ".") + e)))))
  {
    CheckedActor();
    CheckedPack();
    CheckedEnemyLizal();
    CheckedSenior();
    CheckedBactorpack();
    a, b, c, d, f, e := "content", "Actor", "Pack", "Enemy_Lizal_", "Senior", "bactorpack";
    Regroup6(a + "\\" + b + "\\" + c, "\\", d, f, ".s", e);
    Regroup6(a, "\\", b, "\\", c, "\\" + (d + (f + (".s" + e))));
    RegroupDot(b + "/" + c + "/" + d, f, e);
    Regroup6(b, "/", c, "/", d, (f + ".") + e);
    CheckedPiecePasses(b);
    CheckedPiecePasses(c);
    CheckedPiecePasses(d);
    CheckedPieceBeforeDot(f);
    CheckedPiecePasses(e);
  }

  /** `aoc/0010/Map/MainField/A-1/A-1_Dynamic.smubin` names the DLC file
      `Aoc/0010/Map/MainField/A-1/A-1_Dynamic.mubin`. */
  lemma CanonNameOfDlcPath(path: string)
    requires path == "aoc/0010/" + "Map/MainField/" + "A-1/" + "A-1_Dynamic" + ".s" + "mubin"
    ensures GetCanonName(path) == Some("Aoc/0010/" + "Map/MainField/" + "A-1/" + "A-1_Dynamic" + "." + "mubin")
  {
    var m, b, c, f, e := DlcPieces(path);
    RootedUnchanged(e);
    RootedFrontDotS(f, e);
    RootedFront(c, f + (".s" + e));
    RootedFront(b, c + (f + (".s" + e)));
    RootedDlcRoot(m, b + (c + (f + (".s" + e))));
    DlcClassified(b + (c + ((f + ".") + e)));
  }

  lemma DlcPieces(path: string) returns (m: string, b: string, c: string, f: string, e: string)
    requires path == "aoc/0010/" + "Map/MainField/" + "A-1/" + "A-1_Dynamic" + ".s" + "mubin"
    ensures path == m + (b + (c + (f + (".s" + e))))
    ensures |m| == 9 && FoldedAt(m, 0, "Aoc/0010/")
    ensures PassesRooting(b) && PassesRooting(c) && Settled(f) && NoRootOpensInFront(f + ".") && PassesRooting(e)
    ensures PassesClassify(b) && PassesClassify(c) && PassesClassify(f + ".") && PassesClassify(e)
    ensures "Aoc/0010/" + "Map/MainField/" + "A-1/" + "A-1_Dynamic" + "." + "mubin"
         == "Aoc/0010/" + (b + (c + ((f + ".") + e)))
  {
    CheckedMapMainField();
    CheckedA1Folder();
    CheckedA1Dynamic();
    CheckedMubin();
    m, b, c, f, e := "aoc/0010/", "Map/MainField/", "A-1/", "A-1_Dynamic", "mubin";
    Regroup6(m, b, c, f, ".s", e);
    RegroupDot("Aoc/0010/" + b + c, f, e);
    Regroup4("Aoc/0010/", b, c, (f + ".") + e);
    CheckedPiecePasses(b);
    CheckedPiecePasses(c);
    CheckedPieceBeforeDot(f);
    CheckedPiecePasses(e);
  }

  /** `atmosphere/contents/01007EF00011E000/romfs/Actor/ActorInfo.product.sbyml`,
      a Switch base-game path, names `Actor/ActorInfo.product.byml`. */
  lemma CanonNameOfSwitchPath(path: string)
    requires path == "atmosphere/contents/" + "01007EF00011E000" + "/romfs/" + "Actor/ActorInfo" + ".product" + ".s" + "byml"
    ensures GetCanonName(path) == Some("Actor/ActorInfo" + ".product" + "." + "byml")
  {
    var m, b, f, e := SwitchPieces(path);
    RootedUnchanged(e);
    RootedFrontDotS(f, e);
    RootedFront(b, f + (".s" + e));
    RootedSwitchBase(m, b + (f + (".s" + e)));
    BaseClassified(b + ((f + ".") + e));
  }

  lemma SwitchPieces(path: string) returns (m: string, b: string, f: string, e: string)
    requires path == "atmosphere/contents/" + "01007EF00011E000" + "/romfs/" + "Actor/ActorInfo" + ".product" + ".s" + "byml"
    ensures path == m + (b + (f + (".s" + e)))
    ensures m == SwitchContents + BaseTitleId + "/romfs/"
    ensures PassesRooting(b) && Settled(f) && NoRootOpensInFront(f + ".") && PassesRooting(e)
    ensures PassesClassify(b) && PassesClassify(f + ".") && PassesClassify(e)
    ensures "Actor/ActorInfo" + ".product" + "." + "byml" == b + ((f + ".") + e)
  {
    CheckedActorInfo();
    CheckedProduct();
    CheckedByml();
    m, b, f, e := "atmosphere/contents/" + "01007EF00011E000" + "/romfs/", "Actor/ActorInfo", ".product", "byml";
    Regroup5(m, b, f, ".s", e);
    RegroupDot(b, f, e);
    CheckedPiecePasses(b);
    CheckedPieceBeforeDot(f);
    CheckedPiecePasses(e);
  }

  /** `atmosphere/contents/01007EF00011F001/romfs/Pack/AocMainField.pack`, a
      Switch DLC path, names `Aoc/0010/Pack/AocMainField.pack`. */
  lemma CanonNameOfSwitchDlcPath(path: string)
    requires path == "atmosphere/contents/" + "01007EF00011F001" + "/romfs/" + "Pack/" + "AocMainField" + ".pack"
    ensures GetCanonName(path) == Some("Aoc/0010/" + "Pack/" + "AocMainField" + ".pack")
  {
    var m, b, c, e := SwitchDlcPieces(path);
    RootedUnchanged(e);
    RootedFront(c, e);
    RootedFront(b, c + e);
    RootedSwitchDlc(m, b + (c + e), 'F', '1');
    DlcClassified(b + (c + e));
  }

  lemma SwitchDlcPieces(path: string) returns (m: string, b: string, c: string, e: string)
    requires path == "atmosphere/contents/" + "01007EF00011F001" + "/romfs/" + "Pack/" + "AocMainField" + ".pack"
    ensures path == m + (b + (c + e))
    ensures m == SwitchContents + AocTitleId('F', '1') + "/romfs/"
    ensures PassesRooting(b) && PassesRooting(c) && PassesRooting(e)
    ensures PassesClassify(b) && PassesClassify(c) && PassesClassify(e)
    ensures "Aoc/0010/" + "Pack/" + "AocMainField" + ".pack" == "Aoc/0010/" + (b + (c + e))
  {
    CheckedPackFolder();
    CheckedAocMainField();
    CheckedPackExtension();
    m, b, c, e := "atmosphere/contents/" + "01007EF00011F001" + "/romfs/", "Pack/", "AocMainField", ".pack";
    Regroup4(m, b, c, e);
    Regroup4("Aoc/0010/", b, c, e);
    CheckedPiecePasses(b);
    CheckedPiecePasses(c);
    CheckedPiecePasses(e);
  }

  /** `Hellow/Sweetie.tardis` lies under no root and has no canonical name. */
  lemma CanonNameOfUnrootedPath(path: string)
    requires path == "Hellow/" + "Sweetie" + ".tardis"
    ensures GetCanonName(path) == None
  {
    var b, c, e := UnrootedPieces(path);
    RootedUnchanged(e);
    RootedFront(c, e);
    RootedFront(b, c + e);
    var n := b + (c + e);
    assert n[0] == 'H';
    assert !StartsWith(n, "aoc/") by {
      assert n[..4][0] == n[0];
    }
    assert !StartsWith(n, "content") by {
      assert n[..7][0] == n[0];
    }
    UnrootedIsRejected(n);
  }

  lemma UnrootedPieces(path: string) returns (b: string, c: string, e: string)
    requires path == "Hellow/" + "Sweetie" + ".tardis"
    ensures path == b + (c + e)
    ensures PassesRooting(b) && PassesRooting(c) && PassesRooting(e)
    ensures b != [] && b[0] == 'H'
  {
    CheckedHellow();
    CheckedSweetie();
    CheckedTardis();
    b, c, e := "Hellow/", "Sweetie", ".tardis";
    Regroup3(b, c, e);
    CheckedPiecePasses(b);
    CheckedPiecePasses(c);
    CheckedPiecePasses(e);
  }

  /** `content/aoc/x` names a DLC folder under the base-game root: the `aoc/`
      root is expanded, and the path is refused for naming `/aoc` under
      `content`. */
  lemma CanonNameOfMixedRootPath(path: string)
    requires path == "content" + "/" + "aoc/" + "x"
    ensures GetCanonName(path) == None
  {
    var a, m, e := MixedRootPieces(path);
    SettledIsNormal(e);
    WithoutRootSettled(e);
    RootedUnchanged(e);
    RootedDlcShortRoot(m, e);
    RootedContentRoot(a, "/", m + e);
    DlcUnderContentRejected(e);
  }

  lemma DlcUnderContentRejected(e: string)
    ensures Classify("content/" + ("aoc/0010/" + e)) == None
  {
    var n := "content/" + ("aoc/0010/" + e);
    assert OccursAt(n, 7, "/aoc") by {
      assert n[7..11] == "/aoc";
    }
    assert StartsWith(n, "content") by {
      assert n[..7] == "content";
    }
    ContentWithDlcIsRejected(n);
  }

  lemma MixedRootPieces(path: string) returns (a: string, m: string, e: string)
    requires path == "content" + "/" + "aoc/" + "x"
    ensures path == a + ("/" + (m + e))
    ensures a == "content" && FoldedAt(a + "/", 0, "Content/")
    ensures |m| == 4 && FoldedAt(m, 0, "Aoc/")
    ensures PassesRooting(e) && |e| < 5
  {
    CheckedX();
    a, m, e := "content", "aoc/", "x";
    Regroup4(a, "/", m, e);
    CheckedPiecePasses(e);
  }

  /** The root is matched ignoring case but told apart by a case-sensitive
      test, so `Content/Pack/TitleBG.pack` is taken for a DLC file and named
      `Aoc/0010/Pack/TitleBG.pack`. */
  lemma CanonNameOfCapitalisedContentPath(path: string)
    requires path == "Content" + "/" + "Pack/" + "TitleBG" + ".pack"
    ensures GetCanonName(path) == Some("Aoc/0010/" + "Pack/" + "TitleBG" + ".pack")
  {
    var a, b, c, e := CapitalisedContentPieces(path);
    RootedUnchanged(e);
    RootedFront(c, e);
    RootedFront(b, c + e);
    RootedContentRoot(a, "/", b + (c + e));
    DlcClassified(b + (c + e));
  }

  lemma CapitalisedContentPieces(path: string) returns (a: string, b: string, c: string, e: string)
    requires path == "Content" + "/" + "Pack/" + "TitleBG" + ".pack"
    ensures path == a + ("/" + (b + (c + e)))
    ensures |a| == 7 && a != "content" && FoldedAt(a + "/", 0, "Content/")
    ensures PassesRooting(b) && PassesRooting(c) && PassesRooting(e)
    ensures PassesClassify(b) && PassesClassify(c) && PassesClassify(e)
    ensures "Aoc/0010/" + "Pack/" + "TitleBG" + ".pack" == "Aoc/0010/" + (b + (c + e))
  {
    CheckedPackFolder();
    CheckedTitleBg();
    CheckedPackExtension();
    a, b, c, e := "Content", "Pack/", "TitleBG", ".pack";
    Regroup5(a, "/", b, c, e);
    Regroup4("Aoc/0010/", b, c, e);
    assert a[0] != "content"[0];
    CheckedPiecePasses(b);
    CheckedPiecePasses(c);
    CheckedPiecePasses(e);
  }

  /** `Event/EventInfo.product.sbyml`, a path inside an archive, becomes
      `Event/EventInfo.product.byml`. */
  lemma WithoutRootOfEventPath(path: string)
    requires path == "Event/EventInfo" + ".product" + ".s" + "byml"
    ensures GetCanonNameWithoutRoot(path) == "Event/EventInfo" + ".product" + "." + "byml"
  {
    var b, f, e := EventPieces(path);
    SettledIsNormal(e);
    WithoutRootSettled(e);
    WithoutRootFrontDotS(f, e);
    WithoutRootFront(b, f + (".s" + e));
  }

  lemma EventPieces(path: string) returns (b: string, f: string, e: string)
    requires path == "Event/EventInfo" + ".product" + ".s" + "byml"
    ensures path == b + (f + (".s" + e))
    ensures Settled(b) && Settled(f) && Settled(e)
    ensures "Event/EventInfo" + ".product" + "." + "byml" == b + ((f + ".") + e)
  {
    CheckedEventInfo();
    CheckedProduct();
    CheckedByml();
    b, f, e := "Event/EventInfo", ".product", "byml";
    Regroup4(b, f, ".s", e);
    RegroupDot(b, f, e);
    CheckedPieceFacts(b);
    CheckedPieceFacts(f);
    CheckedPieceFacts(e);
  }

  /** `Actor/Pack/GameROMPlayer.sbactorpack` becomes
      `Actor/Pack/GameROMPlayer.bactorpack`. */
  lemma WithoutRootOfActorPath(path: string)
    requires path == "Actor/Pack/" + "GameROMPlayer" + ".s" + "bactorpack"
    ensures GetCanonNameWithoutRoot(path) == "Actor/Pack/" + "GameROMPlayer" + "." + "bactorpack"
  {
    var b, f, e := ActorPieces(path);
    SettledIsNormal(e);
    WithoutRootSettled(e);
    WithoutRootFrontDotS(f, e);
    WithoutRootFront(b, f + (".s" + e));
  }

  lemma ActorPieces(path: string) returns (b: string, f: string, e: string)
    requires path == "Actor/Pack/" + "GameROMPlayer" + ".s" + "bactorpack"
    ensures path == b + (f + (".s" + e))
    ensures Settled(b) && Settled(f) && Settled(e)
    ensures "Actor/Pack/" + "GameROMPlayer" + "." + "bactorpack" == b + ((f + ".") + e)
  {
    CheckedActorPack();
    CheckedGameRomPlayer();
    CheckedBactorpack();
    b, f, e := "Actor/Pack/", "GameROMPlayer", "bactorpack";
    Regroup4(b, f, ".s", e);
    RegroupDot(b, f, e);
    CheckedPieceFacts(b);
    CheckedPieceFacts(f);
    CheckedPieceFacts(e);
  }
}
