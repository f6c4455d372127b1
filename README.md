# botw-utils: canonical resource paths and the stock-file table

This project models the core of `botw-utils`, a library of helpers for
*The Legend of Zelda: Breath of the Wild* mod tools, and proves properties of
the model.

- **Canonical resource paths** (`src/lib.rs`). `get_canon_name` turns a path
  relative to a game dump into the name the game uses for the file:
  - backslashes become slashes;
  - every `.s` becomes `.`, so a Yaz0-compressed extension such as
    `.sbactorpack` becomes `.bactorpack`;
  - a case-insensitive regular expression finds every root folder and rewrites
    it to `content/` or `aoc/0010/`. The roots are the Wii U `content` and
    `aoc` folders, and the Switch title directories
    `01007EF00011E000/romfs/` (base game) and `01007EF00011[ef]00[0-2]/romfs/`
    (DLC). A title directory may sit under `atmosphere/titles/` or
    `atmosphere/contents/`, but that prefix is optional: a bare title
    directory anywhere in the path is a root too;
  - a path that now starts with `aoc/` is a DLC path. Every `aoc` in it, not
    only the root's, becomes `Aoc`, after `aoc/content` has become `Aoc`;
  - a path that starts with `content` and holds no `/aoc` is a base-game path,
    and every `content/` in it is removed, not only the root;
  - anything else is refused (`None`).

  `get_canon_name_without_root` does only the first two steps.
- **Stock-file table** (`src/hashes.rs`). `StockHashTable` maps each stock game
  file to the hashes of its unmodified copies. `is_file_modded` decompresses
  Yaz0 data, hashes it with xxHash64, and reports the file as modified when the
  hash is not listed. A file the stock game lacks counts as modified only on
  request (`flag_new`).

Modules:

- `Strings` (`strings.dfy`) models Rust's `str::replace`, `starts_with`,
  `contains`, `split` and `join`.
- `RootPattern` (`root_pattern.dfy`) is the root regex compiled by hand. Every
  alternative of the pattern has a fixed length. So the regex is nine
  fixed-length branches, each matched ignoring ASCII case and some holding a
  character class, tried in the order a leftmost-first engine prefers them.
  `ReplaceRoots` is `Regex::replace_all` with the source's closure.
- `Canon` (`canon.dfy`) holds the two path functions, their properties, and
  lemmas that evaluate a path piece by piece.
- `Pieces`, `PieceChecks` and `CanonExamples` (`canon_examples.dfy`) prove the
  examples of the source's tests and doc comments.
- `Hashes` (`hashes.dfy`) models `Platform` and `StockHashTable`.
- `Options` (`options.dfy`) is Rust's `Option`.

The closure that picks the replacement compares case-sensitively. Only the
regex ignores case. So a root spelled `Content/` is matched, but it is rewritten
as a DLC root (`CanonExamples.CanonNameOfCapitalisedContentPath`). The model
keeps this behaviour of the code.

`StockHashTable` is a value. Its table is set when it is built and never
changed, and every query is a function of the table and its arguments. Equal
questions therefore get equal answers by construction.

## Model

| member | source | states |
|---|---|---|
| Canon.GetCanonName | src/lib.rs:27-60 | `get_canon_name`: `Classify` after `Rooted`; its properties are the rows `CanonNameHasNoBackslash`, `DlcNameIsCapitalised`, `ContentWithDlcIsRejected`, `UnrootedIsRejected` and the `CanonExamples` rows |
| Canon.Rooted | src/lib.rs:35-48 | the normalisation and root rewriting of `get_canon_name`, before classification; its properties are the `Canon.Rooted…` rows |
| Canon.Classify | src/lib.rs:49-59 | the final `if`/`else if`/`else` of `get_canon_name`; its properties are the rows `DlcNameIsCapitalised` to `DlcClassified` |
| Strings.Replace | src/lib.rs:38-39 | `str::replace`; its properties are the rows `ReplaceIsJoinOfSplit` to `ReplaceKeepsAlphabet` |
| RootPattern.BranchMatches | src/lib.rs:30-31 | one alternative of the root regex, literal letters ignoring ASCII case and character classes as written; properties in `BranchEndsInSlash`, `LongDlcNeedsDigits` and `BaseTitleIsDlcTitle` |
| RootPattern.MatchLen | src/lib.rs:29-31 | the regex's preferred match at a position; properties in `FirstMatchSpec` and `MatchLenSpec` |
| RootPattern.ReplaceRoots | src/lib.rs:40-48 | `Regex::replace_all` with the source's closure, which is `RootPattern.Substitute`; its properties are the `RootPattern.ReplaceRoots…` rows and `ContentRoot` to `DlcOutputPrefix` |
| Hashes.GetHashTable | src/hashes.rs:22-27 | `get_hash_table`: the table of the given platform; its property is stated in `NewListsPlatformFiles` |
| Hashes.StockHashTable.New | src/hashes.rs:42-46 | `StockHashTable::new`; its property is stated in `NewListsPlatformFiles` |
| Hashes.StockHashTable.GetStockFiles | src/hashes.rs:50-52 | `get_stock_files`: a path is in the result if and only if it is a key of the table; related to `is_file_new` in `StockFilesAreNotNew` |
| Strings.ReplaceIsJoinOfSplit | src/lib.rs:38-39 | `str::replace` rewrites every non-overlapping occurrence found left to right: it equals splitting at those occurrences and joining with the replacement |
| Strings.SplitPiecesAreFree | src/lib.rs:39 | no piece of the split contains the pattern: every occurrence became a separator |
| Strings.JoinOfSplitIsInput | src/lib.rs:38-39 | rejoining the split pieces with the pattern gives the input back, so the split loses nothing |
| Strings.ReplaceLength | src/lib.rs:38-39 | each rewritten occurrence trades the pattern's length for the replacement's |
| Strings.ReplaceCharPointwise | src/lib.rs:38 | replacing one character by another changes exactly the positions holding it |
| Strings.ReplaceAbsent | src/lib.rs:39 | without an occurrence of the pattern, `replace` returns its input |
| Strings.ReplaceKeepsAlphabet | src/lib.rs:38-39 | every character of the result comes from the input or the replacement |
| Canon.Slashed | src/lib.rs:38 | the result has the input's length, with each backslash turned into `/` and every other character kept |
| Canon.GetCanonNameWithoutRoot | src/lib.rs:82-88 | `get_canon_name_without_root` (further properties in the rows `WithoutRootKeepsPieces` to `WithoutRootSettled`): the result has no backslash, and it is shorter than the input by the number of `.s` occurrences rewritten |
| Canon.WithoutRootKeepsPieces | src/lib.rs:86-87 | only the `.s` occurrences change: the result is the slashed path's `.s`-separated pieces rejoined with `.`, rejoining them with `.s` gives the slashed path, and no piece holds a `.s`, so every occurrence was rewritten |
| Canon.OneDotS | src/lib.rs:86-87 | a path with one `.s` and no other `.` or backslash loses just that `s` |
| Canon.WithoutRootIdempotentIff | src/lib.rs:82-88 | normalising twice equals normalising once if and only if the first result holds no `.s` |
| Canon.WithoutRootNotIdempotent | src/lib.rs:82-88 | `Foo.ssarc` becomes `Foo.sarc`, which becomes `Foo.arc`: the function is not idempotent |
| Canon.WithoutRootFront | src/lib.rs:86-87 | a leading stretch with no backslash, no `.s` and no trailing `.` is copied to the front of the result |
| Canon.WithoutRootFrontDotS | src/lib.rs:87 | a `.s` after such a stretch becomes `.`, and the rest is normalised on its own |
| Canon.WithoutRootSettled | src/lib.rs:86-87 | a path without backslash or `.s` is already normalised |
| RootPattern.FirstMatchSpec | src/lib.rs:29-31 | the branch search finds nothing if and only if no branch matches, and it returns the length of the first branch that matches |
| RootPattern.MatchLenSpec | src/lib.rs:29-31 | the preferred match at a position is the first of the nine branches, in leftmost-first order, that matches there |
| RootPattern.BranchEndsInSlash | src/lib.rs:30-31 | every alternative of the pattern ends in `/`, so no match is empty |
| RootPattern.ReplaceRootsAt | src/lib.rs:40-47 | where the branch a leftmost-first engine prefers matches at the front, `replace_all` emits the closure's replacement for that match and goes on after it |
| RootPattern.ReplaceRootsSkip | src/lib.rs:40-47 | a stretch where no root can begin is copied unchanged |
| RootPattern.ReplaceRootsPlain | src/lib.rs:40-47 | text where no root opens is left unchanged by `replace_all` |
| RootPattern.ReplaceRootsKeepsAlphabet | src/lib.rs:40-47 | every character `replace_all` emits comes from its input or from a replacement |
| RootPattern.ContentRoot | src/lib.rs:30-46 | a `Content/` root in any case is replaced, with `content/` only when it is spelled `content` |
| RootPattern.DlcRootLong | src/lib.rs:31-45 | an `Aoc/0010/` root in any case becomes `aoc/0010/` |
| RootPattern.DlcRootShort | src/lib.rs:31-45 | an `Aoc/` root not followed by `0010/` becomes `aoc/0010/` |
| RootPattern.LongDlcNeedsDigits | src/lib.rs:31 | the longer `Aoc/0010/` branch matches only where `0010/` follows `Aoc/` |
| RootPattern.TitleRoot | src/lib.rs:30-46 | a base title directory `01007EF00011E000/romfs/`, bare or under `atmosphere/titles/` or `atmosphere/contents/` and in any case, is the branch the regex prefers; it becomes `content/` exactly when the identifier is spelled in upper case |
| RootPattern.BaseTitleIsDlcTitle | src/lib.rs:30-31 | the base title directory also matches the DLC alternative `01007EF00011[ef]00[0-2]/romfs/`, which comes later |
| RootPattern.DlcTitleRoot | src/lib.rs:31-45 | a DLC title directory `01007EF00011[ef]00[0-2]/romfs/` that is not the base one, bare or under either prefix and in any case, is the branch the regex prefers, and it becomes `aoc/0010/` |
| RootPattern.TitleOnlyAtItsPlace | src/lib.rs:42 | in a title directory the base identifier can occur only at its own place, so `contains` tests the identifier's spelling |
| RootPattern.DlcOutputPrefix | src/lib.rs:40-49 | if the rewritten path starts with `aoc/`, it starts with the full `aoc/0010/` |
| RootPattern.ReplaceRootsPlainFront | src/lib.rs:40-47 | a leading stretch where no root opens, even one begun in it, is copied to the front |
| Canon.CanonNameHasNoBackslash | src/lib.rs:27-60 | an accepted canonical name contains no backslash |
| Canon.DlcNameIsCapitalised | src/lib.rs:49-54 | a path that is rewritten under `aoc/` is accepted, begins with `Aoc/0010/`, and keeps no lower-case `aoc` |
| Canon.DlcRootNotContent | src/lib.rs:52 | the `aoc/content` rewrite never touches the `aoc/0010/` root |
| Canon.NoLowerDlc | src/lib.rs:53 | after replacing `aoc` with `Aoc`, no `aoc` is left |
| Canon.ContentWithDlcIsRejected | src/lib.rs:55-58 | a name under `content` that also names `/aoc` is refused |
| Canon.UnrootedIsRejected | src/lib.rs:55-58 | a name under neither root is refused |
| Canon.BaseNameDropsRoot | src/lib.rs:55-56 | an accepted base-game name has its `content/` occurrences removed |
| Canon.BaseClassified | src/lib.rs:55-56 | `content/` followed by a name holding no `/a`, `co` or `ao` and not beginning with `a` (the empty name included) is accepted, with its root dropped |
| Canon.DlcClassified | src/lib.rs:49-54 | a DLC name with no `ao` after its root is accepted, with the root spelled `Aoc/0010/` |
| Canon.RootedFront | src/lib.rs:35-48 | the first steps of `get_canon_name` copy a leading stretch that they leave alone |
| Canon.RootedFrontDotS | src/lib.rs:39-48 | a `.s` after such a stretch becomes `.` |
| Canon.RootedBackslash | src/lib.rs:38-48 | a leading backslash becomes `/` |
| Canon.RootedContentRoot | src/lib.rs:30-47 | a leading `content` root in any case, before either separator, is rewritten, to `content/` only when spelled `content` |
| Canon.RootedDlcRoot | src/lib.rs:31-47 | a leading `aoc/0010/` root in any case becomes `aoc/0010/` |
| Canon.RootedDlcShortRoot | src/lib.rs:31-47 | a leading `aoc/` root in any case, not followed by `0010/` once the rest is normalised, becomes `aoc/0010/` |
| Canon.RootedTitleRoot | src/lib.rs:30-47 | a leading base title directory, bare or under either Switch prefix and in any case, becomes `content/` exactly when the identifier is in upper case |
| Canon.RootedDlcTitleRoot | src/lib.rs:31-47 | a leading DLC title directory that is not the base one, bare or under either Switch prefix and in any case, becomes `aoc/0010/` |
| CanonExamples.CanonNameOfBaseGamePath | src/lib.rs:95-98 | `content\Actor\Pack\Enemy_Lizal_Senior.sbactorpack` names `Actor/Pack/Enemy_Lizal_Senior.bactorpack` |
| CanonExamples.CanonNameOfDocExamplePath | src/lib.rs:13-16 | `content\Actor\Pack\Enemy_Lizalfos_Senior.sbactorpack` names `Actor/Pack/Enemy_Lizalfos_Senior.bactorpack` |
| CanonExamples.CanonNameOfDlcPath | src/lib.rs:99-102 | `aoc/0010/Map/MainField/A-1/A-1_Dynamic.smubin` names `Aoc/0010/Map/MainField/A-1/A-1_Dynamic.mubin` |
| CanonExamples.CanonNameOfSwitchPath | src/lib.rs:103-109 | `atmosphere/contents/01007EF00011E000/romfs/Actor/ActorInfo.product.sbyml` names `Actor/ActorInfo.product.byml` |
| CanonExamples.CanonNameOfSwitchDlcPath | src/lib.rs:110-114 | `atmosphere/contents/01007EF00011F001/romfs/Pack/AocMainField.pack` names `Aoc/0010/Pack/AocMainField.pack` |
| CanonExamples.CanonNameOfUnrootedPath | src/lib.rs:115 | `Hellow/Sweetie.tardis` has no canonical name |
| CanonExamples.WithoutRootOfEventPath | src/lib.rs:116-119 | `Event/EventInfo.product.sbyml` becomes `Event/EventInfo.product.byml` |
| CanonExamples.WithoutRootOfActorPath | src/lib.rs:67-71 | `Actor/Pack/GameROMPlayer.sbactorpack` becomes `Actor/Pack/GameROMPlayer.bactorpack` |
| CanonExamples.CanonNameOfMixedRootPath | src/lib.rs:55-58 | `content/aoc/x` has no canonical name: its `aoc/` root is expanded to `aoc/0010/`, and a `content` path naming `/aoc` is refused |
| CanonExamples.CanonNameOfCapitalisedContentPath | src/lib.rs:30-46 | `Content/Pack/TitleBG.pack` is matched by the case-insensitive regex but named as DLC: `Aoc/0010/Pack/TitleBG.pack` |
| Hashes.NewListsPlatformFiles | src/hashes.rs:22-46 | a table built for a platform knows exactly that platform's stock files, with that platform's hashes for each |
| Hashes.StockHashTable.ListStockFiles | src/hashes.rs:56-58 | the list holds every key exactly once and nothing else, so its length is the table's size |
| Hashes.InSomeOrder | src/hashes.rs:56-58 | a set listed in some order: each element once, length equal to the set's size |
| Hashes.StockHashTable.IsFileNew | src/hashes.rs:97-99 | true if and only if the path is not a stock file |
| Hashes.StockFilesAreNotNew | src/hashes.rs:50-58 | the stock files, as set or list, are exactly the paths that are not new |
| Hashes.StockHashTable.IsFileModded | src/hashes.rs:67-89 | for a new file the result is `flag_new`; for a stock file (which needs at least 4 bytes of data) it is true if and only if the data is not a stock copy, where a stock copy is data whose unpacked bytes hash to a listed value |
| Hashes.NewFileModdedIsFlag | src/hashes.rs:73-88 | for a path the table lacks the answer is `flag_new`, whatever the data |
| Hashes.StockFileIgnoresFlag | src/hashes.rs:73-85 | for a stock file `flag_new` makes no difference |
| Hashes.BrokenYaz0IsModded | src/hashes.rs:76-79 | Yaz0 data that fails to decompress counts as modified |
| Hashes.ListedHashIsStock | src/hashes.rs:81-85 | plain data whose hash is listed for the file is not modified |
| Hashes.CompressionIsTransparent | src/hashes.rs:76-85 | a Yaz0 file and the plain data it decompresses to get the same answer |

## Left out

- Reading the path through `AsRef<Path>` and `to_string_lossy` is not modelled. A path is a string of characters.
- Case folding under `(?i)` covers ASCII letters only. The pattern's literals are ASCII, but Unicode simple case folding would also let the long s `ſ` match an `s` of the pattern; the model does not capture that.
- The regex engine is not modelled generally. The one pattern is compiled by hand into nine fixed-length branches in leftmost-first order.
- The examples are written as concatenations of short literals. A long literal is too costly for the verifier; the string is the same.
- The hash data is given as a `HashData` parameter holding the two tables. The embedded JSON files, `flate!` and `serde_json` are not modelled.
- xxHash64 with seed 0 and Yaz0 decompression are external crates. They are given as functions in a `Codec` parameter; decompression yields the bytes or fails.
- The `check_val` and `is_file_modded` tests depend on the real hash data and the real hash function, so they are not modelled. `cst_hash_table` and `print_files` only load or print the tables.
- Hashes.StockHashTable.ListStockFiles: the list comes in an order the model leaves open. A `HashMap` iterates in an arbitrary order, and the source promises none.
- Hashes.StockHashTable.IsFileModded: a stock file given fewer than four bytes makes the source panic at `data[0..4]`. The model requires four bytes in that case.
- The `extensions` module of the library is not part of this model.
- The normalisation rewrites every `.s` occurrence, as `str::replace` does, not just the first. The code is followed here. A name such as `Foo.ssarc` is therefore not settled by one pass (`Canon.WithoutRootNotIdempotent`), and repeating `get_canon_name_without_root` is idempotent only when no `.s` is left (`Canon.WithoutRootIdempotentIff`).
