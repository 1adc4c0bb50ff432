# Verified models of the build layers' algorithms

The repository is a set of Yocto and RDK layers. Most of it is recipes; this project models
the pieces of Python that hold real algorithms and proves what they promise. Each module
stays close to one source file. Where the source changes things step by step the model is a
class or a method with loops, proved equal to a function; what is promised is then proved
about that function, for all inputs.

| source | modules |
|---|---|
| `oe/cachedpath.py` | `PosixPath`, `FileSystems`, `CachedPaths`, `BelowRoot`, `PhysDirFlag`, `LinkBudget`, `LinkRanks`, `PathWalk`, `RealPathRefinement`, `RealPathTheorems`, `PosixWalks`, `PosixTheorems`, `LinkTrees`, `UnsafeTexts`, `UpsAfterNames`, `DotLinks`, `LinkTextTheorem` |
| `oe/license.py` | `LicenseTokens`, `LicenseTrees`, `LicenseChoice`, `LicenseManifest`, `LicenseRoundTrip`, `LicenseFilter`, `LicenseOperators` |
| `oe/buildhistory_analysis.py` | `FileLists`, `ListedLines`, `FileMoves`, `FileListDiff`, `FileChanges`, `FileLeftovers`, `RenamedDirs`, `DirItems` |
| `oe/copy_buildsystem.py` | `LockedSigs`, `MergedSections`, `MergeSteps`, `LockedSigsTheorems`, `PruneSigs`, `SigLines`, `PrunedLines` |
| `scripts/relocate_sdk.py` | `Bytes`, `Relocation`, `RelocationFrame`, `RelocationTheorems`, `RelocationMeaning`, `RelocationVerdict`, `ElfLayout`, `RelocationOverflow` |
| `rootfspostcommands.py` | `SortPasswd`, `EtcOrder` |
| webcfg `metadata_parser.py` | `BinaryText`, `Webcfg`, `WebcfgEdges` |
| `buildstats.py` | `Nevr` |
| `oe/cve_check.py` | `Versions`, `VersionTexts` |
| shared | `Options`, `Splitting`, `Replacing`, `PyStrings`, `TextLines`, `Counting`, `Sorting` |

How the parts fit together:

- **Paths.** A file system is a finite map from normalised paths to objects and links; it does
  not change during a call. `CachedPath` keeps the three caches as fields, and `Valid` says
  that every remembered answer is the uncached one. The resolver is compared with two walkers
  over component sequences. `Walk` follows link texts as the source does, normalised
  (`cachedpath.py:184`), and agrees with realpath without any condition on links. `PosixWalk`
  is pathname resolution as POSIX.1-2017, Base Definitions, section 4.13 has it: a link's text
  is cut at its slashes and otherwise taken as it is written, `..` goes to the directory above
  the one reached, and a trailing slash asks for a directory. realpath agrees with it exactly
  as far as link texts are `Safe`: no `..` behind a name, not just dots and slashes, and no
  slash or `.` behind the last name (unless directories are assumed). Each of the three parts
  is needed: for every text that breaks one of them there is a file system, with safe texts
  otherwise, where realpath and POSIX part.
- **Licences.** A licence string becomes elements, a tree, a choice or a filtered string. The
  weight 1000 of the OR-chooser makes local choices globally best exactly as long as fewer than
  1000 leaves are included. The printer gives a licence expression again exactly when the kept
  licences satisfy `WellKept`.
- **Build history.** The lists that the nested loops strike items from are loop state; the
  conservation law counts every path once, over these lists and what is reported.
- **Locked signatures.** Files are sequences of lines read by a state machine. The merge is a
  union section by section, reads back, and is idempotent; pruning filters every section, and
  two prunings are one.
- **Relocation.** The file is a byte sequence with a position; writing past its end makes it
  grow. The layout assumption `WellLaid` keeps the ranges that are written apart from each
  other and from the headers. The source does not check that the new search paths fit (line
  203): `SysdirsFit` is assumed by the frame theorem, and `SysdirsOverflow` says what a run
  does without it, and exactly when the frame is kept even so.
- **What an answer means.** Most operations are proved equal to a function that does the same
  steps. `PhysDirFlag`, `BelowRoot`, `LicenseOperators`, `ListedLines`, `FileChanges`,
  `FileLeftovers`, `DirItems`, `SigLines`, `PrunedLines`, `Replacing`, `RelocationMeaning`,
  `RelocationVerdict`, `ElfLayout`, `EtcOrder`, `WebcfgEdges` and `VersionTexts` say what the answers of these
  functions mean in terms of the inputs alone, without naming the functions.
- **The rest.** Sorting of passwd and shadow, packing of bits through binary texts, the
  name-epoch-version-revision text, and the order of versions.

## Model

| member | source | states |
|---|---|---|
| `PosixPath.NormPathIdempotent` | openembedded-core/meta/lib/oe/cachedpath.py:27-32 | Normalising a normalised path changes nothing; without this the lookup at line 52 could miss. |
| `CachedPaths.ForgettingRestores` | openembedded-core/meta/lib/oe/cachedpath.py:20-25 | For bare tables: after a change, forgetting a path restores agreement if and only if nothing else that is remembered changed. |
| `CachedPaths.RelFromInside` | openembedded-core/meta/lib/oe/cachedpath.py:154-176 | Started inside the root, the component loop ends inside the root for every file system: the assertion at line 174 never fails. |
| `CachedPaths.PhysInside` | openembedded-core/meta/lib/oe/cachedpath.py:178-199 | Following links keeps a path below the root below it, and inside it when it was inside. |
| `CachedPaths.RealPathBelowRoot` | openembedded-core/meta/lib/oe/cachedpath.py:201-235 | Containment: every path realpath returns is below the root, for cyclic links, links full of `..`, and both values of use_physdir. |
| `CachedPaths.CachedPath.constructor` | openembedded-core/meta/lib/oe/cachedpath.py:14-18 | Empty caches agree with every file system. |
| `CachedPaths.CachedPath.NormalPath` | openembedded-core/meta/lib/oe/cachedpath.py:27-32 | The cached normal form is the normal form, and exactly the asked path is added to the cache. |
| `CachedPaths.CachedPath.UpdateCache` | openembedded-core/meta/lib/oe/cachedpath.py:20-25 | Both tables lose exactly the entry of the normalised path; caches valid before a change of the file system are valid after it if and only if no other remembered path changed. |
| `CachedPaths.CachedPath.CallStatUncached` | openembedded-core/meta/lib/oe/cachedpath.py:34-43 | Answers as stat, remembers exactly that, and keeps the caches valid. |
| `CachedPaths.CachedPath.CallLstat` | openembedded-core/meta/lib/oe/cachedpath.py:54-70 | Answers as lstat at the normalised path and leaves a stat answer there too. |
| `CachedPaths.CachedPath.CallStat` | openembedded-core/meta/lib/oe/cachedpath.py:49-52 | Answers as stat at the normalised path; the final lookup never misses. |
| `CachedPaths.CachedPath.IsFileAt` | openembedded-core/meta/lib/oe/cachedpath.py:74-79 | The uncached answer. |
| `CachedPaths.CachedPath.IsDirAt` | openembedded-core/meta/lib/oe/cachedpath.py:84-89 | The uncached answer. |
| `CachedPaths.CachedPath.IsLinkAt` | openembedded-core/meta/lib/oe/cachedpath.py:91-96 | The uncached answer. |
| `CachedPaths.CachedPath.Ask` | openembedded-core/meta/lib/oe/cachedpath.py:72-116 | Every kind of query gets its uncached answer. |
| `CachedPaths.CachedPath.AskAll` | openembedded-core/meta/lib/oe/cachedpath.py:72-116 | Over any sequence of queries every answer is the uncached one. |
| `CachedPaths.CachedPath.ResolveRel` | openembedded-core/meta/lib/oe/cachedpath.py:154-176 | The loop over components, with its assertion, computes the resolution function. |
| `CachedPaths.CachedPath.FollowLink` | openembedded-core/meta/lib/oe/cachedpath.py:184-192 | One link is followed as the resolution function says, and the result is inside the root; the assertion at line 188 never fails. |
| `CachedPaths.CachedPath.Resolve` | openembedded-core/meta/lib/oe/cachedpath.py:178-199 | The loop over links terminates, together with the component loop, and computes the resolution function. |
| `CachedPaths.CachedPath.ResolvePath` | openembedded-core/meta/lib/oe/cachedpath.py:201-235 | realpath with caches is realpath without them, with the same errors, and below the root. |
| `BelowRoot.BelowIsComponents` | openembedded-core/meta/lib/oe/cachedpath.py:151-152 | The below-root test on texts is said by components: the root has as many leading slashes, and its components begin those of the file. |
| `BelowRoot.RejectsOthers` | openembedded-core/meta/lib/oe/cachedpath.py:209-217 | EINVAL is raised for exactly the files that are not below the root by components, for both values of use_physdir. |
| `PhysDirFlag.FlagMakesNoDifference` | openembedded-core/meta/lib/oe/cachedpath.py:201-235 | Where no component of the file above its last is a link and all of them are directories (or assume_dir is set), both values of use_physdir give the same path up to normpath, or the same error. |
| `LinkBudget.RealPathMoreLinks` | openembedded-core/meta/lib/oe/cachedpath.py:178-199 | Any answer but ELOOP is unchanged by a larger loop_cnt. |
| `LinkBudget.EnoughIffRankable` | openembedded-core/meta/lib/oe/cachedpath.py:178-199 | A counter suffices for every path if and only if the links inside the root have ranks from 1 to it that drop along their texts. |
| `LinkBudget.RankedNeverTooMany` | openembedded-core/meta/lib/oe/cachedpath.py:224-231 | With such ranks realpath never raises ELOOP. |
| `LinkRanks.NestedNeverTooMany` | openembedded-core/meta/lib/oe/cachedpath.py:178-199 | If every link has a rank of at most loop_cnt, above the ranks of all links that walking its text comes to, realpath never raises ELOOP. |
| `PathWalk.WalkAppend` | openembedded-core/meta/lib/oe/cachedpath.py:159-176 | The reference walker resolves a concatenation by resolving its halves in turn. |
| `PathWalk.WalkMore` | openembedded-core/meta/lib/oe/cachedpath.py:178-183 | A larger link count changes nothing about where the walker ends. |
| `PathWalk.WalkDotFree` | openembedded-core/meta/lib/oe/cachedpath.py:184 | Without links whose text normalises to `.`, pushing a `.` as the source does and staying in place cannot be told apart. |
| `PathWalk.UpDenotes` | openembedded-core/meta/lib/oe/cachedpath.py:163-169 | dirname on the text is removing the last component, and stops at the root. |
| `RealPathRefinement.RelRefines` | openembedded-core/meta/lib/oe/cachedpath.py:154-199 | Resolving components as texts ends where the walker ends, component by component, with the same errors. |
| `RealPathRefinement.RelFinishes` | openembedded-core/meta/lib/oe/cachedpath.py:154-199 | Where the walker ends within its count, the source does not run out of links. |
| `RealPathTheorems.RealPathWalks` | openembedded-core/meta/lib/oe/cachedpath.py:201-235 | Every answer but ELOOP is an answer of the walker, for a number of links that is given. |
| `RealPathTheorems.WalkDrivesRealPath` | openembedded-core/meta/lib/oe/cachedpath.py:201-235 | When the walker ends within loop_cnt links, realpath ends as it does. |
| `RealPathTheorems.RealPathIsPlainWalk` | openembedded-core/meta/lib/oe/cachedpath.py:201-235 | Refinement: with use_physdir and a root that is no link, realpath is the component walker that follows normalised link texts. |
| `RealPathTheorems.RealPathIsCanonical` | openembedded-core/meta/lib/oe/cachedpath.py:201-207 | No component of the result below the root is a link, and resolving it again, even with loop_cnt 0, gives it again up to normpath. |
| `PosixWalks.PosixAppend` | openembedded-core/meta/lib/oe/cachedpath.py:159-176 | The POSIX walker resolves a concatenation by resolving its halves in turn. |
| `PosixWalks.SafeText` | openembedded-core/meta/lib/oe/cachedpath.py:184 | From any directory that was reached, a safe text leads to the same place before and after normalisation. |
| `PosixWalks.WalkIsPosix` | openembedded-core/meta/lib/oe/cachedpath.py:184 | Where all link texts are safe in this sense, walking normalised texts is POSIX pathname resolution. |
| `PosixTheorems.RealPathIsPosix` | openembedded-core/meta/lib/oe/cachedpath.py:201-235 | Where all link texts are safe, realpath ends where POSIX pathname resolution does, with the same errors. |
| `PosixTheorems.WrittenFileIsPosix` | openembedded-core/meta/lib/oe/cachedpath.py:209-221 | The same for a file as it is written below the root, before lines 209-210 normalise it. |
| `DotLinks.DotLinkMisleads` | openembedded-core/meta/lib/oe/cachedpath.py:184 | For every text of dots and slashes, a file system where realpath answers /t/y and POSIX finds /y. |
| `UpsAfterNames.UpAfterNameMisleads` | openembedded-core/meta/lib/oe/cachedpath.py:184 | For every text with `..` behind a name, a file system where realpath and POSIX end in different places. |
| `UnsafeTexts.TrailingSlashMisleads` | openembedded-core/meta/lib/oe/cachedpath.py:184 | For every other text with a slash or `.` behind the last name, a file system where POSIX fails and realpath answers. |
| `LinkTextTheorem.DetourMisleads` | openembedded-core/meta/lib/oe/cachedpath.py:184 | A small case: with /t/a leading to /z/w, "a/../b" is /z/b, and realpath answers /t/b. |
| `LinkTextTheorem.SafeIffNeverMisleads` | openembedded-core/meta/lib/oe/cachedpath.py:178-199 | The exact condition: a text is safe if and only if realpath follows POSIX in every file system whose other texts are safe, for all files, roots and counters. |
| `LicenseTokens.GetElements` | openembedded-core/meta/lib/oe/license.py:53-65 | The loop inserts `&` between adjacent licences, quotes them, and rejects any other text. |
| `LicenseTokens.ElementsOfRender` | openembedded-core/meta/lib/oe/license.py:47-65 | Tokenising a rendered sequence of tokens gives these tokens. |
| `LicenseChoice.FlattenVisitor.Visit` | openembedded-core/meta/lib/oe/license.py:76-101 | The visitor appends the flattened licences, choosing one side of every OR. |
| `LicenseChoice.IsIncluded` | openembedded-core/meta/lib/oe/license.py:112-156 | With fewer than 1000 included leaves it is True if and only if some choice has no excluded licence, and then no such choice has more included licences. |
| `LicenseChoice.GreedyBeats` | openembedded-core/meta/lib/oe/license.py:127-142 | No clean choice has more included licences than the greedy one, and the greedy one is clean if any is. |
| `LicenseChoice.GreedyVerdict` | openembedded-core/meta/lib/oe/license.py:127-142 | The verdict of the greedy choice in both directions. |
| `LicenseChoice.GreedyCanBeWrong` | openembedded-core/meta/lib/oe/license.py:130-138 | For every number of leaves from 1000 on, an expression that the greedy choice gets wrong. |
| `LicenseChoice.GreedyRightExactlyBelow1000` | openembedded-core/meta/lib/oe/license.py:130-138 | The greedy choice is right on all expressions with that many included leaves if and only if they are fewer than 1000. |
| `LicenseManifest.ManifestVisitor.Visit` | openembedded-core/meta/lib/oe/license.py:172-212 | The walk over the tree does what reading its tokens one by one does to the string, the list and the operator stack. |
| `LicenseManifest.ManifestLicenses` | openembedded-core/meta/lib/oe/license.py:214-233 | The string and the list returned, with brackets turned into parentheses. |
| `LicenseManifest.SqueezeOperators` | openembedded-core/meta/lib/oe/license.py:179-191 | The first loop over the stack keeps brackets and the last of operators in a row. |
| `LicenseRoundTrip.ManifestRoundTrip` | openembedded-core/meta/lib/oe/license.py:158-233 | With nothing filtered, the string written has the elements of the string read, inserted `&` included, and the list is all licences in order. |
| `LicenseFilter.ManifestParsesIff` | openembedded-core/meta/lib/oe/license.py:172-212 | A filtered string is a licence expression again if and only if a licence is kept, every group keeps one, and every group keeps its first unless nothing is kept before it. |
| `LicenseFilter.ManifestList` | openembedded-core/meta/lib/oe/license.py:176-202 | Whatever is filtered, the list is the kept licences in order. |
| `LicenseOperators.SqueezeKeepsLast` | openembedded-core/meta/lib/oe/license.py:179-191 | Of the pending operators exactly these are left, in order: every bracket, and of operators in a row the last. |
| `LicenseOperators.LastOperatorStays` | openembedded-core/meta/lib/oe/license.py:176-202 | Between two licences that are kept, where those in between are not, the operator written is the one before the second. |
| `LicenseOperators.SpacesMeanAnd` | openembedded-core/meta/lib/oe/license.py:55-60 | Two licences with only spaces between them have the elements that they have with ` & ` between them, wherever they stand. |
| `LicenseOperators.RefusedIff` | openembedded-core/meta/lib/oe/license.py:55-62 | A string is refused if and only if a longest text in it without an operator is neither blank nor a licence. |
| `LicenseOperators.LeftOnTie` | openembedded-core/meta/lib/oe/license.py:127-142 | Of two sides with as many included licences, and both or neither with an excluded one, the left is taken. |
| `FileLists.FileListToDict` | openembedded-core/meta/lib/oe/buildhistory_analysis.py:270-284 | The loop builds the dictionary in the order of first occurrence, and every entry has type, owner and group. |
| `FileLists.PlainLine` | openembedded-core/meta/lib/oe/buildhistory_analysis.py:272-283 | A line of five words is an entry with the first three as its fields. |
| `ListedLines.LinkLine` | openembedded-core/meta/lib/oe/buildhistory_analysis.py:272-281 | A line of four words and `./p -> t` is an entry of the path p with the first three words and t; p and t may have spaces inside. |
| `ListedLines.DictIsLastLines` | openembedded-core/meta/lib/oe/buildhistory_analysis.py:270-284 | A listing is read if and only if every line is, and each path has the fields of its last line and no others. |
| `ListedLines.DictOrder` | openembedded-core/meta/lib/oe/buildhistory_analysis.py:270-284 | The paths come in the order of their first lines. |
| `FileMoves.ScanFindsDifference` | openembedded-core/meta/lib/oe/buildhistory_analysis.py:357-360 | Different paths with the same digit mask have as many components and one that differs: the scan stays in range and finds it. |
| `FileMoves.CommonDirsMask` | openembedded-core/meta/lib/oe/buildhistory_analysis.py:354-362 | The two directories of a rename are not empty, differ, have equal length, and differ in digits only. |
| `FileMoves.MaskReplaceAll` | openembedded-core/meta/lib/oe/buildhistory_analysis.py:370 | Replacing one of the directories by the other in a path keeps its mask. |
| `FileMoves.MovesConserve` | openembedded-core/meta/lib/oe/buildhistory_analysis.py:332-386 | Each new-only path is added, moved or struck with its own old-only partner, exactly once; each old-only path is removed, taken by a move, or struck. |
| `FileMoves.StrikeLeavesRest` | openembedded-core/meta/lib/oe/buildhistory_analysis.py:368-373 | While a tree is struck, additions not reached yet are still in the list, so list.remove never fails. |
| `FileListDiff.CommonPass` | openembedded-core/meta/lib/oe/buildhistory_analysis.py:294-326 | The first loop: changes of common paths, the old-only paths, and what is left of the new dictionary. |
| `FileListDiff.BuildRevMap` | openembedded-core/meta/lib/oe/buildhistory_analysis.py:334-339 | The reverse map holds, for every mask, the removals with that mask in order. |
| `FileListDiff.ScanDirs` | openembedded-core/meta/lib/oe/buildhistory_analysis.py:354-362 | The component scan ends at the first difference without running out of components. |
| `FileListDiff.StrikeTree` | openembedded-core/meta/lib/oe/buildhistory_analysis.py:368-373 | The inner loop over a copy of the list it removes from. |
| `FileListDiff.PairMoves` | openembedded-core/meta/lib/oe/buildhistory_analysis.py:345-379 | The outer loop over a copy of the additions detects the moves and renames. |
| `FileListDiff.CompareDicts` | openembedded-core/meta/lib/oe/buildhistory_analysis.py:291-388 | The loops together compute the comparison. |
| `FileListDiff.CompareFileLists` | openembedded-core/meta/lib/oe/buildhistory_analysis.py:288-388 | The comparison of two listings, or the exception of a line that cannot be split. |
| `FileListDiff.ComparisonConserves` | openembedded-core/meta/lib/oe/buildhistory_analysis.py:288-388 | The report is the changes of common paths and then the reports on the pending lists, which conserve all paths. |
| `FileListDiff.EmptyIffSameViews` | openembedded-core/meta/lib/oe/buildhistory_analysis.py:288-388 | Nothing is reported if and only if both have the same paths and each path looks the same in both. |
| `FileListDiff.EmptyIffSameMap` | openembedded-core/meta/lib/oe/buildhistory_analysis.py:288-388 | With ownership compared, owners and groups free of `/`, and targets exactly for links, nothing is reported if and only if both denote the same map. |
| `FileListDiff.SlashInOwnerHidesChange` | openembedded-core/meta/lib/oe/buildhistory_analysis.py:311-314 | Two listings of one file, with owners x/y:z and x:y/z, whose difference is not reported. |
| `FileChanges.CommonSay` | openembedded-core/meta/lib/oe/buildhistory_analysis.py:294-326 | For paths that both listings have, a change is reported if and only if the two entries differ in that field, with the old value from the first and the new value from the second. |
| `FileChanges.CompareFailsIff` | openembedded-core/meta/lib/oe/buildhistory_analysis.py:316-322 | Comparing fails if and only if the new entry of a common path is a link without a target. |
| `FileChanges.ChangesMean` | openembedded-core/meta/lib/oe/buildhistory_analysis.py:288-388 | What every reported change says of the two listings: added and removed paths, moved files and directories with their only match up to digits and the cut at the first different component. Conversely, every difference of a common path is reported, and every path without a match as added or removed. |
| `FileChanges.ReportInOrder` | openembedded-core/meta/lib/oe/buildhistory_analysis.py:294-388 | Changes of common paths come first, then moves, additions and removals. |
| `FileLeftovers.LeftoversMean` | openembedded-core/meta/lib/oe/buildhistory_analysis.py:347-386 | A path with only one match is reported as added only beside the rename of their directories, and under a reported rename no path is added while its counterpart is removed. |
| `RenamedDirs.TakePair` | openembedded-core/meta/lib/oe/buildhistory_analysis.py:99-105 | The loop that removes from the list it walks over takes exactly the first match, or nothing. |
| `RenamedDirs.DetectRenamedDirs` | openembedded-core/meta/lib/oe/buildhistory_analysis.py:89-111 | The pairs, and both item lists without the items of paired directories. |
| `RenamedDirs.PairsMatch` | openembedded-core/meta/lib/oe/buildhistory_analysis.py:97-105 | The pairs are a partial injection between directories with equal sorted file lists. |
| `RenamedDirs.PairsAreMost` | openembedded-core/meta/lib/oe/buildhistory_analysis.py:97-105 | No matching pairs more directories. |
| `RenamedDirs.SameFilesSameNames` | openembedded-core/meta/lib/oe/buildhistory_analysis.py:92-95 | Paired directories hold the same file names, each as often. |
| `DirItems.LiesInIff` | openembedded-core/meta/lib/oe/buildhistory_analysis.py:90-95 | What dirname and basename of an item are, said by its slashes. |
| `DirItems.SameFilesIff` | openembedded-core/meta/lib/oe/buildhistory_analysis.py:90-102 | Two directories have the same sorted files if and only if every file name is in the one as often as in the other, counted over the items. |
| `RenamedDirs.RenamedDirsMain` | openembedded-core/meta/lib/oe/buildhistory_analysis.py:89-111 | A maximum matching, and filtering takes from each difference exactly the items of its matched directories. |
| `Sorting.SameSortIffSameItems` | openembedded-core/meta/lib/oe/buildhistory_analysis.py:92-100 | Sorted lists are equal if and only if the lists hold the same items. |
| `Sorting.LexIsAlphabetical` | openembedded-core/meta/lib/oe/cve_check.py:51 | The order of strings is decided by the first character that differs, or by being a proper beginning. |
| `Relocation.Relocator.GetArch` | openembedded-core/scripts/relocate_sdk.py:32-50 | The class byte decides between 32 and 64 bits; 0 for a file that is left alone. |
| `Relocation.Relocator.ParseElfHeader` | openembedded-core/scripts/relocate_sdk.py:52-70 | The header fields in the file's byte order. |
| `Relocation.Relocator.ChangeInterpreter` | openembedded-core/scripts/relocate_sdk.py:72-112 | The first PT_INTERP segment is overwritten, left alone or found too small. |
| `Relocation.Relocator.ChangeCache` | openembedded-core/scripts/relocate_sdk.py:155-167 | The .ldsocache section is substituted, stripped, padded and written back, or the run ends. |
| `Relocation.Relocator.ChangeBlocks` | openembedded-core/scripts/relocate_sdk.py:168-184 | The loop over whole 4096-byte blocks, each read at the position the last write left. |
| `Relocation.Relocator.PackPaths` | openembedded-core/scripts/relocate_sdk.py:186-200 | The new search paths up to the first empty one, and their packed lengths. |
| `Relocation.Relocator.WriteBack` | openembedded-core/scripts/relocate_sdk.py:185-209 | Both search path sections are written back. |
| `Relocation.Relocator.ChangeDlSysdirs` | openembedded-core/scripts/relocate_sdk.py:114-209 | The loop over the sections and what follows it. |
| `Relocation.Relocator.Relocate` | openembedded-core/scripts/relocate_sdk.py:246-264 | One file of the run, with the size check at the end. |
| `RelocationFrame.ScanIsGood` | openembedded-core/scripts/relocate_sdk.py:134-184 | Over the section loop every section still to come is original and every section done holds what it should. |
| `RelocationTheorems.RelocationCompletes` | openembedded-core/scripts/relocate_sdk.py:246-264 | A completing run keeps the length and every byte outside the interpreter and the named sections; each whole block is its substituted text padded with zeros. |
| `Replacing.ReplaceGlues` | openembedded-core/scripts/relocate_sdk.py:157 | Replacing all occurrences glues the pieces between them with the new text. |
| `Replacing.PiecesExist` | openembedded-core/scripts/relocate_sdk.py:157 | Every text has such pieces. |
| `Replacing.PiecesUnique` | openembedded-core/scripts/relocate_sdk.py:157 | And only one sequence of them. |
| `RelocationMeaning.AroundOneMarker` | openembedded-core/scripts/relocate_sdk.py:157-194 | Text before and behind a marker stays, with the prefix in between. |
| `RelocationMeaning.RelocationHolds` | openembedded-core/scripts/relocate_sdk.py:72-209 | After a completing run the cache sections and the blocks hold their old texts, and the new lengths cut the search path section into the old paths, each with the prefix for every marker; and what the interpreter segment holds. |
| `RelocationVerdict.CompletesIff` | openembedded-core/scripts/relocate_sdk.py:72-264 | The exact condition under which a run completes: the headers it needs can be read, every new text fits with a zero behind it, and the search paths have a section for their lengths; and exactly when it says that the path of the loader is too long. |
| `RelocationTheorems.HeadersReparse` | openembedded-core/scripts/relocate_sdk.py:52-93 | The relocated file has the same header, name table, segments and sections. |
| `ElfLayout.HeaderReadsBack` | openembedded-core/scripts/relocate_sdk.py:32-70 | Every header laid out field by field as ELF has it, in either width and byte order, is read back. |
| `ElfLayout.SegmentReadsBack` | openembedded-core/scripts/relocate_sdk.py:72-89 | So is every program header. |
| `ElfLayout.SectionReadsBack` | openembedded-core/scripts/relocate_sdk.py:134-139 | So is every section header. |
| `ElfLayout.KindByName` | openembedded-core/scripts/relocate_sdk.py:141-168 | A section is treated by its name in the table of names. |
| `RelocationTheorems.SysdirsCutBack` | openembedded-core/scripts/relocate_sdk.py:185-209 | Cutting the new .sysdirs bytes with the lengths in .sysdirslen gives the old paths up to the first empty one, each with the prefix substituted. |
| `RelocationOverflow.SysdirsOverflow` | openembedded-core/scripts/relocate_sdk.py:202-209 | A run whose new search paths are too long ends as if they fitted; the bytes behind the section become the rest of them or the lengths, and the frame is kept if and only if those bytes were that text before. |
| `RelocationOverflow.OverflowingWrite` | openembedded-core/scripts/relocate_sdk.py:202-209 | Only a write past the end of the file shows, by the size of the file. |
| `RelocationOverflow.LongPrefixOverflows` | openembedded-core/scripts/relocate_sdk.py:194-209 | A small case: every prefix longer than the marker overwrites what is behind a section that holds the marker. |
| `LockedSigs.ReadMain` | openembedded-core/meta/lib/oe/copy_buildsystem.py:199-212 | The line loop reads the sections and their order. |
| `LockedSigs.MergeExtra` | openembedded-core/meta/lib/oe/copy_buildsystem.py:214-233 | The line loop merges the extra file, or fails on a line without a colon. |
| `LockedSigs.WriteSigsFile` | openembedded-core/meta/lib/oe/copy_buildsystem.py:235-246 | The sections with at least one line, in order, and the line of their types. |
| `LockedSigs.MergeLockedSigs` | openembedded-core/meta/lib/oe/copy_buildsystem.py:198-251 | Both files written; their orders list exactly their sections. |
| `MergedSections.NewLinesInOrder` | openembedded-core/meta/lib/oe/copy_buildsystem.py:220-225 | New lines come once each, in the order of first occurrence. |
| `MergeSteps.UnionStep` | openembedded-core/meta/lib/oe/copy_buildsystem.py:217-233 | One line of the extra file keeps the union law. |
| `LockedSigsTheorems.MergeIsUnion` | openembedded-core/meta/lib/oe/copy_buildsystem.py:198-233 | merged[t] is main[t] and then the first occurrences of the lines of extra[t] that are not there; the same for the copied lines and the orders. |
| `LockedSigsTheorems.CopiedLines` | openembedded-core/meta/lib/oe/copy_buildsystem.py:221-225 | Copied lines are in merged, not in main, and of a task asked for. |
| `SigLines.LineNames` | openembedded-core/meta/lib/oe/copy_buildsystem.py:183-184 | The target and the task of a line are what stands in it before the first and before the second colon, white space at its ends apart. |
| `SigLines.UsualLine` | openembedded-core/meta/lib/oe/copy_buildsystem.py:221-223 | In the usual line, spaces, target, task, hash and a backslash, they are the target and the task. |
| `SigLines.CopiedForTasks` | openembedded-core/meta/lib/oe/copy_buildsystem.py:213-228 | A line with a target and a task is copied if and only if the extra file has it, the main file has not, and its task is asked for. |
| `SigLines.CopiedInOrder` | openembedded-core/meta/lib/oe/copy_buildsystem.py:213-228 | The copied lines of a section come once each, in the order of the extra file. |
| `SigLines.MergeFailsIff` | openembedded-core/meta/lib/oe/copy_buildsystem.py:219-222 | Merging fails if and only if a line that is new to its section has no colon. |
| `SigLines.TypesReadBack` | openembedded-core/meta/lib/oe/copy_buildsystem.py:246 | The names on the line of types are read again by cutting at spaces. |
| `LockedSigsTheorems.WrittenReadsBack` | openembedded-core/meta/lib/oe/copy_buildsystem.py:235-246 | A written file reads back as its non-empty sections in order. |
| `LockedSigsTheorems.MergedFileReadsBack` | openembedded-core/meta/lib/oe/copy_buildsystem.py:198-251 | The merged file reads back as the merged sections. |
| `LockedSigsTheorems.MergedTextReadsBack` | openembedded-core/meta/lib/oe/copy_buildsystem.py:198-251 | The same on file texts, cut into lines by their line feeds. |
| `LockedSigsTheorems.MergingAgainChangesNothing` | openembedded-core/meta/lib/oe/copy_buildsystem.py:198-251 | Merging the same extra file again succeeds, writes the same file and copies nothing. |
| `TextLines.TextReadsBack` | openembedded-core/meta/lib/oe/copy_buildsystem.py:239-243 | Lines written one after the other are read again as these lines. |
| `TextLines.LinesReadBackIff` | openembedded-core/meta/lib/rootfspostcommands.py:33 | Lines written one after the other are read again if and only if each but the last ends in a newline. |
| `PruneSigs.PruneLockedSigs` | openembedded-core/meta/lib/oe/copy_buildsystem.py:176-196 | The line loop writes what pruning leaves, up to a line without a colon. |
| `PruneSigs.PruneFailsIff` | openembedded-core/meta/lib/oe/copy_buildsystem.py:183-185 | Pruning fails if and only if a value line has no colon, whatever is excluded. |
| `PruneSigs.PruneTwice` | openembedded-core/meta/lib/oe/copy_buildsystem.py:176-196 | Pruning a pruned file is pruning with both exclusions at once. |
| `PruneSigs.PruneAgain` | openembedded-core/meta/lib/oe/copy_buildsystem.py:176-196 | Pruning is idempotent, and two prunings can be exchanged. |
| `PruneSigs.PrunedSections` | openembedded-core/meta/lib/oe/copy_buildsystem.py:176-196 | The pruned file has the same sections in the same order, each with exactly the lines the filter keeps. |
| `PruneSigs.PrunedFile` | openembedded-core/meta/lib/oe/copy_buildsystem.py:194-196 | The same for a file that ends with the line of types, which is kept. |
| `SigLines.StaysForNames` | openembedded-core/meta/lib/oe/copy_buildsystem.py:176-196 | A line with a target and a task stays in its section if and only if neither is excluded and, with onlynative, nativesdk is in the target. |
| `PrunedLines.PrunedPlaces` | openembedded-core/meta/lib/oe/copy_buildsystem.py:176-196 | The pruned file is exactly these lines, in order: those that start a value, the wanted lines of values, and those that close one. |
| `SortPasswd.Etc.SortFile` | openembedded-core/meta/lib/rootfspostcommands.py:7-34 | The file is overwritten by its sorted lines and the mapping returned; on an exception it stays as it was. |
| `SortPasswd.Etc.RemoveBackup` | openembedded-core/meta/lib/rootfspostcommands.py:36-42 | Exactly the backup disappears. |
| `SortPasswd.Etc.SortMainAndShadow` | openembedded-core/meta/lib/rootfspostcommands.py:51-60 | One main file, then its shadow by the mapping of the main file. |
| `SortPasswd.Etc.SortPasswdFiles` | openembedded-core/meta/lib/rootfspostcommands.py:44-67 | Both pairs, then the other backups. |
| `SortPasswd.LexWithinNames` | openembedded-core/meta/lib/rootfspostcommands.py:28-30 | Comparing lines of different names is decided inside "name:". |
| `SortPasswd.TieBreakByName` | openembedded-core/meta/lib/rootfspostcommands.py:28-30 | Two users' lines compare alike in any two files. |
| `SortPasswd.ShadowFollowsPasswd` | openembedded-core/meta/lib/rootfspostcommands.py:7-60 | The sorted lists are permutations, and shadow lists its users in the order of passwd even where ids collide. |
| `SortPasswd.SortedFileReadsBack` | openembedded-core/meta/lib/rootfspostcommands.py:31-33 | The sorted file, read again, has the sorted lines if and only if each but the last ends in a newline. |
| `SortPasswd.FilesFollow` | openembedded-core/meta/lib/rootfspostcommands.py:44-67 | The files that sort_passwd leaves: shadow follows passwd and gshadow follows group, with all their lines, unless a line without a newline is glued to the next. |
| `EtcOrder.MainFileByNumber` | openembedded-core/meta/lib/rootfspostcommands.py:7-60 | passwd and group are left with the lines they had, by the number in the third colon field and then alphabetically. |
| `EtcOrder.ShadowFileByNumber` | openembedded-core/meta/lib/rootfspostcommands.py:7-60 | shadow and gshadow are left with the lines they had, by the numbers that the main file has for their names and then alphabetically. |
| `EtcOrder.MainReadsIff` | openembedded-core/meta/lib/rootfspostcommands.py:18-27 | A main file is read without an exception if and only if every line has a number in its third field. |
| `EtcOrder.ShadowReadsIff` | openembedded-core/meta/lib/rootfspostcommands.py:18-27 | A shadow file is read without an exception if and only if the mapping has all its names. |
| `EtcOrder.SortsIff` | openembedded-core/meta/lib/rootfspostcommands.py:44-67 | sort_passwd ends without an exception if and only if every line of each main file has a number and each shadow file has only names of its main file. |
| `EtcOrder.OthersStay` | openembedded-core/meta/lib/rootfspostcommands.py:36-67 | The backups are gone, those of shadow and gshadow only beside their main file, and every other file is as it was. |
| `BinaryText.FormatReadsBack` | meta-rdk-ext/recipes-support/webcfg/webcfg/metadata_parser.py:141-144 | int undoes format for every number and width. |
| `BinaryText.FormatLength` | meta-rdk-ext/recipes-support/webcfg/webcfg/metadata_parser.py:141-144 | A number below 2^(w-2) fills the width exactly. |
| `BinaryText.OrBits` | meta-rdk-ext/recipes-support/webcfg/webcfg/metadata_parser.py:142-143 | A bit of a bitwise or is a bit of either. |
| `Webcfg.Parser.CalculateBit` | meta-rdk-ext/recipes-support/webcfg/webcfg/metadata_parser.py:131-148 | The group text gains one bit; both numbers are read from texts. |
| `Webcfg.Parser.ProcessDoc` | meta-rdk-ext/recipes-support/webcfg/webcfg/metadata_parser.py:118-128 | A complete, supported document sets the number of its group and, above version 1.0, adds its own. |
| `Webcfg.Parser.ProcessDocs` | meta-rdk-ext/recipes-support/webcfg/webcfg/metadata_parser.py:31-79 | The loops over documents and keys; variables of an incomplete document stay for the next one. |
| `Webcfg.AppendBitPacks` | meta-rdk-ext/recipes-support/webcfg/webcfg/metadata_parser.py:152-154 | Appending texts packs the group id above 24 bits. |
| `Webcfg.NumbersInjective` | meta-rdk-ext/recipes-support/webcfg/webcfg/metadata_parser.py:131-148 | Numbers of single documents determine group and bit position. |
| `Webcfg.KeysInAnyOrder` | meta-rdk-ext/recipes-support/webcfg/webcfg/metadata_parser.py:44-57 | Nothing a group does depends on the order of the keys in its documents. |
| `Webcfg.GroupIsPacked` | meta-rdk-ext/recipes-support/webcfg/webcfg/metadata_parser.py:31-79 | A group's number is g·2^24 plus the union of the supported bits, or unchanged when nothing is supported; no other number changes. |
| `Webcfg.VersionsAreNew` | meta-rdk-ext/recipes-support/webcfg/webcfg/metadata_parser.py:118-128 | The version list gains, in order, g·2^24 + 2^(p-1) for every supported document above version 1.0. |
| `Webcfg.GroupNumberUnique` | meta-rdk-ext/recipes-support/webcfg/webcfg/metadata_parser.py:31-79 | The number depends on the supported bit positions alone. |
| `WebcfgEdges.IncompleteJoinsNext` | meta-rdk-ext/recipes-support/webcfg/webcfg/metadata_parser.py:41-79 | A document that leaves a mandatory key open is read as one document with the next. |
| `WebcfgEdges.DocFailsIff` | meta-rdk-ext/recipes-support/webcfg/webcfg/metadata_parser.py:118-148 | A complete document fails if and only if it is supported and has no bit position from 1 on, or its group has no entry, or its version is not a number. |
| `WebcfgEdges.GroupZeroIsLast` | meta-rdk-ext/recipes-support/webcfg/webcfg/metadata_parser.py:118-128 | The id 0 sets the last entry. |
| `Webcfg.OneGroup` | meta-rdk-ext/recipes-support/webcfg/webcfg/metadata_parser.py:176-188 | The id and the documents of a group object may stand in either order, with other members anywhere. |
| `Webcfg.JsonRead` | meta-rdk-ext/recipes-support/webcfg/webcfg/metadata_parser.py:165-188 | The loops over groups and their members. |
| `Webcfg.FileIsPacked` | meta-rdk-ext/recipes-support/webcfg/webcfg/metadata_parser.py:165-188 | With distinct ids in range and well-formed documents nothing fails and every group has its own number at the end. |
| `Nevr.NameEndIsLast` | openembedded-core/scripts/lib/buildstats.py:216-222 | The greedy name stops at the last dash where the text can be split. |
| `Nevr.TailInverts` | openembedded-core/scripts/lib/buildstats.py:216-222 | Printed epoch and version are read back if and only if both are good and a version alone does not look like an epoch and a version. |
| `Nevr.MatchPrints` | openembedded-core/scripts/lib/buildstats.py:216-222 | Printing what a pattern split off gives the text again. |
| `Nevr.SplitInvertsNevr` | openembedded-core/scripts/lib/buildstats.py:147-227 | Splitting a recipe's text gives the recipe back if and only if its revision has no dash and its parts fit one of the patterns. |
| `Nevr.UsualRecipesSplit` | openembedded-core/scripts/lib/buildstats.py:147-227 | Names without white space, epochs of one to five digits or none, and plain versions that start with a digit always come back. |
| `Nevr.SplitPrints` | openembedded-core/scripts/lib/buildstats.py:214-227 | The parts of any text that can be split print it again, but for one line feed that the first pattern drops. |
| `Versions.StripCuts` | openembedded-core/meta/lib/oe/cve_check.py:54-57 | Reversing, dropping zeros and reversing cuts off exactly the zeros at the end. |
| `Versions.StrippedIsPadded` | openembedded-core/meta/lib/oe/cve_check.py:53-58 | Comparing stripped releases is comparing infinite sequences padded with zeros, for equality and order. |
| `Versions.TotalPreorder` | openembedded-core/meta/lib/oe/cve_check.py:12-51 | The comparisons are a total preorder whose equivalence is `==`, and the derived `<` is the converse of `>`. |
| `Versions.GreaterMeans` | openembedded-core/meta/lib/oe/cve_check.py:43-65 | What decides between two versions, said without keys. |
| `VersionTexts.UpperMeans` | openembedded-core/meta/lib/oe/cve_check.py:59 | Patches count alike if and only if their letters are the same, upper or lower case. |
| `VersionTexts.LeadingZero` | openembedded-core/meta/lib/oe/cve_check.py:64 | Zeros in front of the number of a pre-release do not count. |
| `VersionTexts.DigitsDecide` | openembedded-core/meta/lib/oe/cve_check.py:64 | Of two numbers with as many digits, the first digit that differs decides. |
| `Versions.PreReleaseBeforeFinal` | openembedded-core/meta/lib/oe/cve_check.py:61-64 | With equal release and patch any pre-release is before the final release. |
| `Versions.LabelsDoNotCount` | openembedded-core/meta/lib/oe/cve_check.py:61-65 | Pre-releases with the same number are equal whatever their labels, alpha or rc. |

## Left out

- `CachedPath.walk`, whose callers may edit the directories it yields.
- Negative `loop_cnt` (it never reaches 0 again), permission errors, and file systems that change during a call; `stat` is a table given with the file system.
- PhysDirFlag.FlagMakesNoDifference: for a root that is no link; the root `//` with a file that normalises to `/` is excluded, where both values answer but with different texts.
- PosixTheorems.RealPathIsPosix: the condition is exact for each link text, not for each file system: an unsafe text may stand where it does no harm.
- PosixTheorems.WrittenFileIsPosix: for a file without `..`; `..` in the file itself is resolved by lines 209-210 before any link is looked at.
- RealPathTheorems.RealPathIsCanonical: for the root `//` that root must be a directory (or assume_dir set), because it is asked for again in another way.
- Python's own parser for licence elements: any tree whose tokens in order are the elements stands for its result; `fnmatch` and the canonical names are parameters.
- LicenseFilter.ManifestParsesIff: says when a filtered string is an expression, not what it means; of operators in a row only the last is kept, so an OR can become an AND.
- `list_licenses` and `apply_pkg_license_exception`: plain filters over what the modelled visitors return.
- FileListDiff.ComparisonConserves: claims are on the pending lists; one old path can be named in several move reports, and the prefix test at line 369 is on strings, not path components.
- RenamedDirs.DetectRenamedDirs: the iteration order of Python's sets is a parameter; the results hold for every order.
- `compare_pkg_lists`, `compare_siglists` and `process_changes`, which rest on code outside the repository.
- Python 2 in `relocate_sdk.py`, permissions, arguments and messages. In Python 3 the check of the ELF magic compares bytes with a string, so only the first byte decides; the model follows the code.
- Template escapes of `re.sub` in the new prefix: the marker is replaced by plain text.
- RelocationTheorems.RelocationCompletes: assumes that the written ranges are inside the file and apart, and that the search paths fit, which the source does not check.
- RelocationVerdict.CompletesIff: assumes the same, and so does `RelocationMeaning.RelocationHolds`.
- The rest of `copy_buildsystem.py`, and universal newlines: a line ends at a line feed.
- PruneSigs.PrunedSections: assumes that lines with the prefix start a section of a type; any other such line makes the next one part of a value.
- LockedSigsTheorems.MergeIsUnion: assumes that no section is repeated in the extra file, since a repeated one is copied afresh.
- SigLines.CopiedForTasks: assumes the same, and so do `SigLines.CopiedInOrder` and `SigLines.MergeFailsIff`.
- EtcOrder.MainFileByNumber: for one line of each name, and so is `EtcOrder.ShadowFileByNumber`; of a repeated name the last number counts for all its lines.
- `int` on a passwd field is a parameter that may fail, and bytes are characters.
- The text of webcfg's version list, `bit_position_map`, the supplementary documents, the output writer, negative group ids and several matching devices; `float(version) > 1.0` is a parameter that may fail.
- `BSRecipe.aggregate`, the tasks of recipes and the reading of build statistics.
- The patterns that parse version strings, CVE tags, the rounding and overflow of `float`, and case mapping outside ASCII; patch numbers are compared as strings, as the source does.
