/** realpath with `use_physdir` against pathname resolution as POSIX has it. */
module PosixTheorems {
  import opened CachedPaths
  import opened FileSystems
  import opened PathWalk
  import opened PosixPath
  import opened PosixWalks
  import opened RealPathTheorems
  import opened Splitting

  ghost predicate AllSafe(fs: FileSystem, assumeDir: bool) {
    forall p :: p in fs.nodes && fs.nodes[p].Link? ==> Safe(fs.nodes[p].target, assumeDir)
  }

  /** The walk of `todo` and realpath end alike: whatever realpath answers is the answer
      for some number of links, and an answer within the counter is realpath's. */
  ghost predicate EndsAlike(fs: FileSystem, file: string, root: string, todo: seq<string>, loopCnt: nat,
                            assumeDir: bool) {
    var r, top := RealPath(fs, file, root, true, loopCnt, assumeDir), RootOf(root);
    && (!TooMany(r) ==> exists links: nat :: Agrees(r, PosixWalk(fs, top, [], todo, links, assumeDir), top))
    && (forall links: nat :: links <= loopCnt && !PosixWalk(fs, top, [], todo, links, assumeDir).Exhausted?
          ==> Agrees(r, PosixWalk(fs, top, [], todo, links, assumeDir), top))
  }

  ghost predicate FollowsPosix(fs: FileSystem, file: string, root: string, loopCnt: nat, assumeDir: bool)
    requires IsPathBelow(NormPath(file), RootOf(root))
  {
    EndsAlike(fs, file, root, TodoOf(file, root), loopCnt, assumeDir)
  }

  lemma SafeIsNoDot(text: string, assumeDir: bool)
    requires Safe(text, assumeDir)
    ensures NormPath(text) != "."
  {
    hide NormPath, Clean, Moves;
    AbsStays(text);
    if !IsAbs(text) {
      RedirectionMoves(text);
      CleanOfSafe(false, [], Split(text, SEP));
      assert [] + Moves(Split(text, SEP)) == Moves(Split(text, SEP));
      DotMovesNowhere();
    }
  }

  lemma DotMovesNowhere()
    ensures Moves(Split(".", SEP)) == [] && !IsAbs(".")
  {
    SplitFree(".", SEP);
  }

  /** Agreement with POSIX: where every link text is safe, realpath ends where POSIX
      pathname resolution of the (normalised) file does, with the same errors. */
  lemma RealPathIsPosix(fs: FileSystem, file: string, root: string, loopCnt: nat, assumeDir: bool)
    requires !IsLink(fs, RootOf(root)) && IsPathBelow(NormPath(file), RootOf(root))
    requires AllSafe(fs, assumeDir)
    ensures FollowsPosix(fs, file, root, loopCnt, assumeDir)
  {
    hide NormPath, IsLink, Walk, PosixWalk, TodoOf, RealPath, Agrees, IsPathBelow, NoUpAfterName, Moves, RootOf,
         EndsInName;
    forall p | p in fs.nodes && fs.nodes[p].Link?
      ensures NormPath(fs.nodes[p].target) != "."
    {
      SafeIsNoDot(fs.nodes[p].target, assumeDir);
    }
    var top, todo := RootOf(root), TodoOf(file, root);
    forall links: nat
      ensures PlainWalk(fs, file, root, links, assumeDir, false) == PosixWalk(fs, top, [], todo, links, assumeDir)
    {
      WalkIsPosix(fs, top, [], todo, links, assumeDir);
    }
    RealPathIsPlainWalk(fs, file, root, loopCnt, assumeDir, false);
    var r := RealPath(fs, file, root, true, loopCnt, assumeDir);
    if !TooMany(r) {
      var n: nat :| Agrees(r, PlainWalk(fs, file, root, n, assumeDir, false), top);
      assert Agrees(r, PosixWalk(fs, top, [], todo, n, assumeDir), top);
    }
  }

  // ---------------------------------------------------------------------
  // The file as it is written
  // ---------------------------------------------------------------------

  lemma {:induction false} MovesAreNames(cs: seq<string>)
    requires SeparatorFree(cs, SEP) && ".." !in cs
    ensures Names(Moves(cs)) && NoDots(Moves(cs)) && WithoutDots(Moves(cs)) == Moves(cs)
  {
    if cs == [] {
    } else {
      assert cs[0] in cs && forall c :: c in cs[1..] ==> c in cs;
      MovesAreNames(cs[1..]);
      if Stays(cs[0]) {
        assert [] + Moves(cs[1..]) == Moves(cs[1..]);
      } else {
        assert ([cs[0]] + Moves(cs[1..]))[1..] == Moves(cs[1..]);
      }
    }
  }

  lemma SlashesOfWritten(root: string, rest: string)
    requires IsRoot(root) && !IsAbs(rest)
    ensures LeadingSlashes(root + rest) == LeadingSlashes(root)
  {}

  /** Below the root, a text without `..` is normalised to its names. */
  lemma NormOfWritten(root: string, rest: string)
    requires IsRoot(root) && !IsAbs(rest) && ".." !in Split(rest, SEP)
    ensures NormPath(root + rest) == NormPath(Place(root, Moves(Split(rest, SEP))))
  {
    hide Clean, Split, Join, Moves, LeadingSlashes, IsName;
    var n, base, cs := LeadingSlashes(root), root[..|root| - 1], Split(rest, SEP);
    assert base + [SEP] + rest == root + rest;
    SlashesOfWritten(root, rest);
    SplitAppend(base, rest, SEP);
    CleanAppend(n > 0, [], Split(base, SEP), cs);
    CleanNoUps(n > 0, Clean(n > 0, [], Split(base, SEP)), cs);
    MovesAreNames(cs);
    NormPathOfPlace(root, Moves(cs));
  }

  /** A file written below the root, without `..`, and with a name at its end unless
      directories are assumed, is resolved as it is written. */
  lemma WrittenFileIsPosix(fs: FileSystem, rest: string, root: string, loopCnt: nat, assumeDir: bool)
    requires !IsLink(fs, RootOf(root)) && NormPath(root) != "." && AllSafe(fs, assumeDir)
    requires !IsAbs(rest) && ".." !in Split(rest, SEP)
    requires assumeDir || !Stays(Split(rest, SEP)[|Split(rest, SEP)| - 1])
    ensures EndsAlike(fs, RootOf(root) + rest, root, Split(rest, SEP), loopCnt, assumeDir)
  {
    hide NormPath, IsLink, PosixWalk, TodoOf, RealPath, Agrees, IsPathBelow, Moves, RootOf, AllSafe;
    var top, cs, file := RootOf(root), Split(rest, SEP), RootOf(root) + rest;
    RootOfIsRoot(root);
    NormOfWritten(top, rest);
    MovesAreNames(cs);
    TodoOfPlace(file, root, Moves(cs));
    RealPathIsPosix(fs, file, root, loopCnt, assumeDir);
    forall links: nat
      ensures PosixWalk(fs, top, [], TodoOf(file, root), links, assumeDir)
              == PosixWalk(fs, top, [], cs, links, assumeDir)
    {
      OnlyMoves(fs, top, [], cs, links, assumeDir);
      if TodoOf(file, root) != Moves(cs) {
        if !assumeDir { MovesKeepLast(cs); }
        AskRoot(fs, top, links);
      }
    }
    SameEnds(fs, file, root, TodoOf(file, root), cs, loopCnt, assumeDir);
  }

  lemma AskRoot(fs: FileSystem, top: string, left: nat)
    ensures PosixWalk(fs, top, [], [""], left, true) == PosixWalk(fs, top, [], [], left, true)
  {
    hide IsDir, IsLink;
    assert [""][1..] == [];
  }

  lemma SameEnds(fs: FileSystem, file: string, root: string, todo: seq<string>, cs: seq<string>, loopCnt: nat,
                 assumeDir: bool)
    requires EndsAlike(fs, file, root, todo, loopCnt, assumeDir)
    requires forall links: nat :: PosixWalk(fs, RootOf(root), [], todo, links, assumeDir)
                                  == PosixWalk(fs, RootOf(root), [], cs, links, assumeDir)
    ensures EndsAlike(fs, file, root, cs, loopCnt, assumeDir)
  {
    hide PosixWalk, RealPath, Agrees, RootOf;
    var r, top := RealPath(fs, file, root, true, loopCnt, assumeDir), RootOf(root);
    if !TooMany(r) {
      var n: nat :| Agrees(r, PosixWalk(fs, top, [], todo, n, assumeDir), top);
      assert Agrees(r, PosixWalk(fs, top, [], cs, n, assumeDir), top);
    }
  }
}
