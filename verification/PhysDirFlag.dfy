/** What the flag `use_physdir` of realpath may be left out for. */
module PhysDirFlag {
  import opened CachedPaths
  import opened FileSystems
  import opened PathWalk
  import opened PosixPath
  import opened RealPathRefinement
  import opened RealPathTheorems
  import opened Splitting

  /** Nothing in front of the last component needs resolving: no link is there and,
      unless that is assumed, every component in front of it is a directory. */
  ghost predicate Trusted(fs: FileSystem, root: string, todo: seq<string>, assumeDir: bool) {
    todo == [] || (&& IsName(todo[|todo| - 1]) && todo[|todo| - 1] != ".."
                   && Settled(fs, root, Parent(todo), assumeDir)
                   && (assumeDir || IsDir(fs, Place(root, Parent(todo)))))
  }

  /** Components with nothing to resolve in front of the last one lead to it. */
  lemma {:induction false} RelOfTrusted(fs: FileSystem, root: string, at: seq<string>, cs: seq<string>, c: string,
                                        k: nat, assumeDir: bool)
    requires IsRoot(root) && Settled(fs, root, at + cs, assumeDir)
    requires assumeDir || IsDir(fs, Place(root, at + cs))
    requires IsName(c) && c != ".."
    ensures RelFrom(fs, Place(root, at), cs + [c], IsDir(fs, Place(root, at)), root, k, assumeDir)
            == PathOnly(Phys(fs, Place(root, at + cs + [c]), root, k, assumeDir))
    decreases |cs|
  {
    hide IsLink, IsDir, NormPath, Phys, Place, JoinPath, DirName, IsName;
    var todo := cs + [c];
    PrefixIsSettled(fs, root, at, cs, assumeDir);
    if cs == [] {
      assert at + cs == at && todo[1..] == [];
      PlaceDenotes(root, at);
      JoinPathDenotes(Place(root, at), root, at, c);
    } else {
      var d, rest := cs[0], cs[1..];
      assert todo[0] == d && todo[1..] == rest + [c];
      assert at + cs == (at + [d]) + rest && at + cs + [c] == (at + [d]) + rest + [c];
      assert (at + cs)[|at|] == d && d in at + cs;
      PlaceDenotes(root, at);
      JoinPathDenotes(Place(root, at), root, at, d);
      PrefixIsSettled(fs, root, at + [d], rest, assumeDir);
      SettledIsNoLink(fs, root, at + [d], assumeDir);
      PhysOfNoLink(fs, Place(root, at + [d]), root, k, assumeDir);
      RelOfTrusted(fs, root, at + [d], rest, c, k, assumeDir);
    }
  }

  lemma PrefixIsSettled(fs: FileSystem, root: string, at: seq<string>, cs: seq<string>, assumeDir: bool)
    requires Settled(fs, root, at + cs, assumeDir) && (assumeDir || IsDir(fs, Place(root, at + cs)))
    ensures Settled(fs, root, at, assumeDir) && (assumeDir || IsDir(fs, Place(root, at)))
  {
    hide IsLink, IsDir, Place, IsName;
    var whole := at + cs;
    assert forall k :: 0 <= k <= |at| ==> at[..k] == whole[..k];
    assert whole[..|at|] == at && whole[..|whole|] == whole;
    assert forall c :: c in at ==> c in whole;
  }

  /** A file below the root, as text, is the place of its components. */
  lemma FileIsPlace(file: string, root: string)
    requires IsPathBelow(NormPath(file), RootOf(root)) && TodoOf(file, root) != []
    ensures NormPath(file) == Place(RootOf(root), TodoOf(file, root))
  {
    hide NormPath;
    var r, f := RootOf(root), NormPath(file);
    RootOfIsRoot(root);
    NothingToDo(file, root);
    BelowIsInside(f, r);
    var rest := f[|r|..];
    assert "" + [SEP] + rest == f[|r| - 1..];
    SplitAppend("", rest, SEP);
    JoinOfSplit(rest, SEP);
    assert f == r + rest;
  }

  /** There is nothing to do exactly for the root without its last slash. */
  lemma NothingToDo(file: string, root: string)
    requires IsPathBelow(NormPath(file), RootOf(root))
    ensures TodoOf(file, root) == [] <==> |NormPath(file)| < |RootOf(root)|
  {
    hide NormPath;
    var r, f := RootOf(root), NormPath(file);
    RootOfIsRoot(root);
    if |f| < |r| {
      assert f[|r| - 1..] == "";
    } else {
      BelowIsInside(f, r);
      assert "" + [SEP] + f[|r|..] == f[|r| - 1..];
      SplitAppend("", f[|r|..], SEP);
    }
  }

  /** Both answers, or both errors, are the same; paths up to normpath. */
  ghost predicate SameOutcome(r: Result<string, RealPathError>, q: Result<string, RealPathError>) {
    if r.Ok? && q.Ok? then NormPath(r.value) == NormPath(q.value) else r == q
  }

  /** Main result: where nothing in front of the last component needs resolving, realpath
      answers the same with and without the flag. ("/" counts as below the root "//".) */
  lemma FlagMakesNoDifference(fs: FileSystem, file: string, root: string, loopCnt: nat, assumeDir: bool)
    requires !IsLink(fs, RootOf(root)) && !(NormPath(file) == "/" && RootOf(root) == "//")
    requires IsPathBelow(NormPath(file), RootOf(root)) ==> Trusted(fs, RootOf(root), TodoOf(file, root), assumeDir)
    ensures SameOutcome(RealPath(fs, file, root, false, loopCnt, assumeDir),
                        RealPath(fs, file, root, true, loopCnt, assumeDir))
  {
    hide NormPath, IsLink, IsDir, RelFrom, Phys, Place, TodoOf, RootOf, Settled, IsName;
    var r, f := RootOf(root), NormPath(file);
    RootOfIsRoot(root);
    if IsPathBelow(f, r) {
      var todo := TodoOf(file, root);
      RealPathUnfolds(fs, file, root, loopCnt, assumeDir);
      if todo == [] {
        FileIsRoot(fs, file, root, loopCnt, assumeDir);
      } else {
        var cs, c := Parent(todo), todo[|todo| - 1];
        assert todo == cs + [c] && [] + cs == cs && [] + cs + [c] == todo;
        RelOfTrusted(fs, r, [], cs, c, loopCnt, assumeDir);
        FileIsPlace(file, root);
        assert Place(r, []) == r by { PlaceOfNone(r); }
      }
    }
  }

  lemma PlaceOfNone(root: string)
    ensures Place(root, []) == root
  {
    assert root + "" == root;
  }

  /** The root itself, written without its last slash. */
  lemma FileIsRoot(fs: FileSystem, file: string, root: string, loopCnt: nat, assumeDir: bool)
    requires IsPathBelow(NormPath(file), RootOf(root)) && TodoOf(file, root) == [] && !IsLink(fs, RootOf(root))
    requires !(NormPath(file) == "/" && RootOf(root) == "//")
    ensures Phys(fs, NormPath(file), RootOf(root), loopCnt, assumeDir)
            == Ok((NormPath(file), IsDir(fs, NormPath(file))))
    ensures RelFrom(fs, RootOf(root), [], IsDir(fs, RootOf(root)), RootOf(root), loopCnt, assumeDir) == Ok(RootOf(root))
    ensures NormPath(NormPath(file)) == NormPath(RootOf(root))
  {
    hide NormPath, IsLink, IsDir, Follow;
    var r, f := RootOf(root), NormPath(file);
    RootOfIsRoot(root);
    NothingToDo(file, root);
    assert f + [SEP] == r;
    NormPathEnd(file);
    NormPathIdempotent(file);
    SlashRoots(root);
    assert r[..|r| - 1] == f && AllSlashes(f) ==> AllSlashes(r);
    if !EndsWithSep(f) { NormPathDropsLastSlash(f); }
  }
}
