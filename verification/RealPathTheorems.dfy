/** The main results about CachedPath.realpath with `use_physdir`, for a root that
    is not itself a link. */
module RealPathTheorems {
  import opened Splitting
  import opened PosixPath
  import opened FileSystems
  import opened CachedPaths
  import opened PathWalk
  import opened RealPathRefinement

  /** The components of `file` below the root. */
  function TodoOf(file: string, root: string): seq<string>
    requires IsPathBelow(NormPath(file), RootOf(root))
  {
    Split(NormPath(file)[|RootOf(root)| - 1..], SEP)[1..]
  }

  function PlainWalk(fs: FileSystem, file: string, root: string, links: nat, assumeDir: bool, literal: bool): Walked
    requires IsPathBelow(NormPath(file), RootOf(root))
  {
    Walk(fs, RootOf(root), [], TodoOf(file, root), links, assumeDir, literal)
  }

  /** The same outcome: a text for the place the walker reached, or the same place
      found not to be a directory. */
  ghost predicate Agrees(r: Result<string, RealPathError>, w: Walked, root: string) {
    match r
    case Ok(p) => w.Arrived? && Denotes(p, root, w.at)
    case Err(Reraised(NoSuchDirectory(p))) => w.NotADirectory? && Denotes(p, root, w.at)
    case Err(TooManyLinks(_, _)) => w.Exhausted?
    case Err(_) => false
  }

  predicate TooMany(r: Result<string, RealPathError>) {
    r.Err? && r.error.TooManyLinks?
  }

  lemma TopComponents(file: string, root: string)
    requires IsPathBelow(NormPath(file), RootOf(root))
    ensures var r, f := RootOf(root), NormPath(file);
            var cs := Split(f[|r| - 1..], SEP);
            && cs == [""] + TodoOf(file, root) && Doable(cs, r, r) && NoDots(TodoOf(file, root))
            && Doable(TodoOf(file, root), r, r)
  {
    hide NormPath, IsDot;
    var r, f := RootOf(root), NormPath(file);
    RootOfIsRoot(root);
    if |f| < |r| {
      assert f[|r| - 1..] == "";
      assert Split("", SEP) == [""];
    } else {
      BelowIsInside(f, r);
      var base, rest := r[..|r| - 1], f[|r|..];
      assert base + [SEP] == r;
      assert base + [SEP] + rest == f;
      assert "" + [SEP] + rest == f[|r| - 1..];
      SplitAppend(base, rest, SEP);
      SplitAppend("", rest, SEP);
      assert TodoOf(file, root) == Split(rest, SEP);
      NormPathComponents(file);
      SuffixLeads(Split(base, SEP), Split(rest, SEP));
      assert f != ".";
      NormPathNoDots(file);
      assert forall c :: c in Split(rest, SEP) ==> c in Split(f, SEP);
    }
  }

  lemma SuffixLeads(xs: seq<string>, ys: seq<string>)
    requires LeadingEmpties(xs + ys)
    ensures LeadingEmpties(ys) && LeadingEmpties([""] + ys)
  {
    forall i, j | 0 <= i < j < |ys| && |ys[j]| == 0
      ensures |ys[i]| == 0
    {
      assert (xs + ys)[|xs| + j] == ys[j] && (xs + ys)[|xs| + i] == ys[i];
    }
    forall i, j | 0 <= i < j < |[""] + ys| && |([""] + ys)[j]| == 0
      ensures |([""] + ys)[i]| == 0
    {
      if i > 0 { assert ([""] + ys)[j] == ys[j - 1] && ([""] + ys)[i] == ys[i - 1]; }
    }
  }

  lemma RootIsSettled(fs: FileSystem, root: string, assumeDir: bool)
    requires !IsLink(fs, root)
    ensures Settled(fs, root, [], assumeDir) && Denotes(root, root, []) && Place(root, []) == root
  {
    hide IsLink;
    assert root + "" == root;
    var none: seq<string> := [];
    assert none[..0] == none;
  }

  lemma RealPathUnfolds(fs: FileSystem, file: string, root: string, loopCnt: nat, assumeDir: bool)
    requires !IsLink(fs, RootOf(root)) && IsPathBelow(NormPath(file), RootOf(root))
    ensures RealPath(fs, file, root, true, loopCnt, assumeDir)
            == Reworded(RelFrom(fs, RootOf(root), TodoOf(file, root), IsDir(fs, RootOf(root)), RootOf(root),
                                loopCnt, assumeDir),
                        NormPath(file))
  {
    hide NormPath, IsLink, IsDir, RelFrom;
    TopComponents(file, root);
    RootOfIsRoot(root);
    FirstEmpty(fs, RootOf(root), TodoOf(file, root), loopCnt, assumeDir);
  }

  /** Every answer of realpath but "too many links" is an answer of the walker. */
  lemma RealPathWalks(fs: FileSystem, file: string, root: string, loopCnt: nat, assumeDir: bool)
    returns (links: nat)
    requires !IsLink(fs, RootOf(root)) && IsPathBelow(NormPath(file), RootOf(root))
    requires !TooMany(RealPath(fs, file, root, true, loopCnt, assumeDir))
    ensures var w := PlainWalk(fs, file, root, links, assumeDir, true);
            && Agrees(RealPath(fs, file, root, true, loopCnt, assumeDir), w, RootOf(root))
            && (w.Arrived? ==> Settled(fs, RootOf(root), w.at, assumeDir))
  {
    hide NormPath, IsLink, IsDir, RelFrom, Walk, TodoOf, RealPath, Settled, Denotes;
    var r := RootOf(root);
    RootOfIsRoot(root);
    TopComponents(file, root);
    RealPathUnfolds(fs, file, root, loopCnt, assumeDir);
    RootIsSettled(fs, r, assumeDir);
    var end;
    links, end := RelRefines(fs, r, r, [], TodoOf(file, root), IsDir(fs, r), loopCnt, assumeDir);
  }

  /** When the walker ends within the counter, realpath ends as it does. */
  lemma WalkDrivesRealPath(fs: FileSystem, file: string, root: string, links: nat, loopCnt: nat, assumeDir: bool)
    requires !IsLink(fs, RootOf(root)) && IsPathBelow(NormPath(file), RootOf(root))
    requires links <= loopCnt && !PlainWalk(fs, file, root, links, assumeDir, true).Exhausted?
    ensures Agrees(RealPath(fs, file, root, true, loopCnt, assumeDir),
                   PlainWalk(fs, file, root, links, assumeDir, true), RootOf(root))
  {
    hide NormPath, IsLink, IsDir, RelFrom, Walk, TodoOf, RealPath, Settled, Denotes;
    var r := RootOf(root);
    RootOfIsRoot(root);
    TopComponents(file, root);
    RealPathUnfolds(fs, file, root, loopCnt, assumeDir);
    RootIsSettled(fs, r, assumeDir);
    RelFinishes(fs, r, r, [], TodoOf(file, root), IsDir(fs, r), links, loopCnt, assumeDir);
    var n := RealPathWalks(fs, file, root, loopCnt, assumeDir);
    SameWalk(fs, r, [], TodoOf(file, root), n, links, assumeDir, true);
  }

  /** Refinement: realpath is the walker over normalised link texts. Where no text is a
      bare `.` the walker may stay in place at a `.`; otherwise it has to push it. */
  lemma RealPathIsPlainWalk(fs: FileSystem, file: string, root: string, loopCnt: nat, assumeDir: bool, literal: bool)
    requires !IsLink(fs, RootOf(root)) && IsPathBelow(NormPath(file), RootOf(root))
    requires literal || NoDotLinks(fs)
    ensures var r := RealPath(fs, file, root, true, loopCnt, assumeDir);
            && (!TooMany(r) ==>
                  exists links: nat :: Agrees(r, PlainWalk(fs, file, root, links, assumeDir, literal), RootOf(root)))
            && (forall links: nat ::
                  links <= loopCnt && !PlainWalk(fs, file, root, links, assumeDir, literal).Exhausted?
                  ==> Agrees(r, PlainWalk(fs, file, root, links, assumeDir, literal), RootOf(root)))
  {
    hide NormPath, IsLink, Walk, TodoOf, RealPath, Agrees, NoDotLinks, IsPathBelow;
    var r := RealPath(fs, file, root, true, loopCnt, assumeDir);
    forall links: nat
      ensures PlainWalk(fs, file, root, links, assumeDir, literal) == PlainWalk(fs, file, root, links, assumeDir, true)
    {
      TopComponents(file, root);
      if !literal {
        WalkDotFree(fs, RootOf(root), [], TodoOf(file, root), links, assumeDir);
      }
    }
    if !TooMany(r) {
      var n := RealPathWalks(fs, file, root, loopCnt, assumeDir);
      assert Agrees(r, PlainWalk(fs, file, root, n, assumeDir, literal), RootOf(root));
    }
    forall links: nat | links <= loopCnt && !PlainWalk(fs, file, root, links, assumeDir, literal).Exhausted?
      ensures Agrees(r, PlainWalk(fs, file, root, links, assumeDir, literal), RootOf(root))
    {
      WalkDrivesRealPath(fs, file, root, links, loopCnt, assumeDir);
    }
  }

  // ---------------------------------------------------------------------
  // The result is canonical
  // ---------------------------------------------------------------------

  lemma {:induction false} WithoutDotsTwice(at: seq<string>)
    ensures WithoutDots(WithoutDots(at)) == WithoutDots(at)
    ensures forall c :: c in WithoutDots(at) ==> c in at && c != "."
  {
    if at == [] {
    } else {
      var rest := at[1..];
      WithoutDotsTwice(rest);
      assert forall c :: c in rest ==> c in at;
      if at[0] != "." {
        assert WithoutDots(at)[1..] == WithoutDots(rest);
      }
    }
  }

  lemma LookupWithoutDots(root: string, at: seq<string>)
    requires IsRoot(root) && Names(at)
    ensures Names(WithoutDots(at)) && NormPath(Place(root, WithoutDots(at))) == NormPath(Place(root, at))
  {
    hide NormPath, WithoutDots, IsName;
    WithoutDotsTwice(at);
    NormPathOfPlace(root, at);
    NormPathOfPlace(root, WithoutDots(at));
  }

  lemma {:induction false} SettledWithoutDots(fs: FileSystem, root: string, at: seq<string>, assumeDir: bool)
    requires IsRoot(root) && Settled(fs, root, at, assumeDir)
    ensures Settled(fs, root, WithoutDots(at), assumeDir)
    decreases |at|
  {
    hide NormPath, IsName, Place;
    if at == [] {
      assert WithoutDots(at) == [];
    } else {
      var up, c := Parent(at), at[|at| - 1];
      assert at == up + [c] && c in at;
      SettledParent(fs, root, at, assumeDir);
      SettledIsNoLink(fs, root, at, assumeDir);
      SettledWithoutDots(fs, root, up, assumeDir);
      WithoutDotsAppend(up, [c]);
      LookupWithoutDots(root, up);
      if c == "." {
        assert WithoutDots([c]) == [];
        assert WithoutDots(at) == WithoutDots(up);
      } else {
        assert WithoutDots([c]) == [c];
        LookupWithoutDots(root, at);
        SettledChild(fs, root, WithoutDots(up), c, assumeDir);
      }
    }
  }

  /** Below a settled place there is nothing to resolve. */
  lemma {:induction false} SettledWalk(fs: FileSystem, root: string, at: seq<string>, todo: seq<string>,
                                       assumeDir: bool, whole: seq<string>)
    requires whole == at + todo && Settled(fs, root, whole, assumeDir)
    ensures Walk(fs, root, at, todo, 0, assumeDir, true) == Arrived(whole, 0)
    decreases |todo|
  {
    hide NormPath, IsLink, IsDir, Place;
    if todo == [] {
      assert whole == at;
    } else {
      assert whole[..|at|] == at && whole[..|at| + 1] == at + [todo[0]];
      assert whole[|at|] == todo[0] && todo[0] in whole;
      SettledWalk(fs, root, at + [todo[0]], todo[1..], assumeDir, whole);
    }
  }

  /** A place without dots is, as a text, already normalised. */
  lemma NormalPlace(root: string, at: seq<string>)
    requires Names(at) && NoDots(at) && (NormPath(root) == "." ==> at == [])
    ensures Denotes(NormPath(Place(RootOf(root), at)), RootOf(root), at)
  {
    hide NormPath, Clean, LeadingSlashes, IsDot, PathText, WithoutDots, Join, Split;
    var r := RootOf(root);
    RootOfIsRoot(root);
    NormPathOfPlace(r, at);
    var n, cs := NormPathShape(root);
    NoDotsIsWithoutDots(at);
    RootComponents(root, n, cs);
    TextOfNone(n);
    if EndsWithSep(NormPath(root)) {
      assert cs + at == at;
      TextBelowSlashes(n, at);
    } else if at == [] {
      assert cs + at == cs;
      NormPathEnd(root);
      assert r[|r| - 2] == NormPath(root)[|r| - 2] != SEP;
    } else {
      TextOfBoth(n, cs, at);
    }
  }

  lemma TextBelowSlashes(n: nat, at: seq<string>)
    requires n > 0
    ensures PathText(n, at) == Place(Slashes(n), at)
  {}

  lemma TextOfBoth(n: nat, cs: seq<string>, at: seq<string>)
    requires cs != [] && at != [] && IsName(cs[0])
    ensures PathText(n, cs + at) == PathText(n, cs) + [SEP] + Join(at, SEP)
  {
    JoinAppend(cs, at, SEP);
    PathTextOfSome(n, cs);
    PathTextOfSome(n, cs + at);
    assert Slashes(n) + (Join(cs, SEP) + [SEP] + Join(at, SEP)) == PathText(n, cs) + [SEP] + Join(at, SEP);
  }

  lemma TextOfNone(n: nat)
    ensures PathText(n, []) == "." || EndsWithSep(PathText(n, []))
  {
    assert Slashes(n) + Join([], SEP) == Slashes(n);
  }

  lemma PathTextOfSome(n: nat, cs: seq<string>)
    requires cs != [] && IsName(cs[0])
    ensures PathText(n, cs) == Slashes(n) + Join(cs, SEP)
  {
    JoinStartsWithName(cs);
  }

  lemma {:induction false} NoDotsIsWithoutDots(at: seq<string>)
    requires NoDots(at)
    ensures WithoutDots(at) == at
  {
    if at == [] {
    } else {
      assert at[0] in at && !IsDot(at[0]) && forall c :: c in at[1..] ==> c in at;
      NoDotsIsWithoutDots(at[1..]);
    }
  }

  /** A prepared root's own components are those of the root that was given. */
  lemma RootComponents(root: string, n: nat, cs: seq<string>)
    requires n <= 2 && Canonical(n > 0, cs) && NormPath(root) == PathText(n, cs)
    ensures var r := RootOf(root);
            LeadingSlashes(r) == n && Clean(n > 0, [], Split(r[..|r| - 1], SEP)) == cs
    ensures EndsWithSep(NormPath(root)) ==> cs == [] && RootOf(root) == Slashes(n) && n > 0
  {
    hide NormPath;
    var r, p := RootOf(root), NormPath(root);
    if cs != [] {
      NameRoot(root, n, cs);
    } else {
      assert Slashes(n) + Join(cs, SEP) == Slashes(n);
      if n == 0 { DotRoot(root); } else { SlashRoot(root, n); }
    }
  }

  lemma NameRoot(root: string, n: nat, cs: seq<string>)
    requires n <= 2 && cs != [] && Canonical(n > 0, cs) && NormPath(root) == PathText(n, cs)
    ensures var r := RootOf(root);
            LeadingSlashes(r) == n && Clean(n > 0, [], Split(r[..|r| - 1], SEP)) == cs
    ensures !EndsWithSep(NormPath(root))
  {
    hide NormPath, Clean, Split, Join, PathText;
    var r, p := RootOf(root), NormPath(root);
    PathTextOfSome(n, cs);
    JoinEndsWithName(cs);
    assert r[..|r| - 1] == p;
    SplitPathText(n, cs);
    CleanDropsEmpty(n > 0, n, cs);
    CleanKeepsCanonical(n > 0, [], cs);
    assert [] + cs == cs;
    assert LeadingSlashes(r) == LeadingSlashes(p);
  }

  lemma DotRoot(root: string)
    requires NormPath(root) == "."
    ensures var r := RootOf(root); LeadingSlashes(r) == 0 && Clean(false, [], Split(r[..|r| - 1], SEP)) == []
  {
    hide NormPath;
    assert RootOf(root)[..1] == ".";
    SplitFree(".", SEP);
  }

  lemma SlashRoot(root: string, n: nat)
    requires 0 < n <= 2 && NormPath(root) == Slashes(n)
    ensures var r := RootOf(root);
            r == Slashes(n) && LeadingSlashes(r) == n && Clean(true, [], Split(r[..|r| - 1], SEP)) == []
  {
    hide NormPath;
    assert RootOf(root)[..n - 1] == Slashes(n - 1) + "";
    SplitSlashes(n - 1, "");
    CleanDropsEmpty(true, n - 1, [""]);
  }

  lemma TodoOfPlace(p: string, root: string, at: seq<string>)
    requires Names(at) && NoDots(at) && (NormPath(root) == "." ==> at == [])
    requires NormPath(p) == NormPath(Place(RootOf(root), at))
    ensures IsPathBelow(NormPath(p), RootOf(root))
    ensures var todo := TodoOf(p, root); todo == at || (at == [] && todo == [""] && AllSlashes(RootOf(root)))
  {
    hide NormPath, IsDot, Split, Join, RootOf;
    var r, f := RootOf(root), NormPath(p);
    RootOfIsRoot(root);
    NormalPlace(root, at);
    SplitFree("", SEP);
    JoinNone();
    if f == Place(r, at) {
      var j := Join(at, SEP);
      assert f[|r| - 1..] == "" + [SEP] + j;
      SplitAppend("", j, SEP);
      if at != [] {
        SplitOfJoin(at, SEP);
      } else {
        BarePlaceIsSlashes(root);
      }
    } else {
      assert f[|r| - 1..] == "";
    }
  }

  lemma BarePlaceIsSlashes(root: string)
    requires NormPath(Place(RootOf(root), [])) == Place(RootOf(root), [])
    ensures AllSlashes(RootOf(root))
  {
    hide NormPath;
    var r := RootOf(root);
    assert Place(r, []) == r;
    RootOfIsRoot(root);
    NormPathEnd(r);
  }

  lemma ArrivedMeansDirectory(fs: FileSystem, root: string, todo: seq<string>, links: nat, assumeDir: bool)
    requires todo != [] && Walk(fs, root, [], todo, links, assumeDir, true).Arrived?
    ensures assumeDir || IsDir(fs, Place(root, []))
  {}

  /** The place a successful realpath names: `at` below the root. No component of
      it is a link, and everything above it is a directory unless that was assumed. */
  lemma ResultIsSettled(fs: FileSystem, file: string, root: string, loopCnt: nat, assumeDir: bool)
    returns (at: seq<string>)
    requires !IsLink(fs, RootOf(root)) && RealPath(fs, file, root, true, loopCnt, assumeDir).Ok?
    ensures Denotes(RealPath(fs, file, root, true, loopCnt, assumeDir).value, RootOf(root), at)
    ensures Settled(fs, RootOf(root), at, assumeDir)
    ensures NormPath(root) == "." ==> at == []
    ensures RootOf(root) == "/" ==> assumeDir || IsDir(fs, RootOf(root))
  {
    hide NormPath, IsLink, IsDir, RelFrom, Settled, Denotes;
    var r, f := RootOf(root), NormPath(file);
    RootOfIsRoot(root);
    var links := RealPathWalks(fs, file, root, loopCnt, assumeDir);
    var w := PlainWalk(fs, file, root, links, assumeDir, true);
    at := w.at;
    if NormPath(root) == "." {
      DotRootHoldsOnlyItself(file, root);
    }
    if r == "/" {
      NormPathEnd(file);
      SlashRootAsksSomething(file, root);
      ArrivedMeansDirectory(fs, r, TodoOf(file, root), links, assumeDir);
      assert Place(r, []) == r;
    }
  }

  /** Below the root "." only "." itself is a normalised path. */
  lemma DotRootHoldsOnlyItself(file: string, root: string)
    requires NormPath(root) == "." && IsPathBelow(NormPath(file), RootOf(root))
    ensures TodoOf(file, root) == []
  {
    hide NormPath, Clean, LeadingSlashes;
    var f := NormPath(file);
    assert RootOf(root) == "./";
    if |f| >= 2 {
      BelowIsInside(f, "./");
      var rest := f[2..];
      assert f == "." + [SEP] + rest;
      SplitAppend(".", rest, SEP);
      SplitFree(".", SEP);
      assert Split(f, SEP)[0] == ".";
      assert IsDot(Split(f, SEP)[0]);
      NormPathNoDots(file);
      assert false;
    }
    assert f[1..] == "";
  }

  lemma SlashRootAsksSomething(file: string, root: string)
    requires RootOf(root) == "/" && IsPathBelow(NormPath(file), RootOf(root)) && NormPath(file) != ""
    ensures TodoOf(file, root) != []
  {
    hide NormPath;
    var r, f := RootOf(root), NormPath(file);
    BelowIsInside(f, r);
    assert "" + [SEP] + f[|r|..] == f[|r| - 1..];
    SplitAppend("", f[|r|..], SEP);
  }

  /** Canonical results: a successful realpath names a place with no link on the way,
      and resolving its answer again, even with a counter of 0, gives the same path.
      (The root "//" has to exist: asking for "/" below it never looks.) */
  lemma RealPathIsCanonical(fs: FileSystem, file: string, root: string, loopCnt: nat, assumeDir: bool, again: nat)
    requires !IsLink(fs, RootOf(root)) && RealPath(fs, file, root, true, loopCnt, assumeDir).Ok?
    requires RootOf(root) != "//" || assumeDir || IsDir(fs, RootOf(root))
    ensures var p := RealPath(fs, file, root, true, loopCnt, assumeDir).value;
            && (exists at :: Denotes(p, RootOf(root), at) && Names(at) && Physical(fs, RootOf(root), at)
                             && (assumeDir || Entered(fs, RootOf(root), at)))
            && var q := RealPath(fs, p, root, true, again, assumeDir);
               q.Ok? && NormPath(q.value) == NormPath(p)
  {
    hide NormPath, IsLink, IsDir, RealPath, Denotes, Walk, WithoutDots, IsDot, Physical, Entered, Names, TodoOf,
         IsPathBelow;
    var r := RootOf(root);
    RootOfIsRoot(root);
    var p := RealPath(fs, file, root, true, loopCnt, assumeDir).value;
    var at := ResultIsSettled(fs, file, root, loopCnt, assumeDir);
    var clean := WithoutDots(at);
    SlashRoots(root);
    CleanPlace(fs, root, p, at, assumeDir);
    TodoOfPlace(p, root, clean);
    WalkOfClean(fs, root, p, clean, assumeDir);
    WalkDrivesRealPath(fs, p, root, 0, again, assumeDir);
    var q := RealPath(fs, p, root, true, again, assumeDir);
    SameLookup(q.value, r, clean);
  }

  lemma SlashRoots(root: string)
    ensures AllSlashes(RootOf(root)) ==> RootOf(root) == "/" || RootOf(root) == "//"
  {
    hide NormPath;
    NormPathEnd(root);
    var r := NormPath(root);
    if !EndsWithSep(r) {
      assert (r + [SEP])[|r| - 1] != SEP;
    }
  }

  lemma CleanPlace(fs: FileSystem, root: string, p: string, at: seq<string>, assumeDir: bool)
    requires Settled(fs, RootOf(root), at, assumeDir) && Denotes(p, RootOf(root), at)
    requires NormPath(root) == "." ==> at == []
    ensures Settled(fs, RootOf(root), WithoutDots(at), assumeDir) && NoDots(WithoutDots(at))
    ensures NormPath(p) == NormPath(Place(RootOf(root), WithoutDots(at)))
    ensures NormPath(root) == "." ==> WithoutDots(at) == []
  {
    hide NormPath, IsLink, IsDir, Denotes, Place, RootOf;
    RootOfIsRoot(root);
    SettledWithoutDots(fs, RootOf(root), at, assumeDir);
    LookupWithoutDots(RootOf(root), at);
    SameLookup(p, RootOf(root), at);
    WithoutDotsTwice(at);
  }

  lemma WalkOfClean(fs: FileSystem, root: string, p: string, at: seq<string>, assumeDir: bool)
    requires Settled(fs, RootOf(root), at, assumeDir) && IsPathBelow(NormPath(p), RootOf(root))
    requires var todo := TodoOf(p, root); todo == at || (at == [] && todo == [""] && AllSlashes(RootOf(root)))
    requires AllSlashes(RootOf(root)) ==> assumeDir || IsDir(fs, RootOf(root))
    ensures PlainWalk(fs, p, root, 0, assumeDir, true) == Arrived(at, 0)
  {
    hide NormPath, IsLink, IsDir, TodoOf, RootOf;
    var r := RootOf(root);
    if TodoOf(p, root) == at {
      assert at == [] + at;
      SettledWalk(fs, r, [], at, assumeDir, at);
    } else {
      assert Place(r, []) == r;
      assert [""][1..] == [];
    }
  }
}
