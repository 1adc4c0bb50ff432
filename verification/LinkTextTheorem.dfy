/** Exactly which link texts realpath may normalise. */
module LinkTextTheorem {
  import opened CachedPaths
  import opened DotLinks
  import opened FileSystems
  import opened LinkTrees
  import opened PathWalk
  import opened PosixPath
  import opened PosixTheorems
  import opened PosixWalks
  import opened RealPathTheorems
  import opened Splitting
  import opened UnsafeTexts
  import opened UpsAfterNames

  /** Every text that is not safe misleads realpath somewhere, in a file system where all
      other texts are safe. */
  lemma UnsafeMisleads(text: string, assumeDir: bool) returns (fs: FileSystem, file: string, loopCnt: nat)
    requires !Safe(text, assumeDir)
    ensures OthersSafe(fs, text, assumeDir) && Misled(fs, file, TOP, loopCnt, assumeDir)
  {
    hide Misled, OthersSafe, Moves, NoUpAfterName, EndsInName;
    var cs := Split(text, SEP);
    if !NoUpAfterName(cs) {
      fs, file := UpAfterNameMisleads(text, assumeDir);
      loopCnt := 2;
    } else if !IsAbs(text) && Moves(cs) == [] {
      MovesMembers(cs);
      DotLinkMisleads(text, assumeDir);
      fs, file, loopCnt := DotLinkFs(text), "/t/d/x", 100;
    } else {
      fs, file := TrailingSlashMisleads(text);
      loopCnt := 1;
    }
  }

  /** In every file system whose other link texts are safe, realpath follows POSIX. */
  ghost predicate NeverMisleads(text: string, assumeDir: bool) {
    forall fs, file, root, loopCnt: nat :: OthersSafe(fs, text, assumeDir)
      ==> !Misled(fs, file, root, loopCnt, assumeDir)
  }

  /** Main result: a link text never misleads realpath if and only if it is safe. */
  lemma SafeIffNeverMisleads(text: string, assumeDir: bool)
    ensures Safe(text, assumeDir) <==> NeverMisleads(text, assumeDir)
  {
    hide Safe, FollowsPosix, IsPathBelow, RootOf, NormPath, IsLink;
    if Safe(text, assumeDir) {
      forall fs, file, root, loopCnt: nat | OthersSafe(fs, text, assumeDir)
        ensures !Misled(fs, file, root, loopCnt, assumeDir)
      {
        if !IsLink(fs, RootOf(root)) && IsPathBelow(NormPath(file), RootOf(root)) {
          assert AllSafe(fs, assumeDir);
          RealPathIsPosix(fs, file, root, loopCnt, assumeDir);
        }
      }
    } else {
      var fs, file, loopCnt := UnsafeMisleads(text, assumeDir);
    }
  }

  // ---------------------------------------------------------------------
  // A small example of `..` behind a name
  // ---------------------------------------------------------------------

  const TEXT := "a/../b"

  ghost function DetourDirs(): set<seq<string>> {
    {[], ["t"], ["z"], ["z", "w"]}
  }

  function DetourLinks(): map<seq<string>, string> {
    map[["t", "a"] := "/z/w", ["t", "x"] := TEXT]
  }

  lemma DetourIsGood()
    ensures forall d :: d in DetourDirs() ==> Good(d)
    ensures forall l :: l in DetourLinks() ==> Good(l)
    ensures Good(["t", "b"]) && Good(["z", "b"])
  {}

  ghost function DetourFs(): FileSystem {
    DetourIsGood();
    TreeFs(DetourDirs(), DetourLinks())
  }

  lemma DetourTexts()
    ensures Split(TEXT, SEP) == ["a", "..", "b"] && !IsAbs(TEXT)
    ensures Split("/z/w", SEP) == ["", "z", "w"] && IsAbs("/z/w")
  {
    hide Split;
    assert Join(["..", "b"], SEP) == "../b" && Join(["a", "..", "b"], SEP) == TEXT;
    assert Join(["z", "w"], SEP) == "z/w" && Join(["", "z", "w"], SEP) == "/z/w";
    hide Join;
    SplitOfJoin(["a", "..", "b"], SEP);
    SplitOfJoin(["", "z", "w"], SEP);
  }

  lemma DetourNormalised()
    ensures Redirection(TEXT) == ["b"]
  {
    hide Split, Join;
    DetourTexts();
    assert ["a", "..", "b"][1..] == ["..", "b"] && ["..", "b"][1..] == ["b"] && ["b"][1..] == [];
    assert CleanStep(false, [], "a") == ["a"] && CleanStep(false, ["a"], "..") == []
           && CleanStep(false, [], "b") == ["b"];
    assert Clean(false, ["a"], ["..", "b"]) == Clean(false, [], ["b"]) == Clean(false, ["b"], []) == ["b"];
    OneName();
  }

  lemma OneName()
    ensures Slashes(0) + Join(["b"], SEP) == "b" && Split("b", SEP) == ["b"] && !IsAbs("b")
  {
    SplitFree("b", SEP);
  }

  lemma DetourPlaces()
    ensures var fs := DetourFs();
            && IsDir(fs, Place(TOP, [])) && IsDir(fs, Place(TOP, ["t"])) && IsDir(fs, Place(TOP, ["z"]))
            && IsDir(fs, Place(TOP, ["z", "w"]))
            && !IsLink(fs, Place(TOP, [])) && !IsLink(fs, Place(TOP, ["t"])) && !IsLink(fs, Place(TOP, ["z"]))
            && !IsLink(fs, Place(TOP, ["z", "w"]))
            && !IsLink(fs, Place(TOP, ["t", "b"])) && !IsLink(fs, Place(TOP, ["z", "b"]))
            && IsLink(fs, Place(TOP, ["t", "a"])) && LinkText(fs, Place(TOP, ["t", "a"])) == "/z/w"
            && IsLink(fs, Place(TOP, ["t", "x"])) && LinkText(fs, Place(TOP, ["t", "x"])) == TEXT
  {
    hide IsLink, IsDir, Place, LinkText, TreeFs, Good;
    DetourIsGood();
    TreeIsGround(DetourDirs(), DetourLinks());
    assert Good([]) && Good(["t"]) && Good(["z"]) && Good(["z", "w"]) && Good(["t", "a"]) && Good(["t", "x"]);
  }

  lemma DetourThroughZ(n: nat)
    ensures PosixWalk(DetourFs(), TOP, [], ["", "z", "w", "..", "b"], n, false) == Arrived(["z", "b"], n)
  {
    DetourPlaces();
    SmallNames();
    var fs := DetourFs();
    hide IsLink, IsDir, Place, LinkText, DetourFs, Split, Stays, IsAbs;
    var none: seq<string> := [];
    var z: seq<string> := ["z"];
    assert none + ["z"] == z && z + ["w"] == ["z", "w"] && z + ["b"] == ["z", "b"] && Parent(["z", "w"]) == z;
    assert ["", "z", "w", "..", "b"][1..] == ["z", "w", "..", "b"] && ["z", "w", "..", "b"][1..] == ["w", "..", "b"];
    assert ["w", "..", "b"][1..] == ["..", "b"] && ["..", "b"][1..] == ["b"] && ["b"][1..] == none;
    assert PosixWalk(fs, TOP, ["z", "b"], none, n, false) == Arrived(["z", "b"], n);
    assert PosixWalk(fs, TOP, z, ["b"], n, false) == Arrived(["z", "b"], n);
    assert PosixWalk(fs, TOP, ["z", "w"], ["..", "b"], n, false) == Arrived(["z", "b"], n);
    assert PosixWalk(fs, TOP, z, ["w", "..", "b"], n, false) == Arrived(["z", "b"], n);
    assert PosixWalk(fs, TOP, none, ["z", "w", "..", "b"], n, false) == Arrived(["z", "b"], n);
  }

  lemma WrittenDetour(n: nat)
    ensures PosixWalk(DetourFs(), TOP, [], ["t", "x"], n + 2, false) == Arrived(["z", "b"], n)
  {
    DetourTexts();
    DetourPlaces();
    SmallNames();
    DetourThroughZ(n);
    var fs := DetourFs();
    hide IsLink, IsDir, Place, LinkText, DetourFs, Split, Stays, IsAbs;
    var none: seq<string> := [];
    var t: seq<string> := ["t"];
    assert none + ["t"] == t && t + ["x"] == ["t", "x"] && t + ["a"] == ["t", "a"];
    assert ["t", "x"][1..] == ["x"] && ["x"][1..] == none;
    assert ["a", "..", "b"] + none == ["a", "..", "b"] && ["a", "..", "b"][1..] == ["..", "b"];
    assert ["", "z", "w"] + ["..", "b"] == ["", "z", "w", "..", "b"];
    assert PosixWalk(fs, TOP, t, ["a", "..", "b"], n + 1, false) == Arrived(["z", "b"], n);
    assert PosixWalk(fs, TOP, t, ["x"], n + 2, false) == Arrived(["z", "b"], n);
  }

  lemma SmallNames()
    ensures Stays("") && !Stays("..") && forall c :: c in {"a", "b", "t", "w", "x", "z"} ==> !Stays(c) && c != ".."
  {}

  lemma NormalisedDetour(n: nat)
    ensures Walk(DetourFs(), TOP, [], ["t", "x"], n + 1, false, true) == Arrived(["t", "b"], n)
  {
    DetourNormalised();
    DetourTexts();
    DetourPlaces();
    SmallNames();
    var fs := DetourFs();
    hide IsLink, IsDir, Place, LinkText, DetourFs, Redirection, Redirect, IsAbs;
    var none: seq<string> := [];
    var t: seq<string> := ["t"];
    assert none + ["t"] == t && t + ["x"] == ["t", "x"] && t + ["b"] == ["t", "b"];
    assert ["t", "x"][1..] == ["x"] && ["x"][1..] == none && ["b"][1..] == none && ["b"] + none == ["b"];
    RedirectIs(fs, TOP, t, "x");
    assert Walk(fs, TOP, ["t", "b"], none, n, false, true) == Arrived(["t", "b"], n);
    assert Walk(fs, TOP, t, ["b"], n, false, true) == Arrived(["t", "b"], n);
    assert Walk(fs, TOP, t, ["x"], n + 1, false, true) == Arrived(["t", "b"], n);
  }

  lemma DetourTodo()
    ensures IsPathBelow(NormPath("/t/x"), TOP) && RootOf(TOP) == TOP && TodoOf("/t/x", TOP) == ["t", "x"]
    ensures Place(TOP, ["t", "b"]) == "/t/b" && !IsLink(DetourFs(), TOP)
  {
    hide NormPath, TodoOf, IsLink, IsDir, LinkText, DetourFs, Split, Join, IsDot;
    DetourPlaces();
    DetourJoins();
    TopIsTop();
    DetourIsGood();
    assert ["t", "x"] in DetourLinks();
    GoodIsNames(["t", "x"]);
    assert NoDots(["t", "x"]) by { NoDotsHere(); }
    assert Place(TOP, ["t", "x"]) == "/t/x";
    TodoOfPlace("/t/x", TOP, ["t", "x"]);
  }

  lemma NoDotsHere()
    ensures NoDots(["t", "x"])
  {}

  lemma DetourJoins()
    ensures Join(["t", "x"], SEP) == "t/x" && Join(["t", "b"], SEP) == "t/b"
  {}

  /** /t/a leads to /z/w and /t/x to "a/../b": POSIX finds /z/b, realpath answers /t/b. */
  lemma DetourMisleads()
    ensures IsPathBelow(NormPath("/t/x"), RootOf("/"))
    ensures RealPath(DetourFs(), "/t/x", "/", true, 100, false) == Ok("/t/b")
    ensures PosixWalk(DetourFs(), "/", [], TodoOf("/t/x", "/"), 100, false) == Arrived(["z", "b"], 98)
  {
    hide NormPath, Walk, PosixWalk, RealPath, TodoOf, Place, IsLink, DetourFs;
    DetourTodo();
    WrittenDetour(98);
    NormalisedDetour(99);
    WalkDrivesRealPath(DetourFs(), "/t/x", "/", 100, 100, false);
  }
}
