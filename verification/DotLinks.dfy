/** Why no link text may be just dots and slashes. The resolver under study keeps such
    a text as one component `.`, and a later `..` removes it, where POSIX removes the
    directory that the dot stands for. */
module DotLinks {
  import opened CachedPaths
  import opened FileSystems
  import opened LinkTrees
  import opened Options
  import opened PathWalk
  import opened PosixPath
  import opened PosixWalks
  import opened RealPathTheorems
  import opened Splitting
  import opened UnsafeTexts

  /** /t/d has the text in question, and /t/x leads to "../y". */
  function DotLinkFs(text: string): FileSystem {
    FileSystem(map["/" := Object(Stat(Directory, 0)), "/t" := Object(Stat(Directory, 0)),
                   "/t/d" := Link(0, text, Some(Stat(Directory, 0))), "/t/x" := Link(0, "../y", None)])
  }

  lemma AbsPathIsNormal(cs: seq<string>, p: string)
    requires Canonical(true, cs) && p == [SEP] + Join(cs, SEP)
    ensures NormPath(p) == p
  {
    hide NormPath;
    NormPathOfText(1, cs);
    assert Slashes(1) == [SEP];
  }

  lemma SmallPaths()
    ensures NormPath("/") == "/" && NormPath("/t") == "/t" && NormPath("/y") == "/y"
  {
    hide NormPath, Clean;
    AbsPathIsNormal([], "/");
    AbsPathIsNormal(["t"], "/t");
    AbsPathIsNormal(["y"], "/y");
  }

  lemma LongerPaths()
    ensures NormPath("/t/d") == "/t/d" && NormPath("/t/x") == "/t/x" && NormPath("/t/y") == "/t/y"
    ensures NormPath("/t/d/x") == "/t/d/x"
  {
    hide NormPath, Clean;
    assert Join(["t", "d"], SEP) == "t/d" && Join(["t", "x"], SEP) == "t/x" && Join(["t", "y"], SEP) == "t/y";
    AbsPathIsNormal(["t", "d"], "/t/d");
    AbsPathIsNormal(["t", "x"], "/t/x");
    AbsPathIsNormal(["t", "y"], "/t/y");
    assert Join(["d", "x"], SEP) == "d/x" && Join(["t", "d", "x"], SEP) == "t/d/x";
    AbsPathIsNormal(["t", "d", "x"], "/t/d/x");
  }

  lemma SmallTexts()
    ensures NormPath(".") == "." && NormPath("../y") == "../y"
  {
    hide NormPath, Clean;
    NormPathOfText(0, []);
    NormPathOfText(0, ["..", "y"]);
    assert Join(["..", "y"], SEP) == "../y" && Slashes(0) == "";
    assert PathText(0, []) == "." && PathText(0, ["..", "y"]) == "../y";
  }

  lemma DottedPaths()
    ensures NormPath(Place("/", ["t", "."])) == "/t" && NormPath(Place("/", ["t", ".", "x"])) == "/t/x"
  {
    hide NormPath, Clean;
    SmallPaths();
    LongerPaths();
    assert WithoutDots(["t", "."]) == ["t"] by { assert ["t", "."] == ["t"] + ["."]; }
    assert ["t", ".", "x"][1..] == [".", "x"] && [".", "x"][1..] == ["x"];
    assert WithoutDots(["t", ".", "x"]) == ["t", "x"];
    assert Place("/", ["t"]) == "/t" && Place("/", ["t", "x"]) == "/t/x" by { assert Join(["t", "x"], SEP) == "t/x"; }
    LookupWithoutDots("/", ["t", "."]);
    LookupWithoutDots("/", ["t", ".", "x"]);
  }

  lemma {:induction false} StaysCleans(cs: seq<string>)
    requires forall c :: c in cs ==> Stays(c)
    ensures Clean(false, [], cs) == []
  {
    if cs == [] {
    } else {
      assert cs[0] in cs;
      StaysCleans(cs[1..]);
    }
  }

  /** A text of dots and slashes is one dot. */
  lemma DotsNormalise(text: string)
    requires !IsAbs(text) && forall c :: c in Split(text, SEP) ==> Stays(c)
    ensures NormPath(text) == "."
  {
    StaysCleans(Split(text, SEP));
  }

  /** "/t/d/x" is "/y" where /t/d stays in /t, and realpath answers "/t/y". */
  lemma DotLinkMisleads(text: string, assumeDir: bool)
    requires !IsAbs(text) && forall c :: c in Split(text, SEP) ==> Stays(c)
    ensures var fs := DotLinkFs(text);
            && OthersSafe(fs, text, assumeDir) && Misled(fs, "/t/d/x", TOP, 100, assumeDir)
            && RealPath(fs, "/t/d/x", "/", true, 100, assumeDir) == Ok("/t/y")
            && PosixWalk(fs, "/", [], TodoOf("/t/d/x", "/"), 100, assumeDir) == Arrived(["y"], 98)
  {
    hide NormPath, Walk, PosixWalk, RealPath, TodoOf, Place, IsLink, Join, DotLinkFs, Split, OthersSafe;
    var fs := DotLinkFs(text);
    DotsNormalise(text);
    DotLinkTodo(text);
    DotLinkWalks(text, 98, assumeDir);
    DotLinkOthers(text, assumeDir);
    WalkDrivesRealPath(fs, "/t/d/x", "/", 100, 100, assumeDir);
    var r := RealPath(fs, "/t/d/x", "/", true, 100, assumeDir);
    assert r == Ok("/t/y");
    assert !Agrees(r, PosixWalk(fs, "/", [], ["t", "d", "x"], 100, assumeDir), "/");
  }

  lemma DotLinkOthers(text: string, assumeDir: bool)
    ensures OthersSafe(DotLinkFs(text), text, assumeDir)
  {
    hide NormPath, Moves;
    assert Join(["..", "y"], SEP) == "../y";
    SplitOfJoin(["..", "y"], SEP);
    assert ["..", "y"][1..] == ["y"];
    MovesMembers(["..", "y"]);
    assert "y" in ["..", "y"] && NoUpAfterName(["y"]);
    assert ["..", "y"][|["..", "y"]| - 1] == "y";
    assert Safe("../y", assumeDir);
  }

  lemma DotLinkJoins()
    ensures Join(["", "t", "d", "x"], SEP) == "/t/d/x" && Join(["t", "y"], SEP) == "t/y" && Join(["y"], SEP) == "y"
  {
    assert Join(["d", "x"], SEP) == "d/x" && Join(["t", "d", "x"], SEP) == "t/d/x";
  }

  lemma DotLinkTodo(text: string)
    ensures RootOf("/") == "/" && IsPathBelow(NormPath("/t/d/x"), RootOf("/"))
    ensures TodoOf("/t/d/x", "/") == ["t", "d", "x"]
    ensures !IsLink(DotLinkFs(text), "/") && Place("/", ["t", "y"]) == "/t/y" && Place("/", ["y"]) == "/y"
  {
    hide NormPath, Join, Split;
    SmallPaths();
    LongerPaths();
    DotLinkJoins();
    SplitOfJoin(["", "t", "d", "x"], SEP);
  }

  lemma DotLinkWalks(text: string, n: nat, assumeDir: bool)
    requires NormPath(text) == "." && !IsAbs(text) && forall c :: c in Split(text, SEP) ==> Stays(c)
    ensures Walk(DotLinkFs(text), "/", [], ["t", "d", "x"], n + 2, assumeDir, true) == Arrived(["t", "y"], n)
    ensures PosixWalk(DotLinkFs(text), "/", [], ["t", "d", "x"], n + 2, assumeDir) == Arrived(["y"], n)
  {
    NormalisedDots(text, n, assumeDir);
    WrittenDots(text, n, assumeDir);
  }

  lemma NormalisedDots(text: string, n: nat, assumeDir: bool)
    requires NormPath(text) == "."
    ensures Walk(DotLinkFs(text), "/", [], ["t", "d", "x"], n + 2, assumeDir, true) == Arrived(["t", "y"], n)
  {
    hide NormPath, Split, Join;
    DotLinkPlaces(text);
    DotLinkTexts(text);
    var fs := DotLinkFs(text);
    hide Place, IsLink, IsDir, DotLinkFs, Redirect;
    assert ["t", "d", "x"][1..] == ["d", "x"] && ["d", "x"][1..] == ["x"] && ["x"][1..] == [];
    assert ["."] + ["x"] == [".", "x"] && [".", "x"][1..] == ["x"];
    assert ["..", "y"] + [] == ["..", "y"] && ["..", "y"][1..] == ["y"] && ["y"][1..] == [];
    assert [] + ["t"] == ["t"] && ["t"] + ["d"] == ["t", "d"] && ["t"] + ["y"] == ["t", "y"];
    assert ["t"] + ["."] == ["t", "."] && ["t", "."] + ["x"] == ["t", ".", "x"] && Parent(["t", "."]) == ["t"];
    var none: seq<string> := [];
    var at: seq<string> := ["t"];
    assert Walk(fs, "/", ["t", "y"], none, n, assumeDir, true) == Arrived(["t", "y"], n);
    assert Walk(fs, "/", at, ["y"], n, assumeDir, true) == Arrived(["t", "y"], n);
    assert Walk(fs, "/", ["t", "."], ["..", "y"], n, assumeDir, true) == Arrived(["t", "y"], n);
    assert Walk(fs, "/", ["t", "."], ["x"], n + 1, assumeDir, true) == Arrived(["t", "y"], n);
    assert Walk(fs, "/", at, [".", "x"], n + 1, assumeDir, true) == Arrived(["t", "y"], n);
    assert Walk(fs, "/", at, ["d", "x"], n + 2, assumeDir, true) == Arrived(["t", "y"], n);
  }

  lemma WrittenDots(text: string, n: nat, assumeDir: bool)
    requires !IsAbs(text) && forall c :: c in Split(text, SEP) ==> Stays(c)
    ensures PosixWalk(DotLinkFs(text), "/", [], ["t", "d", "x"], n + 2, assumeDir) == Arrived(["y"], n)
  {
    hide NormPath, Split, Join, Stays;
    DotLinkPlaces(text);
    UpAndDown();
    var fs := DotLinkFs(text);
    hide Place, IsLink, IsDir, DotLinkFs;
    assert ["t", "d", "x"][1..] == ["d", "x"] && ["d", "x"][1..] == ["x"] && ["x"][1..] == [];
    assert ["..", "y"] + [] == ["..", "y"] && ["..", "y"][1..] == ["y"] && ["y"][1..] == [];
    assert [] + ["t"] == ["t"] && ["t"] + ["d"] == ["t", "d"] && ["t"] + ["x"] == ["t", "x"] && [] + ["y"] == ["y"];
    assert Parent(["t"]) == [];
    SmallSteps();
    var none: seq<string> := [];
    var at: seq<string> := ["t"];
    assert PosixWalk(fs, "/", ["y"], none, n, assumeDir) == Arrived(["y"], n);
    assert PosixWalk(fs, "/", none, ["y"], n, assumeDir) == Arrived(["y"], n);
    assert PosixWalk(fs, "/", at, ["..", "y"], n, assumeDir) == Arrived(["y"], n);
    assert PosixWalk(fs, "/", at, ["x"], n + 1, assumeDir) == Arrived(["y"], n);
    PosixAppend(fs, "/", at, Split(text, SEP), ["x"], n + 1, assumeDir);
    StaysPut(fs, at, Split(text, SEP), n + 1, assumeDir);
    assert PosixWalk(fs, "/", at, ["d", "x"], n + 2, assumeDir) == Arrived(["y"], n);
  }

  lemma UpAndDown()
    ensures Split("../y", SEP) == ["..", "y"] && !IsAbs("../y")
  {
    assert Join(["..", "y"], SEP) == "../y";
    SplitOfJoin(["..", "y"], SEP);
  }

  lemma SmallSteps()
    ensures IsStep("t") && IsStep("d") && IsStep("x") && IsStep("y") && !Stays("..") && Stays(".")
  {}

  lemma DotLinkPlaces(text: string)
    ensures var fs := DotLinkFs(text);
            && IsDir(fs, Place("/", [])) && IsDir(fs, Place("/", ["t"])) && IsDir(fs, Place("/", ["t", "."]))
            && !IsLink(fs, Place("/", ["t"])) && !IsLink(fs, Place("/", ["t", "."]))
            && !IsLink(fs, Place("/", ["y"])) && !IsLink(fs, Place("/", ["t", "y"]))
            && IsLink(fs, Place("/", ["t", "d"])) && IsLink(fs, Place("/", ["t", "x"]))
            && IsLink(fs, Place("/", ["t", ".", "x"]))
            && LinkText(fs, Place("/", ["t", "d"])) == text
            && LinkText(fs, Place("/", ["t", "x"])) == "../y" && LinkText(fs, Place("/", ["t", ".", "x"])) == "../y"
  {
    hide NormPath;
    SmallPaths();
    LongerPaths();
    DottedPaths();
    assert Join(["t", "d"], SEP) == "t/d" && Join(["t", "x"], SEP) == "t/x" && Join(["t", "y"], SEP) == "t/y";
    assert Place("/", []) == "/" && Place("/", ["t"]) == "/t" && Place("/", ["y"]) == "/y";
    assert Place("/", ["t", "d"]) == "/t/d" && Place("/", ["t", "x"]) == "/t/x" && Place("/", ["t", "y"]) == "/t/y";
  }

  lemma DotLinkTexts(text: string)
    requires NormPath(text) == "."
    ensures var fs := DotLinkFs(text);
            && IsLink(fs, Place("/", ["t"] + ["d"])) && Redirect(fs, "/", ["t"], "d") == (["t"], ["."])
            && IsLink(fs, Place("/", ["t"] + ["x"])) && Redirect(fs, "/", ["t"], "x") == (["t"], ["..", "y"])
            && IsLink(fs, Place("/", ["t", "."] + ["x"]))
            && Redirect(fs, "/", ["t", "."], "x") == (["t", "."], ["..", "y"])
  {
    hide NormPath, IsLink, Place, DotLinkFs;
    SmallTexts();
    DotLinkPlaces(text);
    assert ["t"] + ["d"] == ["t", "d"] && ["t"] + ["x"] == ["t", "x"] && ["t", "."] + ["x"] == ["t", ".", "x"];
    SplitFree(".", SEP);
    SplitOfJoin(["..", "y"], SEP);
    assert Join(["..", "y"], SEP) == "../y";
  }
}
