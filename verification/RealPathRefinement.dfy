/** realpath computes what the plain walker computes. The proof goes component by
    component: each step of the resolver on texts is matched by steps of the walker
    on components, as long as the place reached so far is settled, which means that
    no component of it is a link. Both directions are needed: whatever the resolver
    finds the walker finds, and whenever the walker ends the resolver ends. */
module RealPathRefinement {
  import opened Splitting
  import opened PosixPath
  import opened FileSystems
  import opened CachedPaths
  import opened LinkBudget
  import opened PathWalk

  /** No directory on the way to `at`, the root and `at` included, is a link. */
  ghost predicate Physical(fs: FileSystem, root: string, at: seq<string>) {
    forall k :: 0 <= k <= |at| ==> !IsLink(fs, Place(root, at[..k]))
  }

  /** Everything above `at` is a directory. */
  ghost predicate Entered(fs: FileSystem, root: string, at: seq<string>) {
    forall k :: 0 <= k < |at| ==> IsDir(fs, Place(root, at[..k]))
  }

  ghost predicate Settled(fs: FileSystem, root: string, at: seq<string>, assumeDir: bool) {
    Names(at) && Physical(fs, root, at) && (assumeDir || Entered(fs, root, at))
  }

  lemma SettledChild(fs: FileSystem, root: string, at: seq<string>, c: string, assumeDir: bool)
    requires Settled(fs, root, at, assumeDir) && (assumeDir || IsDir(fs, Place(root, at)))
    requires IsName(c) && c != ".." && !IsLink(fs, Place(root, at + [c]))
    ensures Settled(fs, root, at + [c], assumeDir)
  {
    hide IsName, IsLink, IsDir, Place;
    forall k | 0 <= k <= |at + [c]|
      ensures !IsLink(fs, Place(root, (at + [c])[..k]))
    {
      if k <= |at| { assert (at + [c])[..k] == at[..k]; } else { assert (at + [c])[..k] == at + [c]; }
    }
    if !assumeDir {
      forall k | 0 <= k < |at + [c]|
        ensures IsDir(fs, Place(root, (at + [c])[..k]))
      {
        assert (at + [c])[..k] == at[..k];
        assert at[..|at|] == at;
      }
    }
  }

  lemma SettledParent(fs: FileSystem, root: string, at: seq<string>, assumeDir: bool)
    requires Settled(fs, root, at, assumeDir)
    ensures Settled(fs, root, Parent(at), assumeDir)
    ensures assumeDir || at == [] || IsDir(fs, Place(root, Parent(at)))
  {
    hide IsName, IsLink, IsDir, Place;
    if at != [] {
      var up := at[..|at| - 1];
      assert forall k :: 0 <= k <= |up| ==> up[..k] == at[..k];
      assert forall c :: c in up ==> c in at;
      assert up == at[..|up|];
    }
  }

  lemma SettledIsNoLink(fs: FileSystem, root: string, at: seq<string>, assumeDir: bool)
    requires Settled(fs, root, at, assumeDir)
    ensures !IsLink(fs, Place(root, at))
  {
    assert at[..|at|] == at;
  }

  // ---------------------------------------------------------------------
  // Shapes of component lists
  // ---------------------------------------------------------------------

  /** Empty components come first. */
  ghost predicate LeadingEmpties(cs: seq<string>) {
    forall i, j :: 0 <= i < j < |cs| && |cs[j]| == 0 ==> |cs[i]| == 0
  }

  /** What the source can be asked to resolve from `start`: empty components only
      lead, and only from the root itself. */
  ghost predicate Doable(cs: seq<string>, start: string, root: string) {
    && SeparatorFree(cs, SEP)
    && LeadingEmpties(cs)
    && (cs != [] && |cs[0]| == 0 ==> start == root)
  }

  lemma DoableTail(cs: seq<string>, start: string, next: string, root: string)
    requires cs != [] && Doable(cs, start, root) && (|cs[0]| == 0 ==> next == root)
    ensures Doable(cs[1..], next, root)
  {
    assert forall c :: c in cs[1..] ==> c in cs;
    forall i, j | 0 <= i < j < |cs[1..]| && |cs[1..][j]| == 0
      ensures |cs[1..][i]| == 0
    {
      assert cs[1..][j] == cs[j + 1] && cs[1..][i] == cs[i + 1];
    }
    if |cs| > 1 && |cs[1]| == 0 {
      assert |cs[0]| == 0;
    }
  }

  lemma NormPathComponents(p: string)
    ensures var cs := Split(NormPath(p), SEP);
            LeadingEmpties(cs) && (IsAbs(NormPath(p)) <==> |cs[0]| == 0)
  {
    hide NormPath, Clean, LeadingSlashes;
    var n, cs := NormPathShape(p);
    if cs == [] && n == 0 {
      assert NormPath(p) == "." by { assert Slashes(0) + Join(cs, SEP) == ""; }
      SplitFree(".", SEP);
    } else if cs == [] {
      assert NormPath(p) == Slashes(n) + "";
      SplitSlashes(n, "");
    } else {
      SplitPathText(n, cs);
      var es := seq(n, _ => "");
      assert forall i :: n <= i < |es + cs| ==> (es + cs)[i] == cs[i - n];
      if n == 0 {
        assert cs[0] in cs;
        JoinStartsWithName(cs);
        assert PathText(0, cs) == Join(cs, SEP) by { assert Slashes(0) + Join(cs, SEP) == Join(cs, SEP); }
      }
    }
  }

  // ---------------------------------------------------------------------
  // One component
  // ---------------------------------------------------------------------

  /** The source's answer `r` is the walker's `w`, which ends at `end`. */
  ghost predicate Matches(fs: FileSystem, root: string, r: Result<string, OsError>, w: Walked, end: seq<string>,
                          assumeDir: bool) {
    match r
    case Ok(p) => w == Arrived(end, 0) && Denotes(p, root, end) && Settled(fs, root, end, assumeDir)
    case Err(NoSuchDirectory(p)) => w == NotADirectory(end) && Denotes(p, root, end)
    case Err(_) => false
  }

  /** Resolving from the root starts with an empty component, which asks whether the
      root is a directory. */
  lemma FirstEmpty(fs: FileSystem, root: string, rest: seq<string>, k: nat, assumeDir: bool)
    requires IsRoot(root) && !IsLink(fs, root)
    ensures RelFrom(fs, root, [""] + rest, true, root, k, assumeDir)
            == RelFrom(fs, root, rest, IsDir(fs, root), root, k, assumeDir)
  {
    hide IsLink, IsDir;
    assert JoinPath(root, "") == root;
    assert ([""] + rest)[1..] == rest;
  }

  /** Following the link at a place, in terms of the walker's redirection. */
  lemma FollowRedirects(fs: FileSystem, root: string, at: seq<string>, c: string, k: nat, assumeDir: bool)
    returns (start: string, haveDir: bool)
    requires IsRoot(root) && Settled(fs, root, at, assumeDir) && (assumeDir || IsDir(fs, Place(root, at)))
    requires IsName(c) && c !in {".", ".."} && IsLink(fs, Place(root, at + [c]))
    ensures var (from, text) := Redirect(fs, root, at, c);
            && Follow(fs, Place(root, at + [c]), root, k, assumeDir)
               == RelFrom(fs, start, text, haveDir, root, k, assumeDir)
            && Settled(fs, root, from, assumeDir) && Denotes(start, root, from) && Doable(text, start, root)
            && (assumeDir || haveDir == IsDir(fs, Place(root, from)))
  {
    hide IsLink, IsDir, NormPath, DirName, RelFrom;
    var p := Place(root, at + [c]);
    ReadLinkOfChild(fs, root, at, c);
    var target := NormPath(LinkText(fs, p));
    var cs := Split(target, SEP);
    NormPathComponents(LinkText(fs, p));
    if IsAbs(target) {
      start, haveDir := root, IsDir(fs, root);
      assert Place(root, []) == root && at[..0] == [];
      assert cs == [""] + cs[1..];
      FirstEmpty(fs, root, cs[1..], k, assumeDir);
      DoableTail(cs, root, root, root);
    } else {
      start, haveDir := DirName(p), true;
      DirNameOfChild(root, at, c);
    }
  }

  lemma {:induction false} PhysRefines(fs: FileSystem, root: string, at: seq<string>, c: string, k: nat,
                                       assumeDir: bool)
    returns (n: nat, end: seq<string>)
    requires IsRoot(root) && Settled(fs, root, at, assumeDir) && (assumeDir || IsDir(fs, Place(root, at)))
    requires IsName(c) && c != ".." && !Loops(Phys(fs, Place(root, at + [c]), root, k, assumeDir))
    ensures Matches(fs, root, PathOnly(Phys(fs, Place(root, at + [c]), root, k, assumeDir)),
                    Walk(fs, root, at, [c], n, assumeDir, true), end, assumeDir)
    ensures var r := Phys(fs, Place(root, at + [c]), root, k, assumeDir);
            r.Ok? ==> r.value.1 == IsDir(fs, Place(root, end))
    decreases k, 0
  {
    hide IsLink, IsDir, NormPath, RelFrom, Follow, Redirect, Place, Settled, Denotes;
    var p := Place(root, at + [c]);
    if !IsLink(fs, p) {
      n, end := 0, at + [c];
      SettledChild(fs, root, at, c, assumeDir);
      PlaceDenotes(root, end);
      WalkOneName(fs, root, at, c, 0, assumeDir);
    } else {
      DotIsNoLink(fs, root, at, c, assumeDir);
      LongerThanRoot(root, at + [c]);
      PhysStep(fs, p, root, k, assumeDir);
      var start, haveDir := FollowRedirects(fs, root, at, c, k - 1, assumeDir);
      var (from, text) := Redirect(fs, root, at, c);
      var m: nat;
      m, end := RelRefines(fs, root, start, from, text, haveDir, k - 1, assumeDir);
      n := m + 1;
      WalkOneLink(fs, root, at, c, m, assumeDir);
      var next := Follow(fs, p, root, k - 1, assumeDir);
      if next.Ok? {
        SettledText(fs, root, next.value, end, assumeDir);
      }
    }
  }

  lemma PlaceDenotes(root: string, at: seq<string>)
    ensures Denotes(Place(root, at), root, at)
  {}

  lemma LongerThanRoot(root: string, at: seq<string>)
    ensures |Place(root, at)| >= |root|
  {}

  lemma DotIsNoLink(fs: FileSystem, root: string, at: seq<string>, c: string, assumeDir: bool)
    requires IsRoot(root) && Settled(fs, root, at, assumeDir) && IsLink(fs, Place(root, at + [c]))
    ensures c != "."
  {
    hide NormPath, Place, Clean;
    if c == "." {
      DotLooksUpSame(root, at);
      SettledIsNoLink(fs, root, at, assumeDir);
      assert false;
    }
  }

  /** A text for a settled place is no link. */
  lemma SettledText(fs: FileSystem, root: string, p: string, at: seq<string>, assumeDir: bool)
    requires IsRoot(root) && Settled(fs, root, at, assumeDir) && Denotes(p, root, at)
    ensures !IsLink(fs, p) && IsDir(fs, p) == IsDir(fs, Place(root, at))
  {
    hide NormPath, Place;
    SameLookup(p, root, at);
    SettledIsNoLink(fs, root, at, assumeDir);
  }

  lemma WalkOneName(fs: FileSystem, root: string, at: seq<string>, c: string, n: nat, assumeDir: bool)
    requires assumeDir || IsDir(fs, Place(root, at))
    requires c != "" && c != ".." && !IsLink(fs, Place(root, at + [c]))
    ensures Walk(fs, root, at, [c], n, assumeDir, true) == Arrived(at + [c], n)
  {
    hide IsLink, IsDir, Place;
    assert [c][1..] == [];
  }

  lemma WalkOneLink(fs: FileSystem, root: string, at: seq<string>, c: string, n: nat, assumeDir: bool)
    requires assumeDir || IsDir(fs, Place(root, at))
    requires c != "" && c != ".." && IsLink(fs, Place(root, at + [c]))
    ensures var (from, text) := Redirect(fs, root, at, c);
            Walk(fs, root, at, [c], n + 1, assumeDir, true) == Walk(fs, root, from, text, n, assumeDir, true)
  {
    hide IsLink, IsDir, Place, Redirect;
    var (from, text) := Redirect(fs, root, at, c);
    assert [c][1..] == [] && text + [] == text;
  }

  // ---------------------------------------------------------------------
  // All components
  // ---------------------------------------------------------------------

  lemma {:induction false} RelRefines(fs: FileSystem, root: string, start: string, at: seq<string>, cs: seq<string>,
                                      haveDir: bool, k: nat, assumeDir: bool)
    returns (n: nat, end: seq<string>)
    requires IsRoot(root) && Settled(fs, root, at, assumeDir) && Denotes(start, root, at) && Doable(cs, start, root)
    requires assumeDir || haveDir == IsDir(fs, Place(root, at))
    requires !Loops(RelFrom(fs, start, cs, haveDir, root, k, assumeDir))
    ensures Matches(fs, root, RelFrom(fs, start, cs, haveDir, root, k, assumeDir),
                    Walk(fs, root, at, cs, n, assumeDir, true), end, assumeDir)
    decreases k, 1, |cs|
  {
    hide IsLink, IsDir, NormPath, Phys, Place, JoinPath, DirName, Redirect, Settled, Denotes, Doable;
    if cs == [] || !(haveDir || assumeDir) {
      n, end := 0, at;
    } else {
      var c, rest := cs[0], cs[1..];
      if c == "" {
        EmptyStays(fs, root, start, at, cs, k, assumeDir);
        n, end := RelRefines(fs, root, root, at, rest, IsDir(fs, root), k, assumeDir);
      } else if c == ".." {
        var up := if |start| >= |root| then DirName(start) else start;
        UpStep(fs, root, start, up, at, cs, assumeDir);
        n, end := RelRefines(fs, root, up, Parent(at), rest, haveDir, k, assumeDir);
      } else {
        NameStep(fs, root, start, at, cs, assumeDir);
        var n1, mid := PhysRefines(fs, root, at, c, k, assumeDir);
        var p := Phys(fs, JoinPath(start, c), root, k, assumeDir);
        assert cs == [c] + rest;
        if p.Ok? {
          DoableTail'(cs, start, p.value.0, root);
          var n2: nat;
          n2, end := RelRefines(fs, root, p.value.0, mid, rest, p.value.1, k, assumeDir);
          n := n1 + n2;
          WalkMore(fs, root, at, [c], n1, n2, assumeDir, true);
        } else {
          n, end := n1, mid;
        }
        WalkAppend(fs, root, at, [c], rest, n, assumeDir, true);
      }
    }
  }

  lemma DoableTail'(cs: seq<string>, start: string, next: string, root: string)
    requires cs != [] && Doable(cs, start, root) && cs[0] != ""
    ensures Doable(cs[1..], next, root)
  {
    DoableTail(cs, start, next, root);
  }

  lemma EmptyStays(fs: FileSystem, root: string, start: string, at: seq<string>, cs: seq<string>, k: nat,
                   assumeDir: bool)
    requires IsRoot(root) && Settled(fs, root, at, assumeDir) && Denotes(start, root, at) && Doable(cs, start, root)
    requires cs != [] && cs[0] == ""
    ensures start == root && at == [] && Place(root, []) == root && Doable(cs[1..], root, root)
    ensures Phys(fs, JoinPath(start, ""), root, k, assumeDir) == Ok((root, IsDir(fs, root)))
  {
    hide NormPath, RelFrom, Follow;
    DoableTail(cs, start, root, root);
    if at != [] {
      PlaceEndsWithName(root, at);
    }
    SettledIsNoLink(fs, root, at, assumeDir);
    assert JoinPath(root, "") == root;
  }

  lemma UpStep(fs: FileSystem, root: string, start: string, up: string, at: seq<string>, cs: seq<string>,
               assumeDir: bool)
    requires IsRoot(root) && Settled(fs, root, at, assumeDir) && Denotes(start, root, at) && Doable(cs, start, root)
    requires cs != [] && cs[0] == ".." && up == if |start| >= |root| then DirName(start) else start
    requires assumeDir || IsDir(fs, Place(root, at))
    ensures Settled(fs, root, Parent(at), assumeDir) && Denotes(up, root, Parent(at)) && Doable(cs[1..], up, root)
    ensures assumeDir || IsDir(fs, Place(root, Parent(at)))
  {
    hide IsLink, IsDir, Place, DirName;
    SettledParent(fs, root, at, assumeDir);
    UpDenotes(start, root, at);
    DoableTail(cs, start, up, root);
  }

  lemma NameStep(fs: FileSystem, root: string, start: string, at: seq<string>, cs: seq<string>, assumeDir: bool)
    requires IsRoot(root) && Settled(fs, root, at, assumeDir) && Denotes(start, root, at) && Doable(cs, start, root)
    requires cs != [] && cs[0] != ""
    ensures IsName(cs[0]) && JoinPath(start, cs[0]) == Place(root, at + [cs[0]])
  {
    hide Denotes, JoinPath, Place;
    assert cs[0] in cs;
    JoinPathDenotes(start, root, at, cs[0]);
  }

  /** When the walker finishes, the source does not run out of links either. */
  lemma {:induction false} RelFinishes(fs: FileSystem, root: string, start: string, at: seq<string>, cs: seq<string>,
                                       haveDir: bool, n: nat, k: nat, assumeDir: bool)
    requires IsRoot(root) && Settled(fs, root, at, assumeDir) && Denotes(start, root, at) && Doable(cs, start, root)
    requires assumeDir || haveDir == IsDir(fs, Place(root, at))
    requires n <= k && !Walk(fs, root, at, cs, n, assumeDir, true).Exhausted?
    ensures !Loops(RelFrom(fs, start, cs, haveDir, root, k, assumeDir))
    decreases n, |cs|
  {
    hide IsLink, IsDir, NormPath, Phys, Place, JoinPath, DirName, Redirect, Settled, Denotes, Doable;
    if cs != [] && (haveDir || assumeDir) {
      var c, rest := cs[0], cs[1..];
      if c == "" {
        EmptyStays(fs, root, start, at, cs, k, assumeDir);
        RelFinishes(fs, root, root, at, rest, IsDir(fs, root), n, k, assumeDir);
      } else if c == ".." {
        var up := if |start| >= |root| then DirName(start) else start;
        UpStep(fs, root, start, up, at, cs, assumeDir);
        RelFinishes(fs, root, up, Parent(at), rest, haveDir, n, k, assumeDir);
      } else {
        NameStep(fs, root, start, at, cs, assumeDir);
        assert cs == [c] + rest;
        WalkAppend(fs, root, at, [c], rest, n, assumeDir, true);
        var file := Place(root, at + [c]);
        if IsLink(fs, file) {
          LinkFinishes(fs, root, at, c, n, k, assumeDir);
        } else {
          PhysOfNoLink(fs, file, root, k, assumeDir);
        }
        var p := Phys(fs, file, root, k, assumeDir);
        if p.Ok? {
          var w := Walk(fs, root, at, [c], n, assumeDir, true);
          var end := SameEnd(fs, root, at, c, n, k, assumeDir);
          DoableTail'(cs, start, p.value.0, root);
          RelFinishes(fs, root, p.value.0, end, rest, p.value.1, w.left, k, assumeDir);
        }
      }
    }
  }

  lemma PhysOfNoLink(fs: FileSystem, file: string, root: string, k: nat, assumeDir: bool)
    requires !IsLink(fs, file)
    ensures Phys(fs, file, root, k, assumeDir) == Ok((file, IsDir(fs, file)))
  {
    hide IsLink, IsDir, RelFrom, Follow;
  }

  lemma {:induction false} LinkFinishes(fs: FileSystem, root: string, at: seq<string>, c: string, n: nat, k: nat,
                                        assumeDir: bool)
    requires IsRoot(root) && Settled(fs, root, at, assumeDir) && (assumeDir || IsDir(fs, Place(root, at)))
    requires IsName(c) && c != ".." && IsLink(fs, Place(root, at + [c]))
    requires n <= k && !Walk(fs, root, at, [c], n, assumeDir, true).Exhausted?
    ensures !Loops(Phys(fs, Place(root, at + [c]), root, k, assumeDir))
    decreases n, 0
  {
    hide IsLink, IsDir, NormPath, RelFrom, Follow, Redirect, Place, Settled, Denotes;
    var p := Place(root, at + [c]);
    assert n > 0;
    DotIsNoLink(fs, root, at, c, assumeDir);
    LongerThanRoot(root, at + [c]);
    PhysStep(fs, p, root, k, assumeDir);
    var start, haveDir := FollowRedirects(fs, root, at, c, k - 1, assumeDir);
    var (from, text) := Redirect(fs, root, at, c);
    WalkOneLink(fs, root, at, c, n - 1, assumeDir);
    RelFinishes(fs, root, start, from, text, haveDir, n - 1, k - 1, assumeDir);
    var m, end := RelRefines(fs, root, start, from, text, haveDir, k - 1, assumeDir);
    var next := Follow(fs, p, root, k - 1, assumeDir);
    if next.Ok? {
      SettledText(fs, root, next.value, end, assumeDir);
      PhysOfNoLink(fs, next.value, root, k - 1, assumeDir);
    }
  }

  /** Where both stop, they stop at the same place. */
  lemma SameEnd(fs: FileSystem, root: string, at: seq<string>, c: string, n: nat, k: nat, assumeDir: bool)
    returns (end: seq<string>)
    requires IsRoot(root) && Settled(fs, root, at, assumeDir) && (assumeDir || IsDir(fs, Place(root, at)))
    requires IsName(c) && c != ".." && Phys(fs, Place(root, at + [c]), root, k, assumeDir).Ok?
    requires !Walk(fs, root, at, [c], n, assumeDir, true).Exhausted?
    ensures var (p, isDir) := Phys(fs, Place(root, at + [c]), root, k, assumeDir).value;
            && Walk(fs, root, at, [c], n, assumeDir, true).Arrived?
            && Walk(fs, root, at, [c], n, assumeDir, true).at == end
            && Walk(fs, root, at, [c], n, assumeDir, true).left <= n
            && (IsLink(fs, Place(root, at + [c])) ==> Walk(fs, root, at, [c], n, assumeDir, true).left < n)
            && Settled(fs, root, end, assumeDir) && Denotes(p, root, end) && isDir == IsDir(fs, Place(root, end))
  {
    hide IsLink, IsDir, NormPath, RelFrom, Follow, Redirect, Place, Settled, Denotes, Phys;
    var m: nat;
    m, end := PhysRefines(fs, root, at, c, k, assumeDir);
    SameWalk(fs, root, at, [c], m, n, assumeDir, true);
    WalkAppend(fs, root, at, [c], [], n, assumeDir, true);
    if IsLink(fs, Place(root, at + [c])) {
      assert n > 0;
      WalkOneLink(fs, root, at, c, n - 1, assumeDir);
      var (from, text) := Redirect(fs, root, at, c);
      WalkAppend(fs, root, from, text, [], n - 1, assumeDir, true);
    }
  }

  lemma SameWalk(fs: FileSystem, root: string, at: seq<string>, todo: seq<string>, n: nat, m: nat, assumeDir: bool,
                 literal: bool)
    requires !Walk(fs, root, at, todo, n, assumeDir, literal).Exhausted?
    requires !Walk(fs, root, at, todo, m, assumeDir, literal).Exhausted?
    ensures var v, w := Walk(fs, root, at, todo, n, assumeDir, literal),
            Walk(fs, root, at, todo, m, assumeDir, literal);
            v.at == w.at && (v.Arrived? <==> w.Arrived?)
  {
    hide Walk;
    if n <= m {
      WalkMore(fs, root, at, todo, n, m - n, assumeDir, literal);
    } else {
      WalkMore(fs, root, at, todo, m, n - m, assumeDir, literal);
    }
  }
}
