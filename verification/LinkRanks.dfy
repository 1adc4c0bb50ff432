/** How deeply links nest, read off the link texts by the walker. */
module LinkRanks {
  import opened CachedPaths
  import opened FileSystems
  import opened LinkBudget
  import opened PathWalk
  import opened PosixPath
  import opened RealPathRefinement
  import opened RealPathTheorems

  /** The places of the links a walk comes to, those behind other links included. */
  function Met(fs: FileSystem, root: string, at: seq<string>, todo: seq<string>, left: nat, assumeDir: bool)
    : set<seq<string>>
    decreases left, |todo|
  {
    if todo == [] || (!assumeDir && !IsDir(fs, Place(root, at))) then {}
    else
      var c, rest := todo[0], todo[1..];
      if c == "" then Met(fs, root, at, rest, left, assumeDir)
      else if c == ".." then Met(fs, root, Parent(at), rest, left, assumeDir)
      else if !IsLink(fs, Place(root, at + [c])) then Met(fs, root, at + [c], rest, left, assumeDir)
      else if left == 0 then {at + [c]}
      else
        var (from, text) := Redirect(fs, root, at, c);
        {at + [c]} + Met(fs, root, from, text + rest, left - 1, assumeDir)
  }

  /** Every link has a rank from 1 to `top`, and its text meets links of smaller rank only. */
  ghost predicate RankedPlaces(fs: FileSystem, root: string, assumeDir: bool, rank: seq<string> -> nat, top: nat) {
    && (forall q :: rank(q) <= top)
    && (forall at, c | Settled(fs, root, at, assumeDir) && IsName(c) && IsLink(fs, Place(root, at + [c])) ::
          Outranks(fs, root, at, c, assumeDir, rank))
  }

  ghost predicate Outranks(fs: FileSystem, root: string, at: seq<string>, c: string, assumeDir: bool,
                           rank: seq<string> -> nat)
    requires IsLink(fs, Place(root, at + [c]))
  {
    var (from, text) := Redirect(fs, root, at, c);
    rank(at + [c]) >= 1 && MeetsBelow(fs, root, from, text, assumeDir, rank, rank(at + [c]))
  }

  ghost predicate MeetsBelow(fs: FileSystem, root: string, at: seq<string>, todo: seq<string>, assumeDir: bool,
                             rank: seq<string> -> nat, bound: nat)
  {
    forall q, n: nat :: q in Met(fs, root, at, todo, n, assumeDir) ==> rank(q) < bound
  }

  /** What the rest of a walk meets, the whole walk meets. */
  lemma {:induction false} MetAppend(fs: FileSystem, root: string, at: seq<string>, xs: seq<string>, ys: seq<string>,
                                     left: nat, assumeDir: bool)
    ensures var w := Walk(fs, root, at, xs, left, assumeDir, true);
            w.Arrived? ==> Met(fs, root, w.at, ys, w.left, assumeDir) <= Met(fs, root, at, xs + ys, left, assumeDir)
    decreases left, |xs|
  {
    hide IsLink, IsDir, NormPath, Redirect, Place;
    if xs == [] {
      assert xs + ys == ys;
    } else if assumeDir || IsDir(fs, Place(root, at)) {
      var c, rest := xs[0], xs[1..];
      assert (xs + ys)[0] == c && (xs + ys)[1..] == rest + ys;
      if c == "" {
        MetAppend(fs, root, at, rest, ys, left, assumeDir);
      } else if c == ".." {
        MetAppend(fs, root, Parent(at), rest, ys, left, assumeDir);
      } else if !IsLink(fs, Place(root, at + [c])) {
        MetAppend(fs, root, at + [c], rest, ys, left, assumeDir);
      } else if left > 0 {
        var (from, text) := Redirect(fs, root, at, c);
        assert text + (rest + ys) == (text + rest) + ys;
        MetAppend(fs, root, from, text + rest, ys, left - 1, assumeDir);
      }
    }
  }

  lemma RestMeetsBelow(fs: FileSystem, root: string, at: seq<string>, c: string, rest: seq<string>, n: nat,
                       assumeDir: bool, rank: seq<string> -> nat, bound: nat)
    requires MeetsBelow(fs, root, at, [c] + rest, assumeDir, rank, bound)
    requires Walk(fs, root, at, [c], n, assumeDir, true).Arrived?
    ensures MeetsBelow(fs, root, Walk(fs, root, at, [c], n, assumeDir, true).at, rest, assumeDir, rank, bound)
  {
    hide Walk, Met;
    var w := Walk(fs, root, at, [c], n, assumeDir, true);
    forall q, m: nat | q in Met(fs, root, w.at, rest, m, assumeDir)
      ensures rank(q) < bound
    {
      WalkMore(fs, root, at, [c], n, m, assumeDir, true);
      MetAppend(fs, root, at, [c], rest, n + m, assumeDir);
      MetMore(fs, root, w.at, rest, m, w.left, assumeDir);
    }
  }

  lemma {:induction false} MetMore(fs: FileSystem, root: string, at: seq<string>, todo: seq<string>, left: nat,
                                   more: nat, assumeDir: bool)
    ensures Met(fs, root, at, todo, left, assumeDir) <= Met(fs, root, at, todo, left + more, assumeDir)
    decreases left, |todo|
  {
    hide IsLink, IsDir, NormPath, Redirect, Place;
    if todo != [] && (assumeDir || IsDir(fs, Place(root, at))) {
      var c, rest := todo[0], todo[1..];
      if c == "" {
        MetMore(fs, root, at, rest, left, more, assumeDir);
      } else if c == ".." {
        MetMore(fs, root, Parent(at), rest, left, more, assumeDir);
      } else if !IsLink(fs, Place(root, at + [c])) {
        MetMore(fs, root, at + [c], rest, left, more, assumeDir);
      } else if left > 0 {
        var (from, text) := Redirect(fs, root, at, c);
        MetMore(fs, root, from, text + rest, left - 1, more, assumeDir);
      }
    }
  }

  /** The first component's own link is met, and components that are no link pass on. */
  lemma FirstMeets(fs: FileSystem, root: string, at: seq<string>, c: string, rest: seq<string>, assumeDir: bool,
                   rank: seq<string> -> nat, bound: nat)
    requires MeetsBelow(fs, root, at, [c] + rest, assumeDir, rank, bound) && (assumeDir || IsDir(fs, Place(root, at)))
    ensures c == "" ==> MeetsBelow(fs, root, at, rest, assumeDir, rank, bound)
    ensures c == ".." ==> MeetsBelow(fs, root, Parent(at), rest, assumeDir, rank, bound)
    ensures c !in {"", ".."} && IsLink(fs, Place(root, at + [c])) ==> rank(at + [c]) < bound
  {
    hide IsLink, IsDir, NormPath, Redirect, Place;
    assert ([c] + rest)[1..] == rest;
    forall q, n: nat | c == "" && q in Met(fs, root, at, rest, n, assumeDir)
      ensures rank(q) < bound
    {
      assert q in Met(fs, root, at, [c] + rest, n, assumeDir);
    }
    forall q, n: nat | c == ".." && q in Met(fs, root, Parent(at), rest, n, assumeDir)
      ensures rank(q) < bound
    {
      assert q in Met(fs, root, at, [c] + rest, n, assumeDir);
    }
    if c !in {"", ".."} && IsLink(fs, Place(root, at + [c])) {
      assert at + [c] in Met(fs, root, at, [c] + rest, 0, assumeDir);
    }
  }

  /** A counter that is at least the rank of every link met is enough. */
  lemma {:induction false} NestsWithin(fs: FileSystem, root: string, start: string, at: seq<string>, cs: seq<string>,
                                       haveDir: bool, k: nat, assumeDir: bool, rank: seq<string> -> nat, top: nat)
    requires IsRoot(root) && Settled(fs, root, at, assumeDir) && Denotes(start, root, at) && Doable(cs, start, root)
    requires assumeDir || haveDir == IsDir(fs, Place(root, at))
    requires RankedPlaces(fs, root, assumeDir, rank, top) && MeetsBelow(fs, root, at, cs, assumeDir, rank, k + 1)
    ensures !Loops(RelFrom(fs, start, cs, haveDir, root, k, assumeDir))
    decreases k, 1, |cs|
  {
    hide IsLink, IsDir, NormPath, Phys, Place, JoinPath, DirName, Redirect, Settled, Denotes, Doable, MeetsBelow,
         RankedPlaces, Walk;
    if cs != [] && (haveDir || assumeDir) {
      var c, rest := cs[0], cs[1..];
      assert cs == [c] + rest;
      FirstMeets(fs, root, at, c, rest, assumeDir, rank, k + 1);
      if c == "" {
        EmptyStays(fs, root, start, at, cs, k, assumeDir);
        NestsWithin(fs, root, root, at, rest, IsDir(fs, root), k, assumeDir, rank, top);
      } else if c == ".." {
        var up := if |start| >= |root| then DirName(start) else start;
        UpStep(fs, root, start, up, at, cs, assumeDir);
        NestsWithin(fs, root, up, Parent(at), rest, haveDir, k, assumeDir, rank, top);
      } else {
        NameStep(fs, root, start, at, cs, assumeDir);
        var file := Place(root, at + [c]);
        if IsLink(fs, file) {
          LinkNests(fs, root, at, c, k, assumeDir, rank, top);
        } else {
          PhysOfNoLink(fs, file, root, k, assumeDir);
        }
        var p := Phys(fs, file, root, k, assumeDir);
        if p.Ok? {
          var n, mid := PhysRefines(fs, root, at, c, k, assumeDir);
          RestMeetsBelow(fs, root, at, c, rest, n, assumeDir, rank, k + 1);
          DoableTail'(cs, start, p.value.0, root);
          NestsWithin(fs, root, p.value.0, mid, rest, p.value.1, k, assumeDir, rank, top);
        }
      }
    }
  }

  lemma {:induction false} LinkNests(fs: FileSystem, root: string, at: seq<string>, c: string, k: nat,
                                     assumeDir: bool, rank: seq<string> -> nat, top: nat)
    requires IsRoot(root) && Settled(fs, root, at, assumeDir) && (assumeDir || IsDir(fs, Place(root, at)))
    requires IsName(c) && c != ".." && IsLink(fs, Place(root, at + [c]))
    requires RankedPlaces(fs, root, assumeDir, rank, top) && rank(at + [c]) <= k
    ensures !Loops(Phys(fs, Place(root, at + [c]), root, k, assumeDir))
    decreases k, 0
  {
    hide IsLink, IsDir, NormPath, RelFrom, Follow, Redirect, Place, Settled, Denotes, MeetsBelow;
    var p := Place(root, at + [c]);
    assert Outranks(fs, root, at, c, assumeDir, rank);
    DotIsNoLink(fs, root, at, c, assumeDir);
    LongerThanRoot(root, at + [c]);
    PhysStep(fs, p, root, k, assumeDir);
    var start, haveDir := FollowRedirects(fs, root, at, c, k - 1, assumeDir);
    var (from, text) := Redirect(fs, root, at, c);
    LargerBound(fs, root, from, text, assumeDir, rank, rank(at + [c]), k);
    NestsWithin(fs, root, start, from, text, haveDir, k - 1, assumeDir, rank, top);
    var m, end := RelRefines(fs, root, start, from, text, haveDir, k - 1, assumeDir);
    var next := Follow(fs, p, root, k - 1, assumeDir);
    if next.Ok? {
      SettledText(fs, root, next.value, end, assumeDir);
      PhysOfNoLink(fs, next.value, root, k - 1, assumeDir);
    }
  }

  lemma LargerBound(fs: FileSystem, root: string, at: seq<string>, todo: seq<string>, assumeDir: bool,
                    rank: seq<string> -> nat, bound: nat, more: nat)
    requires MeetsBelow(fs, root, at, todo, assumeDir, rank, bound) && bound <= more
    ensures MeetsBelow(fs, root, at, todo, assumeDir, rank, more)
  {
    hide Met;
  }

  /** Where the links, by their texts, have ranks that are at most the counter, realpath
      never reports too many of them. */
  lemma NestedNeverTooMany(fs: FileSystem, file: string, root: string, loopCnt: nat, assumeDir: bool,
                           rank: seq<string> -> nat)
    requires !IsLink(fs, RootOf(root)) && RankedPlaces(fs, RootOf(root), assumeDir, rank, loopCnt)
    ensures !TooMany(RealPath(fs, file, root, true, loopCnt, assumeDir))
  {
    hide NormPath, IsLink, IsDir, RelFrom, Met, TodoOf, Settled, Denotes, RootOf;
    var r := RootOf(root);
    RootOfIsRoot(root);
    if IsPathBelow(NormPath(file), r) {
      TopComponents(file, root);
      RealPathUnfolds(fs, file, root, loopCnt, assumeDir);
      RootIsSettled(fs, r, assumeDir);
      NestsWithin(fs, r, r, [], TodoOf(file, root), IsDir(fs, r), loopCnt, assumeDir, rank, loopCnt);
    }
  }
}
