/** What the link counter of the resolver means, and when it suffices. */
module LinkBudget {
  import opened Splitting
  import opened PosixPath
  import opened FileSystems
  import opened CachedPaths

  predicate Loops<T>(r: Result<T, OsError>) {
    r.Err? && r.error.LoopedAt?
  }

  predicate LinkInside(fs: FileSystem, p: string, root: string) {
    IsLink(fs, p) && |p| >= |root|
  }

  // ---------------------------------------------------------------------
  // A larger counter gives the same answer
  // ---------------------------------------------------------------------

  lemma {:induction false} RelMoreLinks(fs: FileSystem, start: string, cs: seq<string>, haveDir: bool,
                                        root: string, n: nat, m: nat, assumeDir: bool)
    requires n <= m && !Loops(RelFrom(fs, start, cs, haveDir, root, n, assumeDir))
    ensures RelFrom(fs, start, cs, haveDir, root, m, assumeDir) == RelFrom(fs, start, cs, haveDir, root, n, assumeDir)
    decreases n, 1, |cs|
  {
    hide NormPath, IsLink, IsDir, JoinPath, DirName, ReadLink, Phys;
    if cs != [] && (haveDir || assumeDir) {
      if cs[0] == ".." {
        var up := if |start| >= |root| then DirName(start) else start;
        RelMoreLinks(fs, up, cs[1..], haveDir, root, n, m, assumeDir);
      } else {
        var file := JoinPath(start, cs[0]);
        PhysMoreLinks(fs, file, root, n, m, assumeDir);
        match Phys(fs, file, root, n, assumeDir)
        case Err(_) =>
        case Ok((next, isDir)) => RelMoreLinks(fs, next, cs[1..], isDir, root, n, m, assumeDir);
      }
    }
  }

  /** One turn of the resolver's loop. */
  lemma {:induction false} PhysStep(fs: FileSystem, file: string, root: string, n: nat, assumeDir: bool)
    requires LinkInside(fs, file, root)
    ensures n == 0 ==> Phys(fs, file, root, n, assumeDir) == Err(LoopedAt(file))
    ensures n > 0 ==>
              var next := Follow(fs, file, root, n - 1, assumeDir);
              Phys(fs, file, root, n, assumeDir)
                == if next.Ok? then Phys(fs, next.value, root, n - 1, assumeDir) else Err(next.error)
  {}

  lemma {:induction false} PhysMoreLinks(fs: FileSystem, file: string, root: string, n: nat, m: nat, assumeDir: bool)
    requires n <= m && !Loops(Phys(fs, file, root, n, assumeDir))
    ensures Phys(fs, file, root, m, assumeDir) == Phys(fs, file, root, n, assumeDir)
    decreases n, 0
  {
    hide NormPath, IsLink, IsDir, JoinPath, DirName, ReadLink, RelFrom, Follow;
    if LinkInside(fs, file, root) {
      PhysStep(fs, file, root, n, assumeDir);
      PhysStep(fs, file, root, m, assumeDir);
      var next := Follow(fs, file, root, n - 1, assumeDir);
      assert !Loops(next);
      FollowMoreLinks(fs, file, root, n - 1, m - 1, assumeDir);
      assert Follow(fs, file, root, m - 1, assumeDir) == next;
      if next.Ok? {
        PhysMoreLinks(fs, next.value, root, n - 1, m - 1, assumeDir);
        assert Phys(fs, file, root, m, assumeDir) == Phys(fs, file, root, n, assumeDir);
      } else {
        assert Phys(fs, file, root, m, assumeDir) == Phys(fs, file, root, n, assumeDir);
      }
    } else {
      assert Phys(fs, file, root, m, assumeDir) == Phys(fs, file, root, n, assumeDir);
    }
  }

  lemma {:induction false} FollowMoreLinks(fs: FileSystem, file: string, root: string, n: nat, m: nat, assumeDir: bool)
    requires n <= m && !Loops(Follow(fs, file, root, n, assumeDir))
    ensures Follow(fs, file, root, m, assumeDir) == Follow(fs, file, root, n, assumeDir)
    decreases n, 2
  {
    hide NormPath, IsLink, IsDir, JoinPath, DirName, RelFrom;
    var text := ReadLink(fs, file);
    if text.Ok? {
      var target := NormPath(text.value);
      RelMoreLinks(fs, TargetDir(file, target, root), Split(target, SEP), true, root, n, m, assumeDir);
    }
  }

  /** Any answer but "too many links" is the answer for every larger counter. */
  lemma RealPathMoreLinks(fs: FileSystem, file: string, root: string, usePhysDir: bool, n: nat, m: nat, assumeDir: bool)
    requires n <= m
    ensures var r := RealPath(fs, file, root, usePhysDir, n, assumeDir);
            !(r.Err? && r.error.TooManyLinks?) ==> RealPath(fs, file, root, usePhysDir, m, assumeDir) == r
  {
    var r, f := RootOf(root), NormPath(file);
    if IsPathBelow(f, r) {
      if usePhysDir {
        var cs := Split(f[|r| - 1..], SEP);
        if !Loops(RelFrom(fs, r, cs, true, r, n, assumeDir)) {
          RelMoreLinks(fs, r, cs, true, r, n, m, assumeDir);
        }
      } else if !Loops(Phys(fs, f, r, n, assumeDir)) {
        PhysMoreLinks(fs, f, r, n, m, assumeDir);
      }
    }
  }

  // ---------------------------------------------------------------------
  // Ranks
  // ---------------------------------------------------------------------

  /** Resolving `cs` from `start` looks at `at`, as one of its own components. */
  predicate RelLooksAt(fs: FileSystem, start: string, cs: seq<string>, haveDir: bool,
                       root: string, n: nat, assumeDir: bool, at: string)
    decreases |cs|
  {
    cs != [] && (haveDir || assumeDir) &&
    if cs[0] == ".." then
      var up := if |start| >= |root| then DirName(start) else start;
      RelLooksAt(fs, up, cs[1..], haveDir, root, n, assumeDir, at)
    else
      var file := JoinPath(start, cs[0]);
      || file == at
      || match Phys(fs, file, root, n, assumeDir)
         case Err(_) => false
         case Ok((next, isDir)) => RelLooksAt(fs, next, cs[1..], isDir, root, n, assumeDir, at)
  }

  /** Following the link `file` once looks at `at`, inside its text or where it ends. */
  predicate LooksAt(fs: FileSystem, file: string, root: string, n: nat, assumeDir: bool, at: string) {
    var text := ReadLink(fs, file);
    text.Ok? &&
    var target := NormPath(text.value);
    || RelLooksAt(fs, TargetDir(file, target, root), Split(target, SEP), true, root, n, assumeDir, at)
    || Follow(fs, file, root, n, assumeDir) == Ok(at)
  }

  /** Every link inside the root has a rank from 1 to `top`, and following it only
      looks at links of smaller rank. */
  ghost predicate Ranked(fs: FileSystem, root: string, assumeDir: bool, rank: string -> nat, top: nat) {
    && (forall f :: LinkInside(fs, f, root) ==> 1 <= rank(f) <= top)
    && (forall f, g, n: nat ::
          LinkInside(fs, f, root) && LinkInside(fs, g, root) && LooksAt(fs, f, root, n, assumeDir, g)
          ==> rank(g) < rank(f))
  }

  lemma {:induction false} RankedRel(fs: FileSystem, start: string, cs: seq<string>, haveDir: bool,
                                     root: string, n: nat, assumeDir: bool, rank: string -> nat, top: nat)
    requires Ranked(fs, root, assumeDir, rank, top)
    requires forall g ::
               LinkInside(fs, g, root) && RelLooksAt(fs, start, cs, haveDir, root, n, assumeDir, g) ==> rank(g) <= n
    ensures !Loops(RelFrom(fs, start, cs, haveDir, root, n, assumeDir))
    decreases n, 1, |cs|
  {
    hide NormPath, IsLink, IsDir, JoinPath, DirName, ReadLink, Phys;
    if cs != [] && (haveDir || assumeDir) {
      if cs[0] == ".." {
        var up := if |start| >= |root| then DirName(start) else start;
        RankedRel(fs, up, cs[1..], haveDir, root, n, assumeDir, rank, top);
      } else {
        var file := JoinPath(start, cs[0]);
        assert RelLooksAt(fs, start, cs, haveDir, root, n, assumeDir, file);
        RankedPhys(fs, file, root, n, assumeDir, rank, top);
        match Phys(fs, file, root, n, assumeDir)
        case Err(_) =>
        case Ok((next, isDir)) =>
          forall g | LinkInside(fs, g, root) && RelLooksAt(fs, next, cs[1..], isDir, root, n, assumeDir, g)
            ensures rank(g) <= n
          {
            assert RelLooksAt(fs, start, cs, haveDir, root, n, assumeDir, g);
          }
          RankedRel(fs, next, cs[1..], isDir, root, n, assumeDir, rank, top);
      }
    }
  }

  lemma {:induction false} RankedPhys(fs: FileSystem, file: string, root: string, n: nat, assumeDir: bool,
                                      rank: string -> nat, top: nat)
    requires Ranked(fs, root, assumeDir, rank, top)
    requires LinkInside(fs, file, root) ==> rank(file) <= n
    ensures !Loops(Phys(fs, file, root, n, assumeDir))
    decreases n, 0
  {
    hide NormPath, IsLink, IsDir, JoinPath, DirName, RelFrom, RelLooksAt;
    if LinkInside(fs, file, root) {
      var text := ReadLink(fs, file);
      if text.Ok? {
        var target := NormPath(text.value);
        forall g | LinkInside(fs, g, root)
                   && RelLooksAt(fs, TargetDir(file, target, root), Split(target, SEP), true, root, n - 1, assumeDir, g)
          ensures rank(g) <= n - 1
        {
          assert LooksAt(fs, file, root, n - 1, assumeDir, g);
        }
        RankedRel(fs, TargetDir(file, target, root), Split(target, SEP), true, root, n - 1, assumeDir, rank, top);
        var next := Follow(fs, file, root, n - 1, assumeDir);
        if next.Ok? {
          assert LooksAt(fs, file, root, n - 1, assumeDir, next.value);
          RankedPhys(fs, next.value, root, n - 1, assumeDir, rank, top);
        }
      }
    }
  }

  /** The smallest counter that is enough for `file`. */
  function Need(fs: FileSystem, file: string, root: string, assumeDir: bool, n: nat): (k: nat)
    requires !Loops(Phys(fs, file, root, n, assumeDir))
    ensures k <= n && !Loops(Phys(fs, file, root, k, assumeDir))
  {
    hide Phys;
    if n > 0 && !Loops(Phys(fs, file, root, n - 1, assumeDir)) then Need(fs, file, root, assumeDir, n - 1) else n
  }

  lemma {:induction false} NeedIsLeast(fs: FileSystem, file: string, root: string, assumeDir: bool, n: nat, j: nat)
    requires !Loops(Phys(fs, file, root, n, assumeDir)) && !Loops(Phys(fs, file, root, j, assumeDir))
    ensures Need(fs, file, root, assumeDir, n) <= j
    decreases n
  {
    hide Phys, Loops;
    if j < n {
      PhysMoreLinks(fs, file, root, j, n - 1, assumeDir);
      NeedIsLeast(fs, file, root, assumeDir, n - 1, j);
    }
  }

  /** What a resolution that needs at most `m` looks at also needs at most `m`. */
  lemma {:induction false} RelNeeds(fs: FileSystem, start: string, cs: seq<string>, haveDir: bool,
                                    root: string, n: nat, m: nat, assumeDir: bool, g: string)
    requires !Loops(RelFrom(fs, start, cs, haveDir, root, m, assumeDir))
    requires RelLooksAt(fs, start, cs, haveDir, root, n, assumeDir, g)
    ensures !Loops(Phys(fs, g, root, m, assumeDir))
    decreases |cs|
  {
    hide NormPath, IsLink, IsDir, JoinPath, DirName, ReadLink, Phys;
    if cs[0] == ".." {
      var up := if |start| >= |root| then DirName(start) else start;
      RelNeeds(fs, up, cs[1..], haveDir, root, n, m, assumeDir, g);
    } else {
      var file := JoinPath(start, cs[0]);
      if file != g {
        SameAnswer(fs, file, root, n, m, assumeDir);
        var p := Phys(fs, file, root, m, assumeDir).value;
        RelNeeds(fs, p.0, cs[1..], p.1, root, n, m, assumeDir, g);
      }
    }
  }

  lemma SameAnswer(fs: FileSystem, file: string, root: string, n: nat, m: nat, assumeDir: bool)
    requires !Loops(Phys(fs, file, root, n, assumeDir)) && !Loops(Phys(fs, file, root, m, assumeDir))
    ensures Phys(fs, file, root, n, assumeDir) == Phys(fs, file, root, m, assumeDir)
  {
    hide NormPath, IsLink, IsDir, JoinPath, DirName, ReadLink, Phys;
    if n <= m { PhysMoreLinks(fs, file, root, n, m, assumeDir); }
    else { PhysMoreLinks(fs, file, root, m, n, assumeDir); }
  }

  lemma LookedAtNeedsLess(fs: FileSystem, f: string, g: string, root: string, n: nat, m: nat, assumeDir: bool)
    requires LinkInside(fs, f, root) && LooksAt(fs, f, root, n, assumeDir, g)
    requires !Loops(Phys(fs, f, root, m, assumeDir))
    ensures m > 0 && !Loops(Phys(fs, g, root, m - 1, assumeDir))
  {
    hide NormPath, IsLink, IsDir, JoinPath, DirName, ReadLink, RelLooksAt;
    PhysStep(fs, f, root, m, assumeDir);
    var next := Follow(fs, f, root, m - 1, assumeDir);
    assert !Loops(next);
    var target := NormPath(ReadLink(fs, f).value);
    var dir, cs := TargetDir(f, target, root), Split(target, SEP);
    if RelLooksAt(fs, dir, cs, true, root, n, assumeDir, g) {
      RelNeeds(fs, dir, cs, true, root, n, m - 1, assumeDir, g);
    } else {
      if n <= m - 1 {
        FollowMoreLinks(fs, f, root, n, m - 1, assumeDir);
      } else {
        FollowMoreLinks(fs, f, root, m - 1, n, assumeDir);
      }
      assert next == Ok(g);
    }
  }

  lemma NeedIsRank(fs: FileSystem, root: string, assumeDir: bool, top: nat) returns (rank: string -> nat)
    requires Enough(fs, root, assumeDir, top)
    ensures Ranked(fs, root, assumeDir, rank, top)
  {
    hide NormPath, IsLink, IsDir, JoinPath, DirName, ReadLink, Phys, LooksAt;
    rank := f => if !Loops(Phys(fs, f, root, top, assumeDir)) then Need(fs, f, root, assumeDir, top) else 0;
    forall f | LinkInside(fs, f, root)
      ensures 1 <= rank(f) <= top
    {
      PhysStep(fs, f, root, 0, assumeDir);
      assert Loops(Phys(fs, f, root, 0, assumeDir));
    }
    forall f, g, n: nat | LinkInside(fs, f, root) && LinkInside(fs, g, root) && LooksAt(fs, f, root, n, assumeDir, g)
      ensures rank(g) < rank(f)
    {
      LookedAtNeedsLess(fs, f, g, root, n, rank(f), assumeDir);
      NeedIsLeast(fs, g, root, assumeDir, top, rank(f) - 1);
    }
  }

  /** The counter `top` is enough for every path. */
  ghost predicate Enough(fs: FileSystem, root: string, assumeDir: bool, top: nat) {
    forall f :: !Loops(Phys(fs, f, root, top, assumeDir))
  }

  ghost predicate Rankable(fs: FileSystem, root: string, assumeDir: bool, top: nat) {
    exists rank: string -> nat :: Ranked(fs, root, assumeDir, rank, top)
  }

  /** A counter of `top` is enough for every path exactly when the links inside the
      root can be ranked from 1 to `top` so that ranks drop along link texts. */
  lemma EnoughIffRankable(fs: FileSystem, root: string, assumeDir: bool, top: nat)
    ensures Enough(fs, root, assumeDir, top) <==> Rankable(fs, root, assumeDir, top)
  {
    hide NormPath, IsLink, IsDir, JoinPath, DirName, ReadLink, Phys;
    if Rankable(fs, root, assumeDir, top) {
      var rank: string -> nat :| Ranked(fs, root, assumeDir, rank, top);
      forall f
        ensures !Loops(Phys(fs, f, root, top, assumeDir))
      {
        RankedPhys(fs, f, root, top, assumeDir, rank, top);
      }
    }
    if Enough(fs, root, assumeDir, top) {
      var rank := NeedIsRank(fs, root, assumeDir, top);
    }
  }

  lemma {:induction false} EnoughForRel(fs: FileSystem, start: string, cs: seq<string>, haveDir: bool,
                                        root: string, n: nat, assumeDir: bool)
    requires Enough(fs, root, assumeDir, n)
    ensures !Loops(RelFrom(fs, start, cs, haveDir, root, n, assumeDir))
    decreases |cs|
  {
    hide NormPath, IsLink, IsDir, JoinPath, DirName, ReadLink, Phys;
    if cs != [] && (haveDir || assumeDir) {
      if cs[0] == ".." {
        var up := if |start| >= |root| then DirName(start) else start;
        EnoughForRel(fs, up, cs[1..], haveDir, root, n, assumeDir);
      } else {
        match Phys(fs, JoinPath(start, cs[0]), root, n, assumeDir)
        case Err(_) =>
        case Ok((next, isDir)) => EnoughForRel(fs, next, cs[1..], isDir, root, n, assumeDir);
      }
    }
  }

  /** With links ranked by at most the counter, realpath never reports too many of them. */
  lemma RankedNeverTooMany(fs: FileSystem, file: string, root: string, usePhysDir: bool,
                           loopCnt: nat, assumeDir: bool, rank: string -> nat)
    requires Ranked(fs, RootOf(root), assumeDir, rank, loopCnt)
    ensures var r := RealPath(fs, file, root, usePhysDir, loopCnt, assumeDir);
            !(r.Err? && r.error.TooManyLinks?)
  {
    hide NormPath, IsLink, Phys, RelFrom, Ranked;
    var r, f := RootOf(root), NormPath(file);
    EnoughIffRankable(fs, r, assumeDir, loopCnt);
    assert Enough(fs, r, assumeDir, loopCnt);
    if IsPathBelow(f, r) {
      if usePhysDir {
        EnoughForRel(fs, r, Split(f[|r| - 1..], SEP), true, r, loopCnt, assumeDir);
      } else {
        assert !Loops(Phys(fs, f, r, loopCnt, assumeDir));
      }
    }
  }
}
