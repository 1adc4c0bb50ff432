/** oe.cachedpath: cached stat answers, and a resolver that stays below a root. */
module CachedPaths {
  import opened Options
  import opened Splitting
  import opened PosixPath
  import opened FileSystems

  // ---------------------------------------------------------------------
  // What the queries and the resolver compute
  // ---------------------------------------------------------------------

  predicate IsPathBelow(file: string, root: string) {
    root <= file + [SEP]
  }

  /** Resolve the components `cs` one after the other, from `start`. */
  function RelFrom(fs: FileSystem, start: string, cs: seq<string>, haveDir: bool,
                   root: string, loopCnt: nat, assumeDir: bool): Result<string, OsError>
    decreases loopCnt, 1, |cs|
  {
    if cs == [] then Ok(start)
    else if !haveDir && !assumeDir then Err(NoSuchDirectory(start))
    else if cs[0] == ".." then
      var up := if |start| >= |root| then DirName(start) else start;
      RelFrom(fs, up, cs[1..], haveDir, root, loopCnt, assumeDir)
    else
      match Phys(fs, JoinPath(start, cs[0]), root, loopCnt, assumeDir)
      case Err(e) => Err(e)
      case Ok((next, isDir)) => RelFrom(fs, next, cs[1..], isDir, root, loopCnt, assumeDir)
  }

  /** Where a relative or absolute link text is resolved from. */
  function TargetDir(file: string, target: string, root: string): string {
    if IsAbs(target) then root else DirName(file)
  }

  /** Follow `file` while it is a link; also say whether a directory is there. */
  function Phys(fs: FileSystem, file: string, root: string, loopCnt: nat, assumeDir: bool)
    : Result<(string, bool), OsError>
    decreases loopCnt, 0
  {
    if !(IsLink(fs, file) && |file| >= |root|) then Ok((file, IsDir(fs, file)))
    else if loopCnt == 0 then Err(LoopedAt(file))
    else
      match Follow(fs, file, root, loopCnt - 1, assumeDir)
      case Err(e) => Err(e)
      case Ok(next) => Phys(fs, next, root, loopCnt - 1, assumeDir)
  }

  /** Where the link at `file` leads: its text, normalised, resolved from its directory. */
  function Follow(fs: FileSystem, file: string, root: string, left: nat, assumeDir: bool): Result<string, OsError>
    decreases left, 2
  {
    match ReadLink(fs, file)
    case Err(e) => Err(e)
    case Ok(text) =>
      var target := NormPath(text);
      RelFrom(fs, TargetDir(file, target, root), Split(target, SEP), true, root, left, assumeDir)
  }

  function RootOf(root: string): string {
    var r := NormPath(root);
    if EndsWithSep(r) then r else r + [SEP]
  }

  datatype RealPathError =
    | NotBelowRoot(file: string)                  // EINVAL
    | TooManyLinks(resolving: string, at: string) // ELOOP, worded for the caller
    | Reraised(error: OsError)

  function Reworded(found: Result<string, OsError>, file: string): Result<string, RealPathError> {
    match found
    case Ok(p) => Ok(p)
    case Err(LoopedAt(at)) => Err(TooManyLinks(file, at))
    case Err(e) => Err(Reraised(e))
  }

  function PathOnly(r: Result<(string, bool), OsError>): Result<string, OsError> {
    match r
    case Ok((p, _)) => Ok(p)
    case Err(e) => Err(e)
  }

  function RealPath(fs: FileSystem, file: string, root: string, usePhysDir: bool,
                    loopCnt: nat, assumeDir: bool): Result<string, RealPathError>
  {
    var r, f := RootOf(root), NormPath(file);
    if !IsPathBelow(f, r) then Err(NotBelowRoot(f))
    else if usePhysDir then Reworded(RelFrom(fs, r, Split(f[|r| - 1..], SEP), true, r, loopCnt, assumeDir), f)
    else Reworded(PathOnly(Phys(fs, f, r, loopCnt, assumeDir)), f)
  }

  // ---------------------------------------------------------------------
  // Staying below the root
  // ---------------------------------------------------------------------

  /** A root as realpath prepares it: it ends in exactly one slash unless it is
      nothing but slashes. */
  predicate IsRoot(root: string) {
    EndsWithSep(root) && (AllSlashes(root) || !EndsWithSep(root[..|root| - 1]))
  }

  /** `p` is the root directory, with or without its last slash, or extends it. */
  predicate Inside(p: string, root: string) {
    root <= p || (p + [SEP] == root && !AllSlashes(root))
  }

  lemma RootOfIsRoot(root: string)
    ensures IsRoot(RootOf(root))
  {
    NormPathEnd(root);
    var r := NormPath(root);
    if !EndsWithSep(r) {
      assert RootOf(root)[..|r|] == r;
    }
  }

  lemma DirNameStaysInside(p: string, root: string)
    requires IsRoot(root) && root <= p
    ensures Inside(DirName(p), root)
  {
    var n := HeadLength(p);
    var head := p[..n];
    assert p[|root| - 1] == root[|root| - 1] == SEP;
    assert root <= head;
    if !AllSlashes(head) {
      StrippedStaysInside(head, root);
    }
  }

  lemma StrippedStaysInside(head: string, root: string)
    requires IsRoot(root) && root <= head && !AllSlashes(head)
    ensures Inside(StripTrailing(head), root)
  {
    var s := StripTrailing(head);
    if AllSlashes(root) {
      var i :| 0 <= i < |head| && head[i] != SEP;
      assert root <= s by {
        assert i < |s| && forall j :: 0 <= j < |root| ==> root[j] == SEP && head[j] == root[j];
      }
    } else {
      assert root[|root| - 2] != SEP by { assert root[..|root| - 1] != ""; }
      assert head[|root| - 2] == root[|root| - 2];
      assert |s| >= |root| - 1;
      if |s| == |root| - 1 {
        assert s + [SEP] == root;
      }
    }
  }

  lemma JoinPathStaysInside(p: string, c: string, root: string)
    requires IsRoot(root) && Inside(p, root) && SEP !in c
    ensures root <= JoinPath(p, c)
  {
    assert c != "" ==> c[0] in c;
    if !(root <= p) {
      assert root[..|root| - 1] == p;
    }
  }

  lemma TargetDirInside(file: string, target: string, root: string)
    requires IsRoot(root) && root <= file
    ensures Inside(TargetDir(file, target, root), root)
  {
    if !IsAbs(target) { DirNameStaysInside(file, root); }
  }

  lemma InsideIsBelow(p: string, root: string)
    requires Inside(p, root)
    ensures IsPathBelow(p, root)
  {}

  /** Whatever the links say, a path resolved from inside the root ends inside it. */
  lemma {:induction false} RelFromInside(fs: FileSystem, start: string, cs: seq<string>, haveDir: bool,
                                         root: string, loopCnt: nat, assumeDir: bool)
    requires IsRoot(root) && Inside(start, root) && SeparatorFree(cs, SEP)
    ensures var r := RelFrom(fs, start, cs, haveDir, root, loopCnt, assumeDir);
            r.Ok? ==> Inside(r.value, root)
    decreases loopCnt, 1, |cs|
  {
    hide Phys, NormPath, AllSlashes, DirName, JoinPath;
    if cs != [] && (haveDir || assumeDir) {
      if cs[0] == ".." {
        if |start| >= |root| { DirNameStaysInside(start, root); }
        var up := if |start| >= |root| then DirName(start) else start;
        RelFromInside(fs, up, cs[1..], haveDir, root, loopCnt, assumeDir);
      } else {
        assert cs[0] in cs;
        JoinPathStaysInside(start, cs[0], root);
        PhysInside(fs, JoinPath(start, cs[0]), root, loopCnt, assumeDir);
        var r := Phys(fs, JoinPath(start, cs[0]), root, loopCnt, assumeDir);
        if r.Ok? {
          RelFromInside(fs, r.value.0, cs[1..], r.value.1, root, loopCnt, assumeDir);
        }
      }
    }
  }

  lemma {:induction false} PhysInside(fs: FileSystem, file: string, root: string, loopCnt: nat, assumeDir: bool)
    requires IsRoot(root) && IsPathBelow(file, root)
    ensures var r := Phys(fs, file, root, loopCnt, assumeDir);
            r.Ok? ==> IsPathBelow(r.value.0, root) && (Inside(file, root) ==> Inside(r.value.0, root))
    decreases loopCnt, 0
  {
    hide RelFrom, Follow, NormPath, IsRoot, IsDir;
    if IsLink(fs, file) && |file| >= |root| && loopCnt > 0 {
      BelowIsInside(file, root);
      FollowInside(fs, file, root, loopCnt - 1, assumeDir);
      var next := Follow(fs, file, root, loopCnt - 1, assumeDir);
      if next.Ok? {
        InsideIsBelow(next.value, root);
        PhysInside(fs, next.value, root, loopCnt - 1, assumeDir);
      }
    }
  }

  lemma BelowIsInside(p: string, root: string)
    requires IsPathBelow(p, root) && |p| >= |root|
    ensures root <= p
  {
    assert (p + [SEP])[..|root|] == p[..|root|];
  }

  lemma {:induction false} FollowInside(fs: FileSystem, file: string, root: string, left: nat, assumeDir: bool)
    requires IsRoot(root) && root <= file
    ensures var r := Follow(fs, file, root, left, assumeDir);
            r.Ok? ==> Inside(r.value, root)
    decreases left, 2
  {
    var text := ReadLink(fs, file);
    if text.Ok? {
      var target := NormPath(text.value);
      TargetDirInside(file, target, root);
      RelFromInside(fs, TargetDir(file, target, root), Split(target, SEP), true, root, left, assumeDir);
    }
  }

  /** Containment: for every file system, with cyclic links, links full of `..`,
      and either way of starting, a path that realpath returns is below the root. */
  lemma RealPathBelowRoot(fs: FileSystem, file: string, root: string, usePhysDir: bool, loopCnt: nat, assumeDir: bool)
    ensures var r := RealPath(fs, file, root, usePhysDir, loopCnt, assumeDir);
            r.Ok? ==> IsPathBelow(r.value, RootOf(root))
  {
    hide RelFrom, Phys, NormPath, RootOf, AllSlashes;
    var r, f := RootOf(root), NormPath(file);
    RootOfIsRoot(root);
    if IsPathBelow(f, r) {
      if usePhysDir {
        RelFromInside(fs, r, Split(f[|r| - 1..], SEP), true, r, loopCnt, assumeDir);
      } else {
        PhysInside(fs, f, r, loopCnt, assumeDir);
      }
    }
  }

  // ---------------------------------------------------------------------
  // The caches
  // ---------------------------------------------------------------------

  type StatTable = map<string, Option<Stat>>

  /** Every remembered answer is the one the file system gives, and a remembered
      lstat answer always has a remembered stat answer beside it. */
  ghost predicate Agree(statcache: StatTable, lstatcache: StatTable, fs: FileSystem) {
    && (forall p :: p in statcache ==> statcache[p] == StatAt(fs, p))
    && (forall p :: p in lstatcache ==> lstatcache[p] == Lstat(fs, p))
    && lstatcache.Keys <= statcache.Keys
  }

  /** Remembered paths other than `x` get the same answers after the change. */
  ghost predicate OthersUnchanged(statcache: StatTable, lstatcache: StatTable, fs: FileSystem, changed: FileSystem,
                                  x: string) {
    && (forall p :: p in statcache && p != x ==> StatAt(changed, p) == StatAt(fs, p))
    && (forall p :: p in lstatcache && p != x ==> Lstat(changed, p) == Lstat(fs, p))
  }

  /** After a change of the file system, forgetting `x` restores agreement exactly
      when nothing else that is remembered changed. */
  lemma ForgettingRestores(statcache: StatTable, lstatcache: StatTable, fs: FileSystem, changed: FileSystem, x: string)
    requires Agree(statcache, lstatcache, fs)
    ensures Agree(statcache - {x}, lstatcache - {x}, changed)
            <==> OthersUnchanged(statcache, lstatcache, fs, changed, x)
  {
    forall p | p in statcache && p != x
      ensures p in statcache - {x} && (statcache - {x})[p] == StatAt(fs, p)
    {}
    forall p | p in lstatcache && p != x
      ensures p in lstatcache - {x} && (lstatcache - {x})[p] == Lstat(fs, p)
    {}
  }

  lemma Remembered(statcache: StatTable, lstatcache: StatTable, fs: FileSystem, n: string)
    requires Agree(statcache, lstatcache, fs) && n in lstatcache
    ensures lstatcache[n] == Lstat(fs, n) && n in statcache && lstatcache == lstatcache[n := Lstat(fs, n)]
  {
    hide StatAt, Lstat;
  }

  lemma RememberBoth(statcache: StatTable, lstatcache: StatTable, fs: FileSystem, n: string)
    requires Agree(statcache, lstatcache, fs)
    ensures Agree(statcache[n := StatAt(fs, n)], lstatcache[n := Lstat(fs, n)], fs)
  {
    hide StatAt, Lstat;
  }

  /** What is no link has one answer for both questions. */
  lemma NoLinkStatsAlike(fs: FileSystem, p: string)
    requires Lstat(fs, p).Some? ==> Lstat(fs, p).value.kind != Symlink
    ensures StatAt(fs, p) == Lstat(fs, p)
  {}

  datatype Query =
    | AskStat(path: string) | AskLstat(path: string)
    | AskIsFile(path: string) | AskIsDir(path: string) | AskIsLink(path: string)
    | AskExists(path: string) | AskLexists(path: string)

  datatype Answer = Record(st: Option<Stat>) | Flag(yes: bool)

  /** The answer without any cache. */
  function Uncached(fs: FileSystem, q: Query): Answer {
    match q
    case AskStat(p) => Record(StatAt(fs, NormPath(p)))
    case AskLstat(p) => Record(Lstat(fs, NormPath(p)))
    case AskIsFile(p) => Flag(IsFile(fs, p))
    case AskIsDir(p) => Flag(IsDir(fs, p))
    case AskIsLink(p) => Flag(IsLink(fs, p))
    case AskExists(p) => Flag(StatAt(fs, NormPath(p)).Some?)
    case AskLexists(p) => Flag(Lstat(fs, NormPath(p)).Some?)
  }

  class CachedPath {
    var statcache: StatTable
    var lstatcache: StatTable
    var normpathcache: map<string, string>

    ghost predicate Valid(fs: FileSystem)
      reads this
    {
      && Agree(statcache, lstatcache, fs)
      && forall p :: p in normpathcache ==> normpathcache[p] == NormPath(p)
    }

    constructor ()
      ensures statcache == map[] && lstatcache == map[] && normpathcache == map[]
      ensures forall fs :: Valid(fs)
    {
      statcache, lstatcache, normpathcache := map[], map[], map[];
    }

    method NormalPath(path: string) returns (newpath: string)
      requires forall p :: p in normpathcache ==> normpathcache[p] == NormPath(p)
      modifies this`normpathcache
      ensures newpath == NormPath(path)
      ensures forall p :: p in normpathcache ==> normpathcache[p] == NormPath(p)
      ensures normpathcache.Keys == old(normpathcache.Keys) + {path}
    {
      if path in normpathcache {
        return normpathcache[path];
      }
      newpath := NormPath(path);
      normpathcache := normpathcache[path := newpath];
    }

    /** Forgets `x` and nothing else. Caches that were valid for the file system before a
        change are valid after it exactly when no other remembered path changed. */
    method UpdateCache(x: string)
      requires forall p :: p in normpathcache ==> normpathcache[p] == NormPath(p)
      modifies this
      ensures forall fs, changed :: old(Valid(fs)) ==>
                (Valid(changed) <==> OthersUnchanged(old(statcache), old(lstatcache), fs, changed, NormPath(x)))
      ensures statcache == old(statcache) - {NormPath(x)}
      ensures lstatcache == old(lstatcache) - {NormPath(x)}
      ensures forall p :: p in normpathcache ==> normpathcache[p] == NormPath(p)
    {
      hide NormPath, OthersUnchanged, StatAt, Lstat;
      var n := NormalPath(x);
      if n in statcache {
        statcache := statcache - {n};
      }
      if n in lstatcache {
        lstatcache := lstatcache - {n};
      }
      forall fs, changed | old(Valid(fs))
        ensures Valid(changed) <==> OthersUnchanged(old(statcache), old(lstatcache), fs, changed, NormPath(x))
      {
        ForgettingRestores(old(statcache), old(lstatcache), fs, changed, n);
      }
    }

    method CallStatUncached(fs: FileSystem, path: string) returns (st: Option<Stat>)
      requires Valid(fs)
      modifies this`statcache
      ensures Valid(fs) && st == StatAt(fs, path)
      ensures statcache == old(statcache)[path := st]
    {
      if path in statcache {
        assert statcache == statcache[path := StatAt(fs, path)];
        return statcache[path];
      }
      st := StatAt(fs, path);
      statcache := statcache[path := st];
    }

    method CallLstat(fs: FileSystem, path: string) returns (st: Option<Stat>)
      requires Valid(fs)
      modifies this
      ensures Valid(fs) && st == Lstat(fs, NormPath(path))
      ensures lstatcache == old(lstatcache)[NormPath(path) := st]
      ensures old(statcache.Keys) <= statcache.Keys && NormPath(path) in statcache
    {
      hide NormPath, StatAt, Lstat, Agree;
      var n := NormalPath(path);
      if n in lstatcache {
        Remembered(statcache, lstatcache, fs, n);
        return lstatcache[n];
      }
      RememberBoth(statcache, lstatcache, fs, n);
      st := Lstat(fs, n);
      if st.Some? && st.value.kind == Symlink {
        var _ := CallStatUncached(fs, n);
      } else {
        NoLinkStatsAlike(fs, n);
        statcache := statcache[n := st];
      }
      lstatcache := lstatcache[n := st];
    }

    /** The lookup at the end never misses: the normalised path normalises to itself. */
    method CallStat(fs: FileSystem, path: string) returns (st: Option<Stat>)
      requires Valid(fs)
      modifies this
      ensures Valid(fs) && st == StatAt(fs, NormPath(path))
    {
      var n := NormalPath(path);
      var _ := CallLstat(fs, n);
      NormPathIdempotent(path);
      st := statcache[n];
    }

    method IsFileAt(fs: FileSystem, path: string) returns (b: bool)
      requires Valid(fs)
      modifies this
      ensures Valid(fs) && b == IsFile(fs, path)
    {
      var st := CallStat(fs, path);
      b := st.Some? && st.value.kind == Regular;
    }

    method IsDirAt(fs: FileSystem, path: string) returns (b: bool)
      requires Valid(fs)
      modifies this
      ensures Valid(fs) && b == IsDir(fs, path)
    {
      var st := CallStat(fs, path);
      b := st.Some? && st.value.kind == Directory;
    }

    method IsLinkAt(fs: FileSystem, path: string) returns (b: bool)
      requires Valid(fs)
      modifies this
      ensures Valid(fs) && b == IsLink(fs, path)
    {
      var st := CallLstat(fs, path);
      b := st.Some? && st.value.kind == Symlink;
    }

    method Ask(fs: FileSystem, q: Query) returns (a: Answer)
      requires Valid(fs)
      modifies this
      ensures Valid(fs) && a == Uncached(fs, q)
    {
      match q
      case AskStat(p) => { var st := CallStat(fs, p); a := Record(st); }
      case AskLstat(p) => { var st := CallLstat(fs, p); a := Record(st); }
      case AskIsFile(p) => { var b := IsFileAt(fs, p); a := Flag(b); }
      case AskIsDir(p) => { var b := IsDirAt(fs, p); a := Flag(b); }
      case AskIsLink(p) => { var b := IsLinkAt(fs, p); a := Flag(b); }
      case AskExists(p) => { var st := CallStat(fs, p); a := Flag(st.Some?); }
      case AskLexists(p) => { var st := CallLstat(fs, p); a := Flag(st.Some?); }
    }

    /** Over any sequence of queries the cache is invisible. */
    method AskAll(fs: FileSystem, qs: seq<Query>) returns (answers: seq<Answer>)
      requires Valid(fs)
      modifies this
      ensures Valid(fs) && |answers| == |qs|
      ensures forall i :: 0 <= i < |qs| ==> answers[i] == Uncached(fs, qs[i])
    {
      hide Uncached;
      answers := [];
      for k := 0 to |qs|
        invariant Valid(fs) && |answers| == k
        invariant forall i :: 0 <= i < k ==> answers[i] == Uncached(fs, qs[i])
      {
        var a := Ask(fs, qs[k]);
        answers := answers + [a];
      }
    }

    method ResolveRel(fs: FileSystem, start0: string, relPath: string, root: string, loopCnt: nat, assumeDir: bool)
      returns (r: Result<string, OsError>)
      requires Valid(fs) && IsRoot(root) && Inside(start0, root)
      modifies this
      ensures Valid(fs)
      ensures r == RelFrom(fs, start0, Split(relPath, SEP), true, root, loopCnt, assumeDir)
      decreases loopCnt, 1
    {
      var cs := Split(relPath, SEP);
      hide NormPath, DirName, JoinPath, Phys;
      ghost var found := RelFrom(fs, start0, cs, true, root, loopCnt, assumeDir);
      var start, haveDir := start0, true;
      for i := 0 to |cs|
        invariant Valid(fs) && Inside(start, root)
        invariant found == RelFrom(fs, start, cs[i..], haveDir, root, loopCnt, assumeDir)
      {
        var d := cs[i];
        assert cs[i..][0] == d && cs[i..][1..] == cs[i + 1..];
        if !haveDir && !assumeDir {
          return Err(NoSuchDirectory(start));
        }
        if d == ".." {
          if |start| >= |root| {
            DirNameStaysInside(start, root);
            start := DirName(start);
          }
        } else {
          JoinPathStaysInside(start, d, root);
          PhysInside(fs, JoinPath(start, d), root, loopCnt, assumeDir);
          var p := Resolve(fs, JoinPath(start, d), root, loopCnt, assumeDir);
          match p
          case Err(e) => return Err(e);
          case Ok((next, isDir)) => start, haveDir := next, isDir;
        }
        InsideIsBelow(start, root);
        assert IsPathBelow(start, root);  // the assertion the source makes here
      }
      r := Ok(start);
    }

    /** The body of the loop in Resolve. */
    method FollowLink(fs: FileSystem, file: string, root: string, left: nat, assumeDir: bool)
      returns (next: Result<string, OsError>)
      requires Valid(fs) && IsRoot(root) && root <= file
      modifies this
      ensures Valid(fs) && next == Follow(fs, file, root, left, assumeDir)
      ensures next.Ok? ==> Inside(next.value, root)
      decreases left, 2
    {
      FollowInside(fs, file, root, left, assumeDir);
      var text := ReadLink(fs, file);
      if text.Err? {
        return Err(text.error);
      }
      var target := NormPath(text.value);
      TargetDirInside(file, target, root);
      var tdir;
      if !IsAbs(target) {
        tdir := DirName(file);
        InsideIsBelow(tdir, root);
        assert IsPathBelow(tdir, root);  // the assertion the source makes here
      } else {
        tdir := root;
      }
      next := ResolveRel(fs, tdir, target, root, left, assumeDir);
    }

    method Resolve(fs: FileSystem, file0: string, root: string, loopCnt: nat, assumeDir: bool)
      returns (r: Result<(string, bool), OsError>)
      requires Valid(fs) && IsRoot(root) && IsPathBelow(file0, root)
      modifies this
      ensures Valid(fs) && r == Phys(fs, file0, root, loopCnt, assumeDir)
      decreases loopCnt, 0
    {
      hide NormPath, DirName, JoinPath, RelFrom, Follow;
      ghost var found := Phys(fs, file0, root, loopCnt, assumeDir);
      var file, left := file0, loopCnt;
      var link := IsLinkAt(fs, file);
      while link && |file| >= |root|
        invariant Valid(fs) && IsPathBelow(file, root) && 0 <= left <= loopCnt
        invariant link == IsLink(fs, file)
        invariant found == Phys(fs, file, root, left, assumeDir)
        decreases left
      {
        if left == 0 {
          return Err(LoopedAt(file));
        }
        left := left - 1;
        BelowIsInside(file, root);
        var next := FollowLink(fs, file, root, left, assumeDir);
        if next.Err? {
          return Err(next.error);
        }
        file := next.value;
        InsideIsBelow(file, root);
        link := IsLinkAt(fs, file);
      }
      var isDir := IsDirAt(fs, file);
      r := Ok((file, isDir));
    }

    method ResolvePath(fs: FileSystem, file: string, root: string, usePhysDir: bool, loopCnt: nat, assumeDir: bool)
      returns (r: Result<string, RealPathError>)
      requires Valid(fs)
      modifies this
      ensures Valid(fs) && r == RealPath(fs, file, root, usePhysDir, loopCnt, assumeDir)
      ensures r.Ok? ==> IsPathBelow(r.value, RootOf(root))
    {
      RealPathBelowRoot(fs, file, root, usePhysDir, loopCnt, assumeDir);
      RootOfIsRoot(root);
      var top := NormPath(root);
      var f := NormPath(file);
      if !EndsWithSep(top) {
        top := top + [SEP];
      }
      if !IsPathBelow(f, top) {
        return Err(NotBelowRoot(f));
      }
      var found;
      if usePhysDir {
        found := ResolveRel(fs, top, f[|top| - 1..], top, loopCnt, assumeDir);
      } else {
        var p := Resolve(fs, f, top, loopCnt, assumeDir);
        found := PathOnly(p);
      }
      match found
      case Ok(p) => r := Ok(p);
      case Err(LoopedAt(at)) => r := Err(TooManyLinks(f, at));
      case Err(e) => r := Err(Reraised(e));
    }
  }
}
