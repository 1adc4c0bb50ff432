/** compare_file_lists: the changes between two listings. */
module FileListDiff {
  import opened Counting
  import opened Options
  import opened Splitting
  import opened FileLists
  import opened FileMoves

  datatype ChangeType = Added | Removed | TypeChanged | PermsChanged | OwnerChanged | LinkChanged | Moved

  datatype FileChange = FileChange(path: string, kind: ChangeType, oldvalue: Option<string>, newvalue: Option<string>)

  function Owner(f: Fields): string
    requires |f| >= 3
  {
    f[1] + "/" + f[2]
  }

  function LinkField(f: Fields): Option<string> {
    if |f| > 3 then Some(f[3]) else None
  }

  function Note(differs: bool, path: string, kind: ChangeType, oldvalue: Option<string>,
                newvalue: Option<string>): seq<FileChange> {
    if differs then [FileChange(path, kind, oldvalue, newvalue)] else []
  }

  /** What changed at a path both listings have. */
  function EntryChanges(path: string, f: Fields, g: Fields, compareOwnership: bool): Result<seq<FileChange>>
    requires ValidFields(f) && ValidFields(g)
  {
    var changes :=
      Note(f[0][0] != g[0][0], path, TypeChanged, Some([f[0][0]]), Some([g[0][0]]))
      + Note(f[0][1..] != g[0][1..], path, PermsChanged, Some(f[0][1..]), Some(g[0][1..]))
      + Note(compareOwnership && Owner(f) != Owner(g), path, OwnerChanged, Some(Owner(f)), Some(Owner(g)));
    if g[0][0] != 'l' then Ok(changes)
    else if |g| <= 3 then IndexError
    else Ok(changes + Note(LinkField(f) != Some(g[3]), path, LinkChanged, LinkField(f), Some(g[3])))
  }

  function CommonChanges(a: Dict, b: Dict, compareOwnership: bool, paths: seq<string>): Result<seq<FileChange>>
    requires Listing(a) && Listing(b) && forall p :: p in paths ==> p in a.get
  {
    if paths == [] then Ok([])
    else
      var init, p := paths[..|paths| - 1], paths[|paths| - 1];
      assert p in paths;
      match CommonChanges(a, b, compareOwnership, init)
      case IndexError => IndexError
      case Ok(changes) =>
        if p !in b.get then Ok(changes)
        else
          match EntryChanges(p, a.get[p], b.get[p], compareOwnership)
          case IndexError => IndexError
          case Ok(more) => Ok(changes + more)
  }

  function MoveChanges(moves: seq<(string, string)>): seq<FileChange> {
    seq(|moves|, i requires 0 <= i < |moves| => FileChange(moves[i].0, Moved, Some(moves[i].1), None))
  }

  function RenameChanges(renames: seq<(string, string)>): seq<FileChange> {
    seq(|renames|, i requires 0 <= i < |renames| => FileChange(renames[i].1, Moved, Some(renames[i].0), None))
  }

  function PathChanges(paths: seq<string>, kind: ChangeType): seq<FileChange> {
    seq(|paths|, i requires 0 <= i < |paths| => FileChange(paths[i], kind, None, None))
  }

  function Reports(st: Moves): seq<FileChange> {
    MoveChanges(st.moves) + RenameChanges(st.renames) + PathChanges(st.additions, Added)
      + PathChanges(st.removals, Removed)
  }

  function Compare(a: Dict, b: Dict, compareOwnership: bool): Result<seq<FileChange>>
    requires Listing(a) && Listing(b)
  {
    match CommonChanges(a, b, compareOwnership, a.order)
    case IndexError => IndexError
    case Ok(changes) => Ok(changes + Reports(DetectMoves(NewOnly(a, b), OldOnly(a, b), a.get)))
  }

  // ---------------------------------------------------------------------
  // The passes of compare_file_lists
  // ---------------------------------------------------------------------

  /** What is left of `b` once the paths `ps` are popped. */
  function Without(b: Dict, ps: seq<string>): Dict {
    Dict(FilterSeq((p: string) => p !in ps, b.order), map p | p in b.get && p !in ps :: b.get[p])
  }

  lemma {:induction false} FilterTwice(keep: string -> bool, keep2: string -> bool, both: string -> bool,
                                       xs: seq<string>)
    requires forall x :: both(x) <==> keep(x) && keep2(x)
    ensures FilterSeq(keep2, FilterSeq(keep, xs)) == FilterSeq(both, xs)
    decreases |xs|
  {
    if xs == [] {
    } else {
      var init, last := xs[..|xs| - 1], xs[|xs| - 1];
      FilterTwice(keep, keep2, both, init);
      var ys := FilterSeq(keep, init);
      if keep(last) {
        assert (ys + [last])[..|ys|] == ys;
      } else {
        assert ys + [] == ys;
      }
    }
  }

  lemma {:induction false} FilterSame(keep: string -> bool, keep2: string -> bool, xs: seq<string>)
    requires forall x :: x in xs ==> (keep(x) <==> keep2(x))
    ensures FilterSeq(keep, xs) == FilterSeq(keep2, xs)
    decreases |xs|
  {
    if xs == [] {
    } else {
      var init, last := xs[..|xs| - 1], xs[|xs| - 1];
      assert last in xs && forall x :: x in init ==> x in xs;
      FilterSame(keep, keep2, init);
    }
  }

  lemma PopOne(b: Dict, ps: seq<string>, p: string)
    ensures Without(Without(b, ps), [p]) == Without(b, ps + [p])
  {
    FilterTwice((x: string) => x !in ps, (x: string) => x !in [p], (x: string) => x !in ps + [p], b.order);
  }

  lemma PoppedGet(b: Dict, ps: seq<string>, p: string)
    requires p !in ps
    ensures p in Without(b, ps).get <==> p in b.get
    ensures p in b.get ==> Without(b, ps).get[p] == b.get[p]
  {}

  lemma PopNone(b: Dict, ps: seq<string>, p: string)
    requires ValidDict(b) && p !in b.get
    ensures Without(b, ps + [p]) == Without(b, ps)
  {
    FilterSame((x: string) => x !in ps, (x: string) => x !in ps + [p], b.order);
  }

  lemma {:induction false} FailureStays(a: Dict, b: Dict, compareOwnership: bool, k: nat)
    requires Listing(a) && Listing(b) && k <= |a.order|
    requires CommonChanges(a, b, compareOwnership, a.order[..k]).IndexError?
    ensures CommonChanges(a, b, compareOwnership, a.order).IndexError?
    decreases |a.order| - k
  {
    if k == |a.order| {
      assert a.order[..k] == a.order;
    } else {
      assert a.order[..k + 1][..k] == a.order[..k];
      FailureStays(a, b, compareOwnership, k + 1);
    }
  }

  /** The first loop: changes of common paths, removals, and what is left of `b`. */
  method CommonPass(a: Dict, b: Dict, compareOwnership: bool)
    returns (r: Result<seq<FileChange>>, removals: seq<string>, left: Dict)
    requires Listing(a) && Listing(b)
    ensures r == CommonChanges(a, b, compareOwnership, a.order)
    ensures r.Ok? ==> removals == OldOnly(a, b) && left == Without(b, a.order)
  {
    hide EntryChanges, Without, FilterSeq, CommonChanges;
    NoChanges(a, b, compareOwnership);
    ghost var keep := (p: string) => p !in b.get;
    FilterNone(keep);
    var changes: seq<FileChange> := [];
    removals, left := [], b;
    EmptyPop(b);
    for i := 0 to |a.order|
      invariant CommonChanges(a, b, compareOwnership, a.order[..i]) == Ok(changes)
      invariant removals == FilterSeq(keep, a.order[..i])
      invariant left == Without(b, a.order[..i])
    {
      var path := a.order[i];
      FilterSnoc(keep, a.order[..i], path);
      ChangesSnoc(a, b, compareOwnership, a.order[..i], path);
      assert a.order[..i + 1] == a.order[..i] + [path] && a.order[..i + 1][..i] == a.order[..i];
      var splitv := a.get[path];
      assert path !in a.order[..i];
      PoppedGet(b, a.order[..i], path);
      if path in left.get {
        var newsplitv := left.get[path];
        PopOne(b, a.order[..i], path);
        left := Without(left, [path]);
        var more := EntryChanges(path, splitv, newsplitv, compareOwnership);
        if more.IndexError? {
          FailureStays(a, b, compareOwnership, i + 1);
          return IndexError, removals, left;
        }
        changes := changes + more.value;
      } else {
        PopNone(b, a.order[..i], path);
        removals := removals + [path];
      }
    }
    assert a.order[..|a.order|] == a.order;
    r := Ok(changes);
    OldOnlyIs(a, b, keep);
  }

  lemma NoChanges(a: Dict, b: Dict, compareOwnership: bool)
    requires Listing(a) && Listing(b)
    ensures CommonChanges(a, b, compareOwnership, []) == Ok([])
  {}

  lemma FilterNone(keep: string -> bool)
    ensures FilterSeq(keep, []) == []
  {}

  lemma FilterSnoc(keep: string -> bool, xs: seq<string>, x: string)
    ensures keep(x) ==> FilterSeq(keep, xs + [x]) == FilterSeq(keep, xs) + [x]
    ensures !keep(x) ==> FilterSeq(keep, xs + [x]) == FilterSeq(keep, xs)
  {
    assert (xs + [x])[..|xs|] == xs;
  }

  function MoreChanges(changes: seq<FileChange>, more: Result<seq<FileChange>>): Result<seq<FileChange>> {
    match more
    case IndexError => IndexError
    case Ok(cs) => Ok(changes + cs)
  }

  /** One more path of the first listing. */
  lemma ChangesSnoc(a: Dict, b: Dict, compareOwnership: bool, paths: seq<string>, p: string)
    requires Listing(a) && Listing(b) && (forall q :: q in paths ==> q in a.get) && p in a.get
    requires CommonChanges(a, b, compareOwnership, paths).Ok?
    ensures p !in b.get ==>
              CommonChanges(a, b, compareOwnership, paths + [p]) == CommonChanges(a, b, compareOwnership, paths)
    ensures p in b.get ==>
              CommonChanges(a, b, compareOwnership, paths + [p])
              == MoreChanges(CommonChanges(a, b, compareOwnership, paths).value,
                             EntryChanges(p, a.get[p], b.get[p], compareOwnership))
  {
    hide EntryChanges;
    assert (paths + [p])[..|paths|] == paths;
  }

  lemma OldOnlyIs(a: Dict, b: Dict, keep: string -> bool)
    requires forall p :: keep(p) <==> p !in b.get
    ensures FilterSeq(keep, a.order) == OldOnly(a, b)
  {
    FilterSame(keep, (p: string) => p !in b.get, a.order);
  }

  lemma EmptyPop(b: Dict)
    ensures Without(b, []) == b
  {
    FilterAll((p: string) => p !in [], b.order);
  }

  lemma {:induction false} FilterAll(keep: string -> bool, xs: seq<string>)
    requires forall x :: x in xs ==> keep(x)
    ensures FilterSeq(keep, xs) == xs
    decreases |xs|
  {
    if xs == [] {
    } else {
      var init, last := xs[..|xs| - 1], xs[|xs| - 1];
      assert xs == init + [last] && last in xs;
      forall x | x in init
        ensures keep(x)
      {
        assert x in xs;
      }
      FilterAll(keep, init);
    }
  }

  method BuildRevMap(removals: seq<string>) returns (rev: map<string, seq<string>>)
    ensures rev == RevMap(removals)
  {
    hide Mask;
    rev := map[];
    for i := 0 to |removals|
      invariant rev == RevMap(removals[..i])
    {
      assert removals[..i + 1][..i] == removals[..i];
      var translated := Mask(removals[i]);
      if translated !in rev {
        rev := rev[translated := []];
      }
      rev := rev[translated := rev[translated] + [removals[i]]];
    }
    assert removals[..|removals|] == removals;
  }

  /** The scan for the first different component; it never runs out of components. */
  method ScanDirs(addition: string, removal: string) returns (dir: string, dir2: string)
    requires addition != removal && Mask(addition) == Mask(removal)
    ensures (dir, dir2) == CommonDirs(addition, removal)
  {
    var xs, ys := Split(addition, SLASH), Split(removal, SLASH);
    ScanFindsDifference(addition, removal);
    ghost var n := FirstDiff(xs, ys);
    assert forall k :: 0 <= k < n ==> xs[..n][k] == xs[k] && ys[..n][k] == ys[k];
    var i := 0;
    while xs[i] == ys[i]
      invariant 0 <= i <= n
      decreases n - i
    {
      i := i + 1;
    }
    dir, dir2 := Join(xs[..i + 1], SLASH), Join(ys[..i + 1], SLASH);
  }

  /** The inner loop over a copy of the additions; list.remove always finds its item. */
  method StrikeTree(dir: string, dir2: string, st: Moves) returns (e: Moves)
    requires Distinct(st.additions)
    ensures e == Strike(dir, dir2, st, st.additions)
  {
    hide ReplaceAll, Remove;
    var todo := st.additions;
    e := st;
    for k := 0 to |todo|
      invariant e == Strike(dir, dir2, st, todo[..k])
    {
      var addition := todo[k];
      assert todo[..k + 1][..k] == todo[..k];
      StrikeLeavesRest(dir, dir2, st, todo, k, k);
      if dir <= addition {
        var removal := ReplaceAll(addition, dir, dir2);
        if removal in e.removals {
          e := e.(additions := Remove(e.additions, addition), removals := Remove(e.removals, removal),
                  struck := e.struck + [(addition, removal)]);
        }
      }
    }
    assert todo[..|todo|] == todo;
  }

  method PairMoves(rev: map<string, seq<string>>, additions: seq<string>, removals: seq<string>,
                   adict: map<string, Fields>)
    returns (st: Moves)
    requires rev == RevMap(removals) && Distinct(additions) && Distinct(removals)
    requires forall x :: x in additions ==> x !in removals
    ensures st == DetectMoves(additions, removals, adict)
  {
    hide RevMap, Strike, CommonDirs, Mask, Remove, Conserved, Explained;
    ghost var start := Moves(additions, removals, [], [], [], []);
    StartConserved(additions, removals);
    st := Moves(additions, removals, [], [], [], []);
    for k := 0 to |additions|
      invariant st == MoveAll(rev, additions, adict, start, additions[..k])
      invariant Conserved(additions, removals, st) && Explained(removals, st)
    {
      var addition := additions[k];
      assert additions[..k + 1][..k] == additions[..k];
      ghost var before := st;
      MoveStepConserves(additions, removals, additions, adict, before, addition);
      if addition in st.additions {
        var translated := Mask(addition);
        if translated in rev && |rev[translated]| == 1 {
          var removal := rev[translated][0];
          assert removal in rev[translated];
          var dir, dir2 := ScanDirs(addition, removal);
          if dir2 !in additions && dir !in adict && !HasRename(st.renames, dir) {
            PendingDistinct(additions, removals, st);
            st := st.(renames := st.renames + [(dir, dir2)]);
            st := StrikeTree(dir, dir2, st);
          } else {
            st := OwnMove(st, addition, removal);
          }
        }
      }
      assert st == MoveStep(rev, additions, adict, before, addition);
    }
    assert additions[..|additions|] == additions;
  }

  lemma StartConserved(additions: seq<string>, removals: seq<string>)
    ensures var st := Moves(additions, removals, [], [], [], []);
            Conserved(additions, removals, st) && Explained(removals, st)
  {
    assert Firsts([]) == [] && Seconds([]) == [];
  }

  method CompareFileLists(alines: seq<string>, blines: seq<string>, compareOwnership: bool)
    returns (r: Result<seq<FileChange>>)
    ensures DictOf(alines).IndexError? || DictOf(blines).IndexError? ==> r.IndexError?
    ensures DictOf(alines).Ok? && DictOf(blines).Ok? ==>
              && Listing(DictOf(alines).value) && Listing(DictOf(blines).value)
              && r == Compare(DictOf(alines).value, DictOf(blines).value, compareOwnership)
  {
    var a := FileListToDict(alines);
    if a.IndexError? { return IndexError; }
    var b := FileListToDict(blines);
    if b.IndexError? { return IndexError; }
    r := CompareDicts(a.value, b.value, compareOwnership);
  }

  method CompareDicts(a: Dict, b: Dict, compareOwnership: bool) returns (r: Result<seq<FileChange>>)
    requires Listing(a) && Listing(b)
    ensures r == Compare(a, b, compareOwnership)
  {
    hide CommonChanges, RevMap, MoveAll;
    var changes, removals, left := CommonPass(a, b, compareOwnership);
    if changes.IndexError? { return IndexError; }
    var additions := left.order;
    LeftIsNewOnly(a, b);
    OnlyDistinct(a, b);
    var rev := BuildRevMap(removals);
    var st := PairMoves(rev, additions, removals, a.get);
    var filechanges := changes.value + MoveChanges(st.moves);
    filechanges := filechanges + RenameChanges(st.renames);
    filechanges := filechanges + PathChanges(st.additions, Added);
    filechanges := filechanges + PathChanges(st.removals, Removed);
    assert filechanges == changes.value + Reports(st);
    r := Ok(filechanges);
  }

  lemma LeftIsNewOnly(a: Dict, b: Dict)
    requires ValidDict(a)
    ensures Without(b, a.order).order == NewOnly(a, b)
  {
    FilterSame((p: string) => p !in a.order, (p: string) => p !in a.get, b.order);
  }

  lemma OnlyDistinct(a: Dict, b: Dict)
    requires ValidDict(a) && ValidDict(b)
    ensures Distinct(NewOnly(a, b)) && Distinct(OldOnly(a, b))
    ensures forall x :: x in NewOnly(a, b) ==> x !in OldOnly(a, b)
  {
    FilterDistinct((p: string) => p !in a.get, b.order);
    FilterDistinct((p: string) => p !in b.get, a.order);
  }

  // ---------------------------------------------------------------------
  // Main results
  // ---------------------------------------------------------------------

  /** Conservation: the paths only one listing has are accounted for exactly once by
      what is reported added or removed, by moves, and by pairs under a rename. */
  lemma ComparisonConserves(a: Dict, b: Dict, compareOwnership: bool)
    requires Listing(a) && Listing(b) && Compare(a, b, compareOwnership).Ok?
    ensures var st := DetectMoves(NewOnly(a, b), OldOnly(a, b), a.get);
            && Conserved(NewOnly(a, b), OldOnly(a, b), st) && Explained(OldOnly(a, b), st)
            && exists common :: Compare(a, b, compareOwnership) == Ok(common + Reports(st))
                                && CommonChanges(a, b, compareOwnership, a.order) == Ok(common)
  {
    hide DetectMoves, CommonChanges;
    OnlyDistinct(a, b);
    MovesConserve(NewOnly(a, b), OldOnly(a, b), a.get);
  }

  /** What a comparison looks at in an entry. */
  function View(f: Fields, compareOwnership: bool): (string, string, Option<string>)
    requires ValidFields(f)
  {
    (f[0], if compareOwnership then Owner(f) else "", if f[0][0] == 'l' then LinkField(f) else None)
  }

  ghost predicate SameEntry(f: Fields, g: Fields, compareOwnership: bool) {
    && ValidFields(f) && ValidFields(g)
    && View(f, compareOwnership) == View(g, compareOwnership) && (g[0][0] == 'l' ==> |g| > 3)
  }

  lemma UnchangedEntry(path: string, f: Fields, g: Fields, compareOwnership: bool)
    requires ValidFields(f) && ValidFields(g)
    ensures EntryChanges(path, f, g, compareOwnership) == Ok([]) <==> SameEntry(f, g, compareOwnership)
  {
    assert f[0] == [f[0][0]] + f[0][1..] && g[0] == [g[0][0]] + g[0][1..];
  }

  lemma {:induction false} UnchangedCommon(a: Dict, b: Dict, compareOwnership: bool, paths: seq<string>)
    requires Listing(a) && Listing(b) && forall p :: p in paths ==> p in a.get
    ensures CommonChanges(a, b, compareOwnership, paths) == Ok([])
            <==> forall p :: p in paths && p in b.get ==> SameEntry(a.get[p], b.get[p], compareOwnership)
    decreases |paths|
  {
    hide EntryChanges, SameEntry;
    if paths == [] {
    } else {
      var init, p := paths[..|paths| - 1], paths[|paths| - 1];
      assert p in paths && paths == init + [p];
      UnchangedCommon(a, b, compareOwnership, init);
      if p in b.get {
        UnchangedEntry(p, a.get[p], b.get[p], compareOwnership);
        var before := CommonChanges(a, b, compareOwnership, init);
        var more := EntryChanges(p, a.get[p], b.get[p], compareOwnership);
        if before.Ok? && more.Ok? {
          assert |before.value + more.value| == |before.value| + |more.value|;
        }
      }
    }
  }

  lemma NoReportsNoPaths(additions: seq<string>, removals: seq<string>, st: Moves)
    requires Conserved(additions, removals, st) && Explained(removals, st)
    ensures Reports(st) == [] ==> additions == [] && removals == []
  {
    hide UnderRename;
    assert st.taken != [] ==> st.taken[0] in st.taken;
    assert additions != [] ==> additions[0] in multiset(additions);
    assert removals != [] ==> removals[0] in multiset(removals);
    if Reports(st) == [] {
      assert |MoveChanges(st.moves)| == |st.moves| && |RenameChanges(st.renames)| == |st.renames|;
      assert |PathChanges(st.additions, Added)| == |st.additions|
             && |PathChanges(st.removals, Removed)| == |st.removals|;
      NoRenamesNoneStruck(st);
      assert Firsts([]) == [] && Seconds([]) == [];
    }
  }

  lemma NoRenamesNoneStruck(st: Moves)
    requires st.renames == [] && forall i :: 0 <= i < |st.struck| ==> UnderRename(st.renames, st.struck[i])
    ensures st.struck == []
  {
    NoRename(if st.struck == [] then ("", "") else st.struck[0]);
  }

  lemma NoRename(p: (string, string))
    ensures !UnderRename([], p)
  {}

  lemma NothingToMove(adict: map<string, Fields>)
    ensures Reports(DetectMoves([], [], adict)) == []
  {}

  /** A comparison reports nothing exactly when both listings have the same paths and
      look the same at each of them. */
  lemma EmptyIffSameViews(a: Dict, b: Dict, compareOwnership: bool)
    requires Listing(a) && Listing(b)
    ensures Compare(a, b, compareOwnership) == Ok([])
            <==> && a.get.Keys == b.get.Keys
                 && forall p :: p in a.get && p in b.get ==> SameEntry(a.get[p], b.get[p], compareOwnership)
  {
    hide DetectMoves, CommonChanges, SameEntry, Reports;
    UnchangedCommon(a, b, compareOwnership, a.order);
    OnlyDistinct(a, b);
    MovesConserve(NewOnly(a, b), OldOnly(a, b), a.get);
    var st := DetectMoves(NewOnly(a, b), OldOnly(a, b), a.get);
    NoReportsNoPaths(NewOnly(a, b), OldOnly(a, b), st);
    NothingToMove(a.get);
    NoneLeftIffSameKeys(a, b);
    var common := CommonChanges(a, b, compareOwnership, a.order);
    if common.Ok? {
      assert |common.value + Reports(st)| == |common.value| + |Reports(st)|;
    }
    if NewOnly(a, b) == [] && OldOnly(a, b) == [] {
      assert st == DetectMoves([], [], a.get);
    }
  }

  lemma NoneLeftIffSameKeys(a: Dict, b: Dict)
    requires ValidDict(a) && ValidDict(b)
    ensures NewOnly(a, b) == [] && OldOnly(a, b) == [] <==> a.get.Keys == b.get.Keys
  {
    if NewOnly(a, b) == [] && OldOnly(a, b) == [] {
      forall p
        ensures p in a.get <==> p in b.get
      {
        assert p in a.order <==> p in a.get;
        assert p in b.order <==> p in b.get;
        assert p !in NewOnly(a, b) && p !in OldOnly(a, b);
      }
    } else if NewOnly(a, b) != [] {
      assert NewOnly(a, b)[0] in NewOnly(a, b);
    } else {
      assert OldOnly(a, b)[0] in OldOnly(a, b);
    }
  }

  /** An owner without a slash, and a link field exactly for links. */
  predicate Regular(f: Fields) {
    ValidFields(f) && '/' !in f[1] && |f| == if f[0][0] == 'l' then 4 else 3
  }

  lemma OwnerInjective(f: Fields, g: Fields)
    requires |f| >= 3 && |g| >= 3 && '/' !in f[1] && '/' !in g[1] && Owner(f) == Owner(g)
    ensures f[1] == g[1] && f[2] == g[2]
  {
    SplitAppend(f[1], f[2], '/');
    SplitAppend(g[1], g[2], '/');
    SplitFree(f[1], '/');
    SplitFree(g[1], '/');
    assert Split(Owner(f), '/')[0] == f[1] && Split(Owner(g), '/')[0] == g[1];
    assert f[2] == Owner(f)[|f[1]| + 1..] && g[2] == Owner(g)[|g[1]| + 1..];
  }

  lemma RegularSame(f: Fields, g: Fields)
    requires Regular(f) && Regular(g)
    ensures SameEntry(f, g, true) <==> f == g
  {
    if SameEntry(f, g, true) {
      OwnerInjective(f, g);
      assert f == f[..3] + f[3..] && g == g[..3] + g[3..];
      assert f[..3] == [f[0], f[1], f[2]] && g[..3] == [g[0], g[1], g[2]];
      assert f[3..] == g[3..];
    }
  }

  /** For regular listings, with ownership compared, no change is reported if and only
      if both listings denote the same map. */
  lemma EmptyIffSameMap(a: Dict, b: Dict)
    requires Listing(a) && Listing(b)
    requires forall p :: p in a.get ==> Regular(a.get[p])
    requires forall p :: p in b.get ==> Regular(b.get[p])
    ensures Compare(a, b, true) == Ok([]) <==> a.get == b.get
  {
    hide Compare, SameEntry, Regular;
    EmptyIffSameViews(a, b, true);
    forall p | p in a.get && p in b.get
      ensures SameEntry(a.get[p], b.get[p], true) <==> a.get[p] == b.get[p]
    {
      RegularSame(a.get[p], b.get[p]);
    }
    if a.get.Keys == b.get.Keys && forall p :: p in a.get && p in b.get ==> SameEntry(a.get[p], b.get[p], true) {
      assert a.get == b.get;
    }
  }

  /** A listing of the one file /f. */
  function OneFile(owner: string, group: string): seq<string> {
    ["-rw" + [' '] + (owner + [' '] + (group + [' '] + ("0" + [' '] + "./f")))]
  }

  lemma OneFileReads(owner: string, group: string)
    requires IsWord(owner) && IsWord(group)
    ensures DictOf(OneFile(owner, group)) == Ok(Dict(["/f"], map["/f" := ["-rw", owner, group]]))
  {
    hide ParseLine, IsWord;
    var lines := OneFile(owner, group);
    SmallWords();
    PlainLine("-rw", owner, group, "0", "./f");
    assert "./f"[1..] == "/f";
    assert lines[..0] == [];
    assert DictOf([]) == Ok(Dict([], map[]));
    assert [] + ["/f"] == ["/f"];
  }

  lemma SmallWords()
    ensures IsWord("-rw") && IsWord("0") && IsWord("./f") && IsWord("x/y") && IsWord("z") && IsWord("x")
            && IsWord("y/z")
  {}

  /** Without that, two different owners can look the same: "x/y" of group "z" and "x" of
      group "y/z". */
  lemma SlashInOwnerHidesChange()
    ensures var a, b := DictOf(OneFile("x/y", "z")), DictOf(OneFile("x", "y/z"));
            a.Ok? && b.Ok? && Listing(a.value) && Listing(b.value) && Compare(a.value, b.value, true) == Ok([])
              && a != b
  {
    hide DictOf, OneFile;
    SmallWords();
    OneFileReads("x/y", "z");
    OneFileReads("x", "y/z");
    var f, g := ["-rw", "x/y", "z"], ["-rw", "x", "y/z"];
    var a, b := Dict(["/f"], map["/f" := f]), Dict(["/f"], map["/f" := g]);
    assert Owner(f) == "x/y/z" && Owner(g) == "x/y/z";
    assert SameEntry(f, g, true);
    assert f[1] != g[1] by { assert |f[1]| != |g[1]|; }
    EmptyIffSameViews(a, b, true);
    assert a.get["/f"] != b.get["/f"];
  }
}
