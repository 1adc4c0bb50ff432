/** What every reported change says about the two listings. */
module FileChanges {
  import opened FileListDiff
  import opened FileLists
  import opened FileMoves
  import opened Options
  import opened Splitting

  // ---------------------------------------------------------------------
  // Paths that both listings have
  // ---------------------------------------------------------------------

  /** The change `c` compares the entries `f` and `g`: a field, the old value, the new one. */
  ghost predicate Says(c: FileChange, f: Fields, g: Fields, compareOwnership: bool)
    requires ValidFields(f) && ValidFields(g)
  {
    match c.kind
    case TypeChanged => c.oldvalue == Some(f[0][..1]) && c.newvalue == Some(g[0][..1]) && f[0][..1] != g[0][..1]
    case PermsChanged => c.oldvalue == Some(f[0][1..]) && c.newvalue == Some(g[0][1..]) && f[0][1..] != g[0][1..]
    case OwnerChanged =>
      && compareOwnership && c.oldvalue == Some(f[1] + "/" + f[2]) && c.newvalue == Some(g[1] + "/" + g[2])
      && c.oldvalue != c.newvalue
    case LinkChanged =>
      && g[0][0] == 'l' && |g| > 3 && c.oldvalue == (if |f| > 3 then Some(f[3]) else None) && c.newvalue == Some(g[3])
      && c.oldvalue != c.newvalue
    case _ => false
  }

  lemma EntrySays(path: string, f: Fields, g: Fields, compareOwnership: bool)
    requires ValidFields(f) && ValidFields(g)
    ensures var r := EntryChanges(path, f, g, compareOwnership);
            && (r.IndexError? <==> g[0][0] == 'l' && |g| <= 3)
            && (r.Ok? ==> forall c: FileChange :: c in r.value <==> c.path == path && Says(c, f, g, compareOwnership))
  {
    assert [f[0][0]] == f[0][..1] && [g[0][0]] == g[0][..1];
    var r := EntryChanges(path, f, g, compareOwnership);
    if r.Ok? {
      var t := Note(f[0][0] != g[0][0], path, TypeChanged, Some([f[0][0]]), Some([g[0][0]]));
      var p := Note(f[0][1..] != g[0][1..], path, PermsChanged, Some(f[0][1..]), Some(g[0][1..]));
      var o := Note(compareOwnership && Owner(f) != Owner(g), path, OwnerChanged, Some(Owner(f)), Some(Owner(g)));
      var l := if g[0][0] == 'l' then Note(LinkField(f) != Some(g[3]), path, LinkChanged, LinkField(f), Some(g[3]))
               else [];
      assert r.value == t + p + o + l;
      InFour(t, p, o, l);
      forall c: FileChange
        ensures c in r.value <==> c.path == path && Says(c, f, g, compareOwnership)
      {
        assert c in r.value <==> c in t || c in p || c in o || c in l;
      }
    }
  }

  /** The changes of common paths are exactly what their entries say. */
  lemma {:induction false} CommonSay(a: Dict, b: Dict, compareOwnership: bool, paths: seq<string>)
    requires Listing(a) && Listing(b) && forall p :: p in paths ==> p in a.get
    requires CommonChanges(a, b, compareOwnership, paths).Ok?
    ensures forall c: FileChange :: c in CommonChanges(a, b, compareOwnership, paths).value <==>
              c.path in paths && c.path in b.get && Says(c, a.get[c.path], b.get[c.path], compareOwnership)
    decreases |paths|
  {
    hide Says;
    if paths == [] {
    } else {
      hide EntryChanges;
      var init, p := paths[..|paths| - 1], paths[|paths| - 1];
      assert paths == init + [p] && p in paths;
      CommonSay(a, b, compareOwnership, init);
      if p in b.get { EntrySays(p, a.get[p], b.get[p], compareOwnership); }
    }
  }

  /** An entry of a link without its target, for a path that the old listing has too. */
  ghost predicate LacksTarget(a: Dict, b: Dict, p: string)
    requires Listing(a) && Listing(b)
  {
    p in a.get && p in b.get && b.get[p][0][0] == 'l' && |b.get[p]| <= 3
  }

  lemma {:induction false} CommonFailsIff(a: Dict, b: Dict, compareOwnership: bool, paths: seq<string>)
    requires Listing(a) && Listing(b) && forall p :: p in paths ==> p in a.get
    ensures CommonChanges(a, b, compareOwnership, paths).IndexError?
            <==> exists p :: p in paths && LacksTarget(a, b, p)
    decreases |paths|
  {
    if paths == [] {
    } else {
      hide EntryChanges;
      var init, p := paths[..|paths| - 1], paths[|paths| - 1];
      assert paths == init + [p] && p in paths;
      CommonFailsIff(a, b, compareOwnership, init);
      if p in b.get { EntrySays(p, a.get[p], b.get[p], compareOwnership); }
      hide LacksTarget;
    }
  }

  /** Comparing fails exactly when a common path became a link without a target. */
  lemma CompareFailsIff(a: Dict, b: Dict, compareOwnership: bool)
    requires Listing(a) && Listing(b)
    ensures Compare(a, b, compareOwnership).IndexError? <==> exists p :: LacksTarget(a, b, p)
  {
    hide CommonChanges, DetectMoves;
    CommonFailsIff(a, b, compareOwnership, a.order);
  }

  // ---------------------------------------------------------------------
  // Paths that one listing has
  // ---------------------------------------------------------------------

  /** A digit, or the letter that stands for digits. */
  predicate IsMasked(c: char) {
    '0' <= c <= '9' || c == 'X'
  }

  /** The same text, but digits (and the letter X) stand for each other. */
  predicate SameUpToDigits(x: string, y: string) {
    |x| == |y| && forall i :: 0 <= i < |x| ==> x[i] == y[i] || (IsMasked(x[i]) && IsMasked(y[i]))
  }

  lemma MaskIff(x: string, y: string)
    ensures Mask(x) == Mask(y) <==> SameUpToDigits(x, y)
  {
    if Mask(x) == Mask(y) {
      assert |x| == |Mask(x)| == |Mask(y)| == |y|;
      assert forall i :: 0 <= i < |x| ==> Mask(x)[i] == MaskChar(x[i]) && Mask(y)[i] == MaskChar(y[i]);
    }
  }

  lemma MasksMean()
    ensures forall x, y :: Mask(x) == Mask(y) <==> SameUpToDigits(x, y)
  {
    forall x, y
      ensures Mask(x) == Mask(y) <==> SameUpToDigits(x, y)
    {
      MaskIff(x, y);
    }
  }

  /** `y` is the only path of `paths` that is `x` up to digits. */
  ghost predicate OnlyMatch(paths: seq<string>, x: string, y: string) {
    y in paths && SameUpToDigits(y, x) && forall z :: z in paths && SameUpToDigits(z, x) ==> z == y
  }

  /** `d` and `e` are the paths `x` and `y` up to the first component that differs. */
  ghost predicate CutAtDifference(x: string, y: string, d: string, e: string) {
    var xs, ys := Split(x, SLASH), Split(y, SLASH);
    exists k :: 0 <= k < |xs| && k < |ys| && xs[..k] == ys[..k] && xs[k] != ys[k]
                && Split(d, SLASH) == xs[..k + 1] && Split(e, SLASH) == ys[..k + 1]
  }

  lemma CommonDirsCut(x: string, y: string)
    requires x != y && Mask(x) == Mask(y)
    ensures CutAtDifference(x, y, CommonDirs(x, y).0, CommonDirs(x, y).1)
  {
    hide Mask, Split, Join, FirstDiff;
    ScanFindsDifference(x, y);
    var xs, ys := Split(x, SLASH), Split(y, SLASH);
    var k := FirstDiff(xs, ys);
    var us, vs := xs[..k + 1], ys[..k + 1];
    assert forall p :: p in us ==> p in xs;
    assert forall p :: p in vs ==> p in ys;
    SplitOfJoin(us, SLASH);
    SplitOfJoin(vs, SLASH);
  }

  /** A reported rename of directories: an added path and its only removed match give
      the two directories, and neither is a path on its own side. */
  ghost predicate RenameSays(newOnly: seq<string>, oldOnly: seq<string>, adict: map<string, Fields>,
                             r: (string, string))
  {
    && r.0 !in adict && r.1 !in newOnly
    && exists x, y :: x in newOnly && OnlyMatch(oldOnly, x, y) && CutAtDifference(x, y, r.0, r.1)
  }

  /** A reported move of one file: an added path and its only removed match, where the
      directories could not be renamed, or had been. */
  ghost predicate MoveSays(newOnly: seq<string>, oldOnly: seq<string>, adict: map<string, Fields>,
                           renamed: set<string>, m: (string, string))
  {
    && m.1 in newOnly && OnlyMatch(oldOnly, m.1, m.0)
    && exists d, e :: CutAtDifference(m.1, m.0, d, e) && (d in adict || e in newOnly || d in renamed)
  }

  /** The new names of the directories that were renamed. */
  function Renamed(renames: seq<(string, string)>): set<string> {
    set r | r in renames :: r.0
  }

  /** The new names that a report gives to what it says was moved. */
  function MovedTo(cs: seq<FileChange>): set<string> {
    set c | c in cs && c.kind.Moved? && c.oldvalue.Some? :: c.oldvalue.value
  }

  lemma MoveStays(newOnly: seq<string>, oldOnly: seq<string>, adict: map<string, Fields>, renamed: set<string>,
                  more: set<string>, m: (string, string))
    requires MoveSays(newOnly, oldOnly, adict, renamed, m) && renamed <= more
    ensures MoveSays(newOnly, oldOnly, adict, more, m)
  {
    hide CutAtDifference, OnlyMatch;
  }

  ghost predicate ReportsSay(newOnly: seq<string>, oldOnly: seq<string>, adict: map<string, Fields>, st: Moves) {
    && (forall i :: 0 <= i < |st.renames| ==> RenameSays(newOnly, oldOnly, adict, st.renames[i]))
    && (forall i :: 0 <= i < |st.moves| ==> MoveSays(newOnly, oldOnly, adict, Renamed(st.renames), st.moves[i]))
    && (forall i, j :: 0 <= i < j < |st.renames| ==> st.renames[i].0 != st.renames[j].0)
  }

  lemma RevMapIsOnly(removals: seq<string>, x: string)
    requires var rev := RevMap(removals); Mask(x) in rev && |rev[Mask(x)]| == 1
    ensures OnlyMatch(removals, x, RevMap(removals)[Mask(x)][0])
  {
    hide Mask, RevMap, SameUpToDigits;
    MasksMean();
    RevMapIsFilter(removals, Mask(x));
    var found := FilterSeq((z: string) => Mask(z) == Mask(x), removals);
    assert forall z :: z in found ==> z == found[0];
    assert found[0] in found;
  }

  lemma {:induction false} StrikeReportsNothing(dir: string, dir2: string, st: Moves, todo: seq<string>)
    ensures var e := Strike(dir, dir2, st, todo); e.renames == st.renames && e.moves == st.moves
    decreases |todo|
  {
    hide ReplaceAll, Remove;
    if todo == [] {
    } else {
      StrikeReportsNothing(dir, dir2, st, todo[..|todo| - 1]);
    }
  }

  lemma StepSays(newOnly: seq<string>, oldOnly: seq<string>, adict: map<string, Fields>, st: Moves, x: string)
    requires ReportsSay(newOnly, oldOnly, adict, st) && x in newOnly && x !in oldOnly
    ensures ReportsSay(newOnly, oldOnly, adict, MoveStep(RevMap(oldOnly), newOnly, adict, st, x))
  {
    hide Mask, RevMap, Strike, CommonDirs, CutAtDifference, OnlyMatch, Remove;
    var m, rev := Mask(x), RevMap(oldOnly);
    if x in st.additions && m in rev && |rev[m]| == 1 {
      var y := rev[m][0];
      RevMapIsOnly(oldOnly, x);
      OnlyMatchParts(oldOnly, x, y);
      var (d, e) := CommonDirs(x, y);
      CommonDirsCut(x, y);
      if e !in newOnly && d !in adict && !HasRename(st.renames, d) {
        var next := st.(renames := st.renames + [(d, e)]);
        StrikeReportsNothing(d, e, next, st.additions);
        assert RenameSays(newOnly, oldOnly, adict, (d, e));
        MoreRenames(newOnly, oldOnly, adict, st, d, e);
      } else {
        assert MoveSays(newOnly, oldOnly, adict, Renamed(st.renames), (y, x));
      }
    }
  }

  lemma OnlyMatchParts(paths: seq<string>, x: string, y: string)
    requires OnlyMatch(paths, x, y)
    ensures y in paths && Mask(y) == Mask(x)
  {
    MaskIff(y, x);
  }

  lemma MoreRenames(newOnly: seq<string>, oldOnly: seq<string>, adict: map<string, Fields>, st: Moves, d: string,
                    e: string)
    requires ReportsSay(newOnly, oldOnly, adict, st) && !HasRename(st.renames, d)
    requires RenameSays(newOnly, oldOnly, adict, (d, e))
    ensures ReportsSay(newOnly, oldOnly, adict, st.(renames := st.renames + [(d, e)]))
  {
    hide RenameSays, CutAtDifference, OnlyMatch;
    var more := st.renames + [(d, e)];
    forall i | 0 <= i < |st.moves|
      ensures MoveSays(newOnly, oldOnly, adict, Renamed(more), st.moves[i])
    {
      var m := st.moves[i];
      MoveStays(newOnly, oldOnly, adict, Renamed(st.renames), Renamed(more), m);
    }
    assert forall i :: 0 <= i < |st.renames| ==> more[i] == st.renames[i];
  }

  lemma {:induction false} AllSay(newOnly: seq<string>, oldOnly: seq<string>, adict: map<string, Fields>, st: Moves,
                                  todo: seq<string>)
    requires ReportsSay(newOnly, oldOnly, adict, st) && forall x :: x in todo ==> x in newOnly && x !in oldOnly
    ensures ReportsSay(newOnly, oldOnly, adict, MoveAll(RevMap(oldOnly), newOnly, adict, st, todo))
    decreases |todo|
  {
    hide MoveStep, ReportsSay, RevMap;
    if todo == [] {
    } else {
      var init, last := todo[..|todo| - 1], todo[|todo| - 1];
      assert last in todo && forall x :: x in init ==> x in todo;
      AllSay(newOnly, oldOnly, adict, st, init);
      StepSays(newOnly, oldOnly, adict, MoveAll(RevMap(oldOnly), newOnly, adict, st, init), last);
    }
  }

  /** Some path of `paths` is the same as `x` up to digits. */
  ghost predicate HasMatch(paths: seq<string>, x: string) {
    exists y :: y in paths && SameUpToDigits(y, x)
  }

  lemma PairsMatchUp(newOnly: seq<string>, oldOnly: seq<string>, st: Moves)
    requires Conserved(newOnly, oldOnly, st) && Explained(oldOnly, st)
    ensures forall x :: x in Seconds(st.moves) || x in Firsts(st.struck) ==> HasMatch(oldOnly, x)
    ensures forall y :: y in st.taken || y in Seconds(st.struck) ==> HasMatch(newOnly, y)
  {
    hide Mask, SameUpToDigits;
    MasksMean();
    SumMembers(newOnly, st.additions, Seconds(st.moves), Firsts(st.struck));
    SumMembers(oldOnly, st.removals, Seconds(st.struck), st.taken);
    forall i | 0 <= i < |st.moves|
      ensures HasMatch(oldOnly, st.moves[i].1) && HasMatch(newOnly, st.moves[i].0)
    {
      assert st.moves[i].0 in oldOnly && Seconds(st.moves)[i] in Seconds(st.moves);
    }
    forall i | 0 <= i < |st.struck|
      ensures HasMatch(oldOnly, st.struck[i].0) && HasMatch(newOnly, st.struck[i].1)
    {
      assert Firsts(st.struck)[i] in Firsts(st.struck) && Seconds(st.struck)[i] in Seconds(st.struck);
      assert UnderRename(st.renames, st.struck[i]);
    }
  }

  /** Nothing is struck or moved without a counterpart. */
  lemma UnmatchedStay(newOnly: seq<string>, oldOnly: seq<string>, st: Moves)
    requires Conserved(newOnly, oldOnly, st) && Explained(oldOnly, st)
    ensures forall x :: x in st.additions ==> x in newOnly
    ensures forall y :: y in st.removals ==> y in oldOnly
    ensures forall x :: x in newOnly && !HasMatch(oldOnly, x) ==> x in st.additions
    ensures forall y :: y in oldOnly && !HasMatch(newOnly, y) ==> y in st.removals
  {
    hide Mask, UnderRename, HasMatch;
    SumMembers(newOnly, st.additions, Seconds(st.moves), Firsts(st.struck));
    SumMembers(oldOnly, st.removals, Seconds(st.struck), st.taken);
    PairsMatchUp(newOnly, oldOnly, st);
  }

  lemma SumMembers(all: seq<string>, xs: seq<string>, ys: seq<string>, zs: seq<string>)
    requires multiset(all) == multiset(xs) + multiset(ys) + multiset(zs)
    ensures forall x :: x in all <==> x in xs || x in ys || x in zs
  {
    forall x
      ensures x in all <==> x in xs || x in ys || x in zs
    {
      assert (x in all <==> x in multiset(all)) && (x in xs <==> x in multiset(xs));
      assert (x in ys <==> x in multiset(ys)) && (x in zs <==> x in multiset(zs));
    }
  }

  // ---------------------------------------------------------------------
  // Main result
  // ---------------------------------------------------------------------

  /** What one reported change means, said by the two listings alone. */
  ghost predicate Means(a: Dict, b: Dict, compareOwnership: bool, renamed: set<string>, c: FileChange)
    requires Listing(a) && Listing(b)
  {
    match c.kind
    case Added => c.oldvalue == c.newvalue == None && c.path in b.get && c.path !in a.get
    case Removed => c.oldvalue == c.newvalue == None && c.path in a.get && c.path !in b.get
    case Moved =>
      && c.oldvalue.Some? && c.newvalue.None?
      && (|| MoveSays(NewOnly(a, b), OldOnly(a, b), a.get, renamed, (c.path, c.oldvalue.value))
          || RenameSays(NewOnly(a, b), OldOnly(a, b), a.get, (c.oldvalue.value, c.path)))
    case _ => c.path in a.get && c.path in b.get && Says(c, a.get[c.path], b.get[c.path], compareOwnership)
  }

  lemma OnlyMeans(a: Dict, b: Dict)
    requires ValidDict(a) && ValidDict(b)
    ensures forall p :: p in NewOnly(a, b) <==> p in b.get && p !in a.get
    ensures forall p :: p in OldOnly(a, b) <==> p in a.get && p !in b.get
  {}

  /** Every change that is reported says something true of the two listings. Conversely,
      every difference of a common path is reported, and so is every path of one listing
      that the other has no match for, up to digits. */
  lemma ChangesMean(a: Dict, b: Dict, compareOwnership: bool)
    requires Listing(a) && Listing(b) && Compare(a, b, compareOwnership).Ok?
    ensures var cs := Compare(a, b, compareOwnership).value;
            && (forall c: FileChange :: c in cs ==> Means(a, b, compareOwnership, MovedTo(cs), c))
            && (forall c: FileChange ::
                  c.path in a.get && c.path in b.get && Says(c, a.get[c.path], b.get[c.path], compareOwnership) ==>
                  c in cs)
            && (forall p :: Unmatched(b, a, p) ==> FileChange(p, Added, None, None) in cs)
            && (forall p :: Unmatched(a, b, p) ==> FileChange(p, Removed, None, None) in cs)
  {
    hide Says, DetectMoves, CommonChanges, NewOnly, OldOnly, SameUpToDigits, MoveSays, RenameSays, Conserved, Explained;
    var st := DetectMoves(NewOnly(a, b), OldOnly(a, b), a.get);
    OnlyMeans(a, b);
    OnlyDistinct(a, b);
    MovesConserve(NewOnly(a, b), OldOnly(a, b), a.get);
    UnmatchedStay(NewOnly(a, b), OldOnly(a, b), st);
    DetectedSay(NewOnly(a, b), OldOnly(a, b), a.get);
    CommonSay(a, b, compareOwnership, a.order);
    var common := CommonChanges(a, b, compareOwnership, a.order).value;
    var cs := Compare(a, b, compareOwnership).value;
    assert cs == common + Reports(st);
    ReportsAre(st);
    forall c | c in Reports(st)
      ensures Means(a, b, compareOwnership, MovedTo(cs), c)
    {
      ReportMeans(a, b, compareOwnership, st, c, cs);
    }
    SaysKind(a, b, compareOwnership);
  }

  /** A path of `a` that `b` does not have, nor any path that is the same up to digits and
      that `a` does not have. */
  ghost predicate Unmatched(a: Dict, b: Dict, p: string) {
    p in a.get && p !in b.get && !exists q :: q in b.get && q !in a.get && SameUpToDigits(q, p)
  }

  lemma DetectedSay(newOnly: seq<string>, oldOnly: seq<string>, adict: map<string, Fields>)
    requires forall x :: x in newOnly ==> x !in oldOnly
    ensures ReportsSay(newOnly, oldOnly, adict, DetectMoves(newOnly, oldOnly, adict))
  {
    hide MoveAll, RevMap;
    AllSay(newOnly, oldOnly, adict, Moves(newOnly, oldOnly, [], [], [], []), newOnly);
  }

  lemma ReportsAre(st: Moves)
    ensures forall c: FileChange :: c in Reports(st) <==>
              || (exists i :: 0 <= i < |st.moves| && c == FileChange(st.moves[i].0, Moved, Some(st.moves[i].1), None))
              || (exists i :: 0 <= i < |st.renames|
                              && c == FileChange(st.renames[i].1, Moved, Some(st.renames[i].0), None))
              || (c.path in st.additions && c == FileChange(c.path, Added, None, None))
              || (c.path in st.removals && c == FileChange(c.path, Removed, None, None))
  {
    InFour(MoveChanges(st.moves), RenameChanges(st.renames), PathChanges(st.additions, Added),
           PathChanges(st.removals, Removed));
    PathsIn(st.additions, Added);
    PathsIn(st.removals, Removed);
    forall i | 0 <= i < |st.moves|
      ensures FileChange(st.moves[i].0, Moved, Some(st.moves[i].1), None) in MoveChanges(st.moves)
    {
      assert MoveChanges(st.moves)[i] == FileChange(st.moves[i].0, Moved, Some(st.moves[i].1), None);
    }
    forall i | 0 <= i < |st.renames|
      ensures FileChange(st.renames[i].1, Moved, Some(st.renames[i].0), None) in RenameChanges(st.renames)
    {
      assert RenameChanges(st.renames)[i] == FileChange(st.renames[i].1, Moved, Some(st.renames[i].0), None);
    }
  }

  lemma InFour(m: seq<FileChange>, r: seq<FileChange>, x: seq<FileChange>, y: seq<FileChange>)
    ensures forall c :: c in m + r + x + y <==> c in m || c in r || c in x || c in y
  {}

  lemma PathsIn(paths: seq<string>, kind: ChangeType)
    ensures forall c: FileChange :: c in PathChanges(paths, kind) <==>
              c.path in paths && c == FileChange(c.path, kind, None, None)
  {
    forall p | p in paths
      ensures FileChange(p, kind, None, None) in PathChanges(paths, kind)
    {
      var i :| 0 <= i < |paths| && paths[i] == p;
      assert PathChanges(paths, kind)[i] == FileChange(p, kind, None, None);
    }
  }

  lemma ReportMeans(a: Dict, b: Dict, compareOwnership: bool, st: Moves, c: FileChange,
                    cs: seq<FileChange>)
    requires Listing(a) && Listing(b) && c in Reports(st) && forall r :: r in Reports(st) ==> r in cs
    requires ReportsSay(NewOnly(a, b), OldOnly(a, b), a.get, st)
    requires forall x :: x in st.additions ==> x in NewOnly(a, b)
    requires forall y :: y in st.removals ==> y in OldOnly(a, b)
    ensures Means(a, b, compareOwnership, MovedTo(cs), c)
  {
    hide Reports, NewOnly, OldOnly, MoveSays, RenameSays, Says;
    ReportsAre(st);
    OnlyMeans(a, b);
    RenamesAreMoved(st, cs);
    if i :| 0 <= i < |st.moves| && c == FileChange(st.moves[i].0, Moved, Some(st.moves[i].1), None) {
      MoveStays(NewOnly(a, b), OldOnly(a, b), a.get, Renamed(st.renames), MovedTo(cs), st.moves[i]);
    }
  }

  lemma RenamesAreMoved(st: Moves, cs: seq<FileChange>)
    requires forall r :: r in Reports(st) ==> r in cs
    ensures Renamed(st.renames) <= MovedTo(cs)
  {
    hide Reports;
    ReportsAre(st);
    forall d | d in Renamed(st.renames)
      ensures d in MovedTo(cs)
    {
      var i :| 0 <= i < |st.renames| && st.renames[i].0 == d;
      assert FileChange(st.renames[i].1, Moved, Some(d), None) in Reports(st);
    }
  }

  lemma SaysKind(a: Dict, b: Dict, compareOwnership: bool)
    requires Listing(a) && Listing(b)
    ensures forall c: FileChange ::
              c.path in a.get && c.path in b.get && Says(c, a.get[c.path], b.get[c.path], compareOwnership) ==>
              c.kind !in {Added, Removed, Moved}
  {}

  // ---------------------------------------------------------------------
  // The order of the report
  // ---------------------------------------------------------------------

  /** Changes of common paths come first, then moves, additions and removals. */
  function Rank(kind: ChangeType): nat {
    match kind
    case Moved => 1
    case Added => 2
    case Removed => 3
    case _ => 0
  }

  lemma ReportInOrder(a: Dict, b: Dict, compareOwnership: bool)
    requires Listing(a) && Listing(b) && Compare(a, b, compareOwnership).Ok?
    ensures var cs := Compare(a, b, compareOwnership).value;
            forall i, j :: 0 <= i < j < |cs| ==> Rank(cs[i].kind) <= Rank(cs[j].kind)
  {
    hide Says, DetectMoves, CommonChanges, Rank, Reports;
    CommonSay(a, b, compareOwnership, a.order);
    SaysKind(a, b, compareOwnership);
    var common := CommonChanges(a, b, compareOwnership, a.order).value;
    var st := DetectMoves(NewOnly(a, b), OldOnly(a, b), a.get);
    forall c | c in common
      ensures Rank(c.kind) == 0
    {
      NoReport(c.kind);
    }
    assert forall i :: 0 <= i < |common| ==> common[i] in common;
    ReportRanks(st);
  }

  lemma NoReport(kind: ChangeType)
    requires kind !in {Added, Removed, Moved}
    ensures Rank(kind) == 0
  {}

  lemma ReportRanks(st: Moves)
    ensures var cs := Reports(st);
            forall i, j :: 0 <= i < j < |cs| ==> Rank(cs[i].kind) <= Rank(cs[j].kind)
  {}
}
