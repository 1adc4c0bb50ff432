/** What the detection of moves leaves behind as added and removed. */
module FileLeftovers {
  import opened Counting
  import opened FileChanges
  import opened FileListDiff
  import opened FileLists
  import opened FileMoves
  import opened Options

  /** Under no reported rename of directories, a pair of an added and a removed path is left. */
  ghost predicate NoPairLeft(additions: seq<string>, removals: seq<string>, renames: seq<(string, string)>) {
    forall i, x :: 0 <= i < |renames| && x in additions && renames[i].0 <= x ==>
      ReplaceAll(x, renames[i].0, renames[i].1) !in removals
  }

  /** If `x` has one match only, the rename of their directories is reported. */
  ghost predicate RenameTried(oldOnly: seq<string>, renames: seq<(string, string)>, x: string) {
    forall y :: OnlyMatch(oldOnly, x, y) ==>
      exists i :: 0 <= i < |renames| && CutAtDifference(x, y, renames[i].0, renames[i].1)
  }

  /** The lists after one or more steps: only shorter, and with more renames. */
  ghost predicate Shrunk(st: Moves, e: Moves) {
    && (forall x :: x in e.additions ==> x in st.additions)
    && (forall y :: y in e.removals ==> y in st.removals)
    && (Distinct(st.additions) ==> Distinct(e.additions))
    && st.renames <= e.renames
  }

  lemma DistinctInFront(x: string, ys: seq<string>)
    requires Distinct(ys) && x !in ys
    ensures Distinct([x] + ys)
  {}

  lemma {:induction false} RemoveOnce(xs: seq<string>, x: string)
    requires x in xs
    ensures forall y :: y in Remove(xs, x) ==> y in xs
    ensures Distinct(xs) ==> Distinct(Remove(xs, x)) && x !in Remove(xs, x)
  {
    assert xs == [xs[0]] + xs[1..];
    if xs[0] != x {
      RemoveOnce(xs[1..], x);
      if Distinct(xs) {
        assert forall y :: y in xs[1..] ==> y != xs[0];
        DistinctInFront(xs[0], Remove(xs[1..], x));
      }
    }
  }

  lemma {:induction false} StrikeShrinks(dir: string, dir2: string, st: Moves, todo: seq<string>)
    requires Distinct(st.additions)
    ensures var e := Strike(dir, dir2, st, todo);
            && Shrunk(st, e) && e.renames == st.renames
            && (forall x :: x in todo && x in e.additions && dir <= x ==> ReplaceAll(x, dir, dir2) !in e.removals)
    decreases |todo|
  {
    hide ReplaceAll, Remove;
    if todo == [] {
    } else {
      var init, x := todo[..|todo| - 1], todo[|todo| - 1];
      assert todo == init + [x];
      StrikeShrinks(dir, dir2, st, init);
      var s := Strike(dir, dir2, st, init);
      var y := ReplaceAll(x, dir, dir2);
      if x in s.additions { RemoveOnce(s.additions, x); }
      if y in s.removals { RemoveOnce(s.removals, y); }
    }
  }

  lemma FewerPairs(st: Moves, e: Moves)
    requires Shrunk(st, e) && NoPairLeft(st.additions, st.removals, st.renames)
    ensures NoPairLeft(e.additions, e.removals, st.renames)
  {
    hide ReplaceAll;
  }

  lemma TriedStays(oldOnly: seq<string>, renames: seq<(string, string)>, more: seq<(string, string)>, x: string)
    requires RenameTried(oldOnly, renames, x) && renames <= more
    ensures RenameTried(oldOnly, more, x)
  {
    hide OnlyMatch, CutAtDifference;
    assert forall i :: 0 <= i < |renames| ==> more[i] == renames[i];
  }

  lemma StepLeaves(newOnly: seq<string>, oldOnly: seq<string>, adict: map<string, Fields>, st: Moves, x: string)
    requires Distinct(st.additions) && NoPairLeft(st.additions, st.removals, st.renames) && Distinct(oldOnly)
             && x !in oldOnly
    ensures var e := MoveStep(RevMap(oldOnly), newOnly, adict, st, x);
            && Shrunk(st, e) && NoPairLeft(e.additions, e.removals, e.renames)
            && (x in e.additions ==> RenameTried(oldOnly, e.renames, x))
  {
    hide Mask, RevMap, Strike, ReplaceAll, CommonDirs, CutAtDifference, OnlyMatch, Remove;
    var m, rev := Mask(x), RevMap(oldOnly);
    if x !in st.additions {
    } else if m !in rev || |rev[m]| != 1 {
      forall y
        ensures !OnlyMatch(oldOnly, x, y)
      {
        if OnlyMatch(oldOnly, x, y) {
          OnlyIsFound(oldOnly, x, y);
          assert false;
        }
      }
    } else {
      var y := rev[m][0];
      RevMapIsOnly(oldOnly, x);
      OnlyMatchParts(oldOnly, x, y);
      var (d, e) := CommonDirs(x, y);
      CommonDirsCut(x, y);
      if e !in newOnly && d !in adict && !HasRename(st.renames, d) {
        var next := st.(renames := st.renames + [(d, e)]);
        StrikeShrinks(d, e, next, st.additions);
        var end := Strike(d, e, next, st.additions);
        FewerPairs(st, end);
        assert end.renames[|st.renames|] == (d, e);
        forall z | OnlyMatch(oldOnly, x, z)
          ensures z == y
        {
          OnlyIsOne(oldOnly, x, y, z);
        }
      } else {
        RemoveOnce(st.additions, x);
        if y in st.removals { RemoveOnce(st.removals, y); }
        FewerPairs(st, OwnMove(st, x, y));
      }
    }
  }

  lemma OnlyIsOne(paths: seq<string>, x: string, y: string, z: string)
    requires OnlyMatch(paths, x, y) && OnlyMatch(paths, x, z)
    ensures y == z
  {}

  lemma OnlyIsFound(removals: seq<string>, x: string, y: string)
    requires OnlyMatch(removals, x, y) && Distinct(removals)
    ensures var rev := RevMap(removals); Mask(x) in rev && |rev[Mask(x)]| == 1
  {
    hide Mask, RevMap, SameUpToDigits;
    MasksMean();
    RevMapIsFilter(removals, Mask(x));
    var p := (z: string) => Mask(z) == Mask(x);
    var found := FilterSeq(p, removals);
    FilterDistinct(p, removals);
    assert y in found;
    OneLeft(found, y);
  }

  lemma TwoDiffer(found: seq<string>)
    requires Distinct(found) && |found| > 1
    ensures found[0] != found[1]
  {}

  lemma OneLeft(found: seq<string>, y: string)
    requires Distinct(found) && y in found && forall z :: z in found ==> z == y
    ensures |found| == 1
  {
    forall i | 0 <= i < |found|
      ensures found[i] == y
    {
      assert found[i] in found;
    }
    if |found| > 1 {
      TwoDiffer(found);
      assert false;
    }
  }

  lemma {:induction false} AllLeave(newOnly: seq<string>, oldOnly: seq<string>, adict: map<string, Fields>,
                                    todo: seq<string>)
    requires Distinct(newOnly) && Distinct(oldOnly) && forall x :: x in todo ==> x !in oldOnly
    ensures var st := Moves(newOnly, oldOnly, [], [], [], []);
            var e := MoveAll(RevMap(oldOnly), newOnly, adict, st, todo);
            && Shrunk(st, e) && NoPairLeft(e.additions, e.removals, e.renames)
            && (forall x :: x in todo && x in e.additions ==> RenameTried(oldOnly, e.renames, x))
    decreases |todo|
  {
    hide MoveStep, NoPairLeft, RenameTried, RevMap;
    var st := Moves(newOnly, oldOnly, [], [], [], []);
    if todo == [] {
      NothingRenamed(newOnly, oldOnly);
    } else {
      var init, last := todo[..|todo| - 1], todo[|todo| - 1];
      assert todo == init + [last] && last in todo;
      AllLeave(newOnly, oldOnly, adict, init);
      var s := MoveAll(RevMap(oldOnly), newOnly, adict, st, init);
      StepLeaves(newOnly, oldOnly, adict, s, last);
      var e := MoveStep(RevMap(oldOnly), newOnly, adict, s, last);
      forall x | x in init && x in e.additions
        ensures RenameTried(oldOnly, e.renames, x)
      {
        TriedStays(oldOnly, s.renames, e.renames, x);
      }
    }
  }

  lemma NothingRenamed(additions: seq<string>, removals: seq<string>)
    ensures NoPairLeft(additions, removals, [])
  {}

  /** Of a reported rename, nothing is left to be reported: no path under the new
      directory is still added while its counterpart under the old one is removed. A path
      with only one match is reported as added only beside the rename of their directories. */
  lemma LeftoversMean(a: Dict, b: Dict, compareOwnership: bool)
    requires Listing(a) && Listing(b) && Compare(a, b, compareOwnership).Ok?
    ensures var cs := Compare(a, b, compareOwnership).value;
            && (forall x, y :: FileChange(x, Added, None, None) in cs && OnlyMatch(OldOnly(a, b), x, y) ==>
                  exists d, e :: FileChange(e, Moved, Some(d), None) in cs && CutAtDifference(x, y, d, e))
            && (forall x, y, i :: FileChange(x, Added, None, None) in cs && FileChange(y, Removed, None, None) in cs ==>
                  var renames := DetectMoves(NewOnly(a, b), OldOnly(a, b), a.get).renames;
                  0 <= i < |renames| && renames[i].0 <= x ==> y != ReplaceAll(x, renames[i].0, renames[i].1))
  {
    hide Says, CommonChanges, NewOnly, OldOnly, Mask, MoveAll, ReplaceAll, Reports, OnlyMatch, CutAtDifference, RevMap;
    var additions, removals := NewOnly(a, b), OldOnly(a, b);
    var st := DetectMoves(additions, removals, a.get);
    OnlyMeans(a, b);
    OnlyDistinct(a, b);
    AllLeave(additions, removals, a.get, additions);
    CommonSay(a, b, compareOwnership, a.order);
    SaysKind(a, b, compareOwnership);
    ReportsAre(st);
    var common := CommonChanges(a, b, compareOwnership, a.order).value;
    var cs := Compare(a, b, compareOwnership).value;
    assert cs == common + Reports(st);
    forall x, y | FileChange(x, Added, None, None) in cs && OnlyMatch(removals, x, y)
      ensures exists d, e :: FileChange(e, Moved, Some(d), None) in cs && CutAtDifference(x, y, d, e)
    {
      assert RenameTried(removals, st.renames, x);
      var i :| 0 <= i < |st.renames| && CutAtDifference(x, y, st.renames[i].0, st.renames[i].1);
      assert FileChange(st.renames[i].1, Moved, Some(st.renames[i].0), None) in Reports(st);
    }
  }
}
