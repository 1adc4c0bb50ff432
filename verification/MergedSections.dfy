/** What the sections of a merged file are, and in which order. */
module MergedSections {
  import opened Counting
  import opened LockedSigs

  type Sections = map<string, seq<string>>

  function At(get: Sections, t: string): seq<string> {
    if t in get then get[t] else []
  }

  // ---------------------------------------------------------------------
  // The merged sections
  // ---------------------------------------------------------------------

  /** The first occurrences in `ls` of lines that `base` does not have. */
  function NewLines(base: seq<string>, ls: seq<string>): (r: seq<string>)
    ensures forall x :: x in r <==> x in ls && x !in base
  {
    if ls == [] then []
    else
      var r, last := NewLines(base, ls[..|ls| - 1]), ls[|ls| - 1];
      assert ls == ls[..|ls| - 1] + [last];
      if last in base || last in r then r else r + [last]
  }

  function FirstIndex(ls: seq<string>, x: string): (i: nat)
    requires x in ls
    ensures i < |ls| && ls[i] == x && x !in ls[..i]
  {
    if ls[0] == x then 0
    else
      assert ls == [ls[0]] + ls[1..];
      var i := FirstIndex(ls[1..], x);
      assert ls[..i + 1] == [ls[0]] + ls[1..][..i];
      1 + i
  }

  lemma FirstIndexUnique(ls: seq<string>, x: string, i: nat)
    requires i < |ls| && ls[i] == x && x !in ls[..i]
    ensures FirstIndex(ls, x) == i
  {
    var k := FirstIndex(ls, x);
    assert forall j :: 0 <= j < i ==> ls[..i][j] == ls[j];
    assert forall j :: 0 <= j < k ==> ls[..k][j] == ls[j];
  }

  lemma FirstIndexInFront(ls: seq<string>, n: nat, x: string)
    requires n <= |ls| && x in ls[..n]
    ensures FirstIndex(ls, x) == FirstIndex(ls[..n], x) < n
  {
    var i := FirstIndex(ls[..n], x);
    assert ls[..n][..i] == ls[..i];
    FirstIndexUnique(ls, x, i);
  }

  /** New lines come once each, in the order of their first occurrence. */
  lemma {:induction false} NewLinesInOrder(base: seq<string>, ls: seq<string>)
    ensures Distinct(NewLines(base, ls))
    ensures forall i, j :: 0 <= i < j < |NewLines(base, ls)| ==>
              FirstIndex(ls, NewLines(base, ls)[i]) < FirstIndex(ls, NewLines(base, ls)[j])
    decreases |ls|
  {
    if ls == [] {
    } else {
      var init, last := ls[..|ls| - 1], ls[|ls| - 1];
      NewLinesInOrder(base, init);
      var r, all := NewLines(base, init), NewLines(base, ls);
      forall x | x in r
        ensures x in ls && FirstIndex(ls, x) == FirstIndex(init, x) < |init|
      {
        FirstIndexInFront(ls, |init|, x);
      }
      if last !in base && last !in r {
        assert last !in init;
        FirstIndexUnique(ls, last, |init|);
        forall i, j | 0 <= i < j < |all|
          ensures all[i] != all[j] && FirstIndex(ls, all[i]) < FirstIndex(ls, all[j])
        {
          assert all[i] == r[i] && r[i] in r;
        }
      }
    }
  }

  function CopiedOf(copyTasks: seq<string>, ls: seq<string>): seq<string> {
    if ls == [] then []
    else CopiedOf(copyTasks, ls[..|ls| - 1]) + if Copies(copyTasks, ls[|ls| - 1]) then [ls[|ls| - 1]] else []
  }

  /** The types of `order` that `known` does not have. */
  function Unknown(known: Sections, order: seq<string>): seq<string> {
    if order == [] then []
    else Unknown(known, order[..|order| - 1]) + if order[|order| - 1] in known then [] else [order[|order| - 1]]
  }

  /** The merged sections: those of `main`, each followed by what is new in `extra`. */
  ghost predicate MergedRight(main: Sigs, extra: Sigs, m: Merge) {
    && m.merged.Keys == main.get.Keys + extra.get.Keys
    && (forall t :: t in m.merged ==> m.merged[t] == At(main.get, t) + NewLines(At(main.get, t), At(extra.get, t)))
    && m.order == main.order + Unknown(main.get, extra.order)
  }

  /** The sections to copy: what is new in `extra`, for the tasks asked for. */
  ghost predicate CopiedRight(copyTasks: seq<string>, main: Sigs, extra: Sigs, m: Merge) {
    && m.copyOrder == extra.order && m.tocopy.Keys == extra.get.Keys
    && (forall t :: t in m.tocopy ==> m.tocopy[t] == CopiedOf(copyTasks, NewLines(At(main.get, t), extra.get[t])))
  }

  /** The merge `m` is the union of the sections of `main` and `extra`. */
  ghost predicate IsUnion(copyTasks: seq<string>, main: Sigs, extra: Sigs, m: Merge) {
    && !m.failed && m.reading == extra.reading
    && MergedRight(main, extra, m) && CopiedRight(copyTasks, main, extra, m)
  }
}
