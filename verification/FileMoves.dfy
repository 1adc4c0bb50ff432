/** The part of compare_file_lists that turns additions and removals into moves:
    paths that differ only in digits are paired, and whole trees are renamed. */
module FileMoves {
  import opened Counting
  import opened Splitting
  import opened FileLists
  import opened Replacing

  const SLASH := '/'

  function MaskChar(c: char): char {
    if '0' <= c <= '9' then 'X' else c
  }

  /** Every digit replaced by an X. */
  function Mask(s: string): (m: string)
    ensures |m| == |s| && forall i :: 0 <= i < |s| ==> m[i] == MaskChar(s[i])
  {
    seq(|s|, i requires 0 <= i < |s| => MaskChar(s[i]))
  }

  /** The first index at which the component lists differ, or the last one. */
  function FirstDiff(xs: seq<string>, ys: seq<string>): nat {
    if |xs| <= 1 || ys == [] || xs[0] != ys[0] then 0 else 1 + FirstDiff(xs[1..], ys[1..])
  }

  /** The two paths cut after the first component in which they differ. */
  function CommonDirs(addition: string, removal: string): (string, string) {
    var xs, ys := Split(addition, SLASH), Split(removal, SLASH);
    var i := FirstDiff(xs, ys);
    (Join(if i < |xs| then xs[..i + 1] else xs, SLASH), Join(if i < |ys| then ys[..i + 1] else ys, SLASH))
  }

  /** str.replace(from, to). It is never asked to replace an empty text (see CommonDirsMask). */
  function ReplaceAll(s: string, from: string, to: string): string {
    if from == "" then s else Replace(s, from, to)
  }

  /** The masked removals: for each mask the removals that have it, in order. */
  function RevMap(removals: seq<string>): (rev: map<string, seq<string>>)
    ensures forall m :: m in rev ==> rev[m] != [] && forall x :: x in rev[m] ==> x in removals && Mask(x) == m
  {
    if removals == [] then map[]
    else
      var rev, last := RevMap(removals[..|removals| - 1]), removals[|removals| - 1];
      var m := Mask(last);
      rev[m := (if m in rev then rev[m] else []) + [last]]
  }

  lemma {:induction false} RevMapIsFilter(removals: seq<string>, m: string)
    ensures var found := FilterSeq((x: string) => Mask(x) == m, removals);
            if m in RevMap(removals) then RevMap(removals)[m] == found else found == []
    decreases |removals|
  {
    if removals == [] {
    } else {
      RevMapIsFilter(removals[..|removals| - 1], m);
    }
  }

  /** list.remove: drop the first occurrence. */
  function Remove(xs: seq<string>, x: string): seq<string>
    requires x in xs
  {
    if xs[0] == x then xs[1..] else [xs[0]] + Remove(xs[1..], x)
  }

  /** The lists still pending, the moves and renames reported so far, and, for the
      proofs, who struck whom: `struck` pairs out of renames, `taken` by moves. */
  datatype Moves = Moves(
    additions: seq<string>, removals: seq<string>,
    moves: seq<(string, string)>,    // (removal, addition)
    renames: seq<(string, string)>,  // (new directory, old directory)
    struck: seq<(string, string)>,   // (addition, removal)
    taken: seq<string>)

  function StrikeOne(dir: string, dir2: string, st: Moves, addition: string): Moves {
    if !(dir <= addition) then st
    else
      var removal := ReplaceAll(addition, dir, dir2);
      if removal in st.removals && addition in st.additions then
        st.(additions := Remove(st.additions, addition), removals := Remove(st.removals, removal),
            struck := st.struck + [(addition, removal)])
      else st
  }

  /** Strike out the additions under `dir` whose counterpart under `dir2` is gone. */
  function Strike(dir: string, dir2: string, st: Moves, todo: seq<string>): Moves {
    if todo == [] then st
    else StrikeOne(dir, dir2, Strike(dir, dir2, st, todo[..|todo| - 1]), todo[|todo| - 1])
  }

  predicate HasRename(renames: seq<(string, string)>, dir: string) {
    exists i :: 0 <= i < |renames| && renames[i].0 == dir
  }

  /** A move of its own for one addition. */
  function OwnMove(st: Moves, addition: string, removal: string): Moves
    requires addition in st.additions
  {
    st.(moves := st.moves + [(removal, addition)],
        additions := Remove(st.additions, addition),
        removals := if removal in st.removals then Remove(st.removals, removal) else st.removals,
        taken := if removal in st.removals then st.taken + [removal] else st.taken)
  }

  /** One addition: skipped, the start of a directory rename, or a move of its own. */
  function MoveStep(rev: map<string, seq<string>>, newOnly: seq<string>, adict: map<string, Fields>, st: Moves,
                    addition: string): Moves {
    var m := Mask(addition);
    if addition !in st.additions || m !in rev || |rev[m]| != 1 then st
    else
      var removal := rev[m][0];
      var (dir, dir2) := CommonDirs(addition, removal);
      if dir2 !in newOnly && dir !in adict && !HasRename(st.renames, dir) then
        Strike(dir, dir2, st.(renames := st.renames + [(dir, dir2)]), st.additions)
      else
        OwnMove(st, addition, removal)
  }

  function MoveAll(rev: map<string, seq<string>>, newOnly: seq<string>, adict: map<string, Fields>, st: Moves,
                   todo: seq<string>): Moves {
    if todo == [] then st
    else MoveStep(rev, newOnly, adict, MoveAll(rev, newOnly, adict, st, todo[..|todo| - 1]), todo[|todo| - 1])
  }

  function DetectMoves(additions: seq<string>, removals: seq<string>, adict: map<string, Fields>): Moves {
    MoveAll(RevMap(removals), additions, adict, Moves(additions, removals, [], [], [], []), additions)
  }

  // ---------------------------------------------------------------------
  // Masks and components
  // ---------------------------------------------------------------------

  ghost predicate Masks(parts: seq<string>, masked: seq<string>) {
    |masked| == |parts| && forall i :: 0 <= i < |parts| ==> masked[i] == Mask(parts[i])
  }

  lemma MaskInFront(c: char, parts: seq<string>, masked: seq<string>)
    requires parts != [] && Masks(parts, masked)
    ensures Masks(InFront(c, SLASH, parts), InFront(MaskChar(c), SLASH, masked))
  {
    assert MaskChar(c) == SLASH <==> c == SLASH;
    assert Mask([c] + parts[0]) == [MaskChar(c)] + Mask(parts[0]);
    assert Mask("") == "";
    hide Mask;
    var a, b := InFront(c, SLASH, parts), InFront(MaskChar(c), SLASH, masked);
    forall i | 0 <= i < |a|
      ensures |b| == |a| && b[i] == Mask(a[i])
    {
      if c == SLASH && i > 0 { assert a[i] == parts[i - 1] && b[i] == masked[i - 1]; }
    }
  }

  lemma {:induction false} SplitMasks(s: string)
    ensures Masks(Split(s, SLASH), Split(Mask(s), SLASH))
  {
    if s == "" {
      assert Mask(s) == "";
    } else {
      SplitMasks(s[1..]);
      assert Mask(s)[1..] == Mask(s[1..]) && Mask(s)[0] == MaskChar(s[0]);
      MaskInFront(s[0], Split(s[1..], SLASH), Split(Mask(s[1..]), SLASH));
      hide Mask, Masks;
      assert Split(s, SLASH) == InFront(s[0], SLASH, Split(s[1..], SLASH));
      assert Split(Mask(s), SLASH) == InFront(MaskChar(s[0]), SLASH, Split(Mask(s[1..]), SLASH));
    }
  }

  lemma MaskKeepsSlashes(s: string)
    ensures |Split(Mask(s), SLASH)| == |Split(s, SLASH)|
    ensures forall i :: 0 <= i < |Split(s, SLASH)| ==> Split(Mask(s), SLASH)[i] == Mask(Split(s, SLASH)[i])
  {
    hide Mask, Split;
    SplitMasks(s);
  }

  lemma {:induction false} FirstDiffDiffers(xs: seq<string>, ys: seq<string>)
    requires |xs| == |ys| && xs != ys
    ensures var i := FirstDiff(xs, ys); i < |xs| && xs[i] != ys[i] && xs[..i] == ys[..i]
  {
    assert xs == [xs[0]] + xs[1..] && ys == [ys[0]] + ys[1..];
    if xs[0] == ys[0] {
      FirstDiffDiffers(xs[1..], ys[1..]);
      var i := FirstDiff(xs, ys);
      assert xs[..i] == [xs[0]] + xs[1..][..i - 1] && ys[..i] == [ys[0]] + ys[1..][..i - 1];
    }
  }

  /** Two different paths with the same mask have as many components, and some
      component differs: the scan for it stays in range and finds it. */
  lemma ScanFindsDifference(addition: string, removal: string)
    requires addition != removal && Mask(addition) == Mask(removal)
    ensures var xs, ys := Split(addition, SLASH), Split(removal, SLASH);
            var i := FirstDiff(xs, ys);
            && |xs| == |ys| && i < |xs| && xs[i] != ys[i] && xs[..i] == ys[..i] && xs[i] != "" && ys[i] != ""
            && |xs[i]| == |ys[i]| && Mask(xs[i]) == Mask(ys[i])
  {
    var xs, ys := Split(addition, SLASH), Split(removal, SLASH);
    MaskKeepsSlashes(addition);
    MaskKeepsSlashes(removal);
    JoinOfSplit(addition, SLASH);
    JoinOfSplit(removal, SLASH);
    FirstDiffDiffers(xs, ys);
    var i := FirstDiff(xs, ys);
    assert Mask(xs[i]) == Mask(ys[i]);
    assert |xs[i]| == |Mask(xs[i])| && |ys[i]| == |Mask(ys[i])|;
  }

  lemma {:induction false} MaskAppend(a: string, b: string)
    ensures Mask(a + b) == Mask(a) + Mask(b)
  {}

  lemma {:induction false} MaskJoin(xs: seq<string>, ys: seq<string>)
    requires |xs| == |ys| && forall i :: 0 <= i < |xs| ==> Mask(xs[i]) == Mask(ys[i])
    ensures Mask(Join(xs, SLASH)) == Mask(Join(ys, SLASH))
  {
    if |xs| > 1 {
      MaskJoin(xs[1..], ys[1..]);
      MaskAppend(xs[0] + [SLASH], Join(xs[1..], SLASH));
      MaskAppend(ys[0] + [SLASH], Join(ys[1..], SLASH));
      MaskAppend(xs[0], [SLASH]);
      MaskAppend(ys[0], [SLASH]);
    }
  }

  lemma {:induction false} JoinNonEmpty(xs: seq<string>)
    requires xs != [] && xs[|xs| - 1] != ""
    ensures Join(xs, SLASH) != ""
  {}

  /** The directories of a rename are not empty, differ, and only in digits. */
  lemma CommonDirsMask(addition: string, removal: string)
    requires addition != removal && Mask(addition) == Mask(removal)
    ensures var (dir, dir2) := CommonDirs(addition, removal);
            dir != "" && dir2 != "" && dir != dir2 && Mask(dir) == Mask(dir2) && |dir| == |dir2|
  {
    hide Mask, Split, Join, FirstDiff;
    var xs, ys := Split(addition, SLASH), Split(removal, SLASH);
    var i := FirstDiff(xs, ys);
    ScanFindsDifference(addition, removal);
    MaskKeepsSlashes(addition);
    MaskKeepsSlashes(removal);
    var us, vs := xs[..i + 1], ys[..i + 1];
    forall k | 0 <= k < |us|
      ensures Mask(us[k]) == Mask(vs[k])
    {
      assert Split(Mask(addition), SLASH)[k] == Split(Mask(removal), SLASH)[k];
    }
    MaskJoin(us, vs);
    JoinNonEmpty(us);
    JoinNonEmpty(vs);
    assert SeparatorFree(us, SLASH) && SeparatorFree(vs, SLASH) by {
      assert forall p :: p in us ==> p in xs;
      assert forall p :: p in vs ==> p in ys;
    }
    SplitOfJoin(us, SLASH);
    SplitOfJoin(vs, SLASH);
    assert us[i] != vs[i];
    assert |Join(us, SLASH)| == |Mask(Join(us, SLASH))| && |Join(vs, SLASH)| == |Mask(Join(vs, SLASH))|;
  }

  lemma {:induction false} MaskReplace(s: string, from: string, to: string)
    requires from != "" && Mask(from) == Mask(to)
    ensures Mask(Replace(s, from, to)) == Mask(s)
    decreases |s|
  {
    if s == "" {
    } else {
      if from <= s {
        MaskReplace(s[|from|..], from, to);
        MaskAppend(to, Replace(s[|from|..], from, to));
        MaskAppend(from, s[|from|..]);
        assert s == from + s[|from|..];
      } else {
        MaskReplace(s[1..], from, to);
        MaskAppend([s[0]], Replace(s[1..], from, to));
        MaskAppend([s[0]], s[1..]);
        assert s == [s[0]] + s[1..];
      }
    }
  }

  /** Replacing a directory by one with the same mask keeps the mask. */
  lemma MaskReplaceAll(s: string, from: string, to: string)
    requires from != "" && Mask(from) == Mask(to)
    ensures Mask(ReplaceAll(s, from, to)) == Mask(s)
  {
    hide Mask, Replace;
    MaskReplace(s, from, to);
  }

  // ---------------------------------------------------------------------
  // Conservation
  // ---------------------------------------------------------------------

  function Firsts(ps: seq<(string, string)>): (xs: seq<string>)
    ensures |xs| == |ps| && forall i :: 0 <= i < |ps| ==> xs[i] == ps[i].0
  {
    seq(|ps|, i requires 0 <= i < |ps| => ps[i].0)
  }

  function Seconds(ps: seq<(string, string)>): (xs: seq<string>)
    ensures |xs| == |ps| && forall i :: 0 <= i < |ps| ==> xs[i] == ps[i].1
  {
    seq(|ps|, i requires 0 <= i < |ps| => ps[i].1)
  }

  lemma SnocPair(ps: seq<(string, string)>, p: (string, string))
    ensures Firsts(ps + [p]) == Firsts(ps) + [p.0] && Seconds(ps + [p]) == Seconds(ps) + [p.1]
  {}

  lemma {:induction false} RemoveMultiset(xs: seq<string>, x: string)
    requires x in xs
    ensures multiset(xs) == multiset(Remove(xs, x)) + multiset{x}
    ensures forall y :: y in Remove(xs, x) ==> y in xs
  {
    assert xs == [xs[0]] + xs[1..];
    if xs[0] != x {
      RemoveMultiset(xs[1..], x);
    }
  }

  /** No path appears or disappears: every addition is pending, moved or struck, and
      every removal is pending, struck or taken by a move. */
  ghost predicate Conserved(additions: seq<string>, removals: seq<string>, st: Moves) {
    && multiset(additions) == multiset(st.additions) + multiset(Seconds(st.moves)) + multiset(Firsts(st.struck))
    && multiset(removals) == multiset(st.removals) + multiset(Seconds(st.struck)) + multiset(st.taken)
  }

  /** What a report stands for. A move joins a removal to an addition with the same
      mask; a struck pair lies under a reported rename and differs only in digits. */
  ghost predicate Explained(removals: seq<string>, st: Moves) {
    && (forall i :: 0 <= i < |st.moves| ==>
          st.moves[i].0 in removals && st.moves[i].0 !in st.removals && Mask(st.moves[i].0) == Mask(st.moves[i].1))
    && (forall x :: x in st.taken ==> x in Firsts(st.moves))
    && (forall i :: 0 <= i < |st.struck| ==> UnderRename(st.renames, st.struck[i]))
  }

  ghost predicate UnderRename(renames: seq<(string, string)>, p: (string, string)) {
    && Mask(p.0) == Mask(p.1)
    && exists k :: 0 <= k < |renames| && renames[k].0 != "" && renames[k].0 <= p.0
                   && p.1 == ReplaceAll(p.0, renames[k].0, renames[k].1)
  }

  lemma UnderMoreRenames(renames: seq<(string, string)>, r: (string, string), p: (string, string))
    requires UnderRename(renames, p)
    ensures UnderRename(renames + [r], p)
  {
    var k :| 0 <= k < |renames| && renames[k].0 != "" && renames[k].0 <= p.0
             && p.1 == ReplaceAll(p.0, renames[k].0, renames[k].1);
    assert (renames + [r])[k] == renames[k];
  }

  lemma StrikeOneConserves(additions: seq<string>, removals: seq<string>, dir: string, dir2: string, st: Moves,
                           addition: string)
    requires dir != "" && Mask(dir) == Mask(dir2) && (dir, dir2) in st.renames
    requires Conserved(additions, removals, st) && Explained(removals, st)
    ensures var e := StrikeOne(dir, dir2, st, addition);
            Conserved(additions, removals, e) && Explained(removals, e) && e.renames == st.renames
              && e.moves == st.moves
  {
    hide Mask, ReplaceAll, Remove, Conserved, Explained;
    var e := StrikeOne(dir, dir2, st, addition);
    if e != st {
      MaskReplaceAll(addition, dir, dir2);
      StruckPairConserves(additions, removals, st, addition, ReplaceAll(addition, dir, dir2));
      StruckPairExplained(removals, st, dir, dir2, addition);
    }
  }

  lemma StruckPairConserves(additions: seq<string>, removals: seq<string>, st: Moves, addition: string, removal: string)
    requires Conserved(additions, removals, st) && addition in st.additions && removal in st.removals
    ensures Conserved(additions, removals,
                      st.(additions := Remove(st.additions, addition), removals := Remove(st.removals, removal),
                          struck := st.struck + [(addition, removal)]))
  {
    hide Remove;
    SnocPair(st.struck, (addition, removal));
    RemoveMultiset(st.additions, addition);
    RemoveMultiset(st.removals, removal);
  }

  lemma StruckPairExplained(removals: seq<string>, st: Moves, dir: string, dir2: string, addition: string)
    requires Explained(removals, st) && dir != "" && dir <= addition && (dir, dir2) in st.renames
    requires addition in st.additions && ReplaceAll(addition, dir, dir2) in st.removals
    requires Mask(ReplaceAll(addition, dir, dir2)) == Mask(addition)
    ensures var removal := ReplaceAll(addition, dir, dir2);
            Explained(removals,
                      st.(additions := Remove(st.additions, addition), removals := Remove(st.removals, removal),
                          struck := st.struck + [(addition, removal)]))
  {
    hide Remove, Mask, ReplaceAll;
    var removal := ReplaceAll(addition, dir, dir2);
    RemoveMultiset(st.removals, removal);
    assert UnderRename(st.renames, (addition, removal)) by {
      var k :| 0 <= k < |st.renames| && st.renames[k] == (dir, dir2);
    }
  }

  lemma {:induction false} StrikeConserves(additions: seq<string>, removals: seq<string>, dir: string, dir2: string,
                                           st: Moves, todo: seq<string>)
    requires dir != "" && Mask(dir) == Mask(dir2) && (dir, dir2) in st.renames
    requires Conserved(additions, removals, st) && Explained(removals, st)
    ensures var e := Strike(dir, dir2, st, todo);
            Conserved(additions, removals, e) && Explained(removals, e) && e.renames == st.renames
              && e.moves == st.moves
    decreases |todo|
  {
    hide Mask, StrikeOne, Conserved, Explained;
    if todo == [] {
    } else {
      StrikeConserves(additions, removals, dir, dir2, st, todo[..|todo| - 1]);
      StrikeOneConserves(additions, removals, dir, dir2, Strike(dir, dir2, st, todo[..|todo| - 1]), todo[|todo| - 1]);
    }
  }

  lemma MoveStepConserves(additions: seq<string>, removals: seq<string>, newOnly: seq<string>,
                          adict: map<string, Fields>,
                          st: Moves, addition: string)
    requires Conserved(additions, removals, st) && Explained(removals, st)
    requires Distinct(removals) && addition !in removals
    ensures var e := MoveStep(RevMap(removals), newOnly, adict, st, addition);
            Conserved(additions, removals, e) && Explained(removals, e)
  {
    hide Mask, CommonDirs, Remove, Strike, HasRename, UnderRename, Conserved, Explained;
    var rev, m := RevMap(removals), Mask(addition);
    if addition in st.additions && m in rev && |rev[m]| == 1 {
      var removal := rev[m][0];
      assert removal in rev[m];
      CommonDirsMask(addition, removal);
      var (dir, dir2) := CommonDirs(addition, removal);
      if dir2 !in newOnly && dir !in adict && !HasRename(st.renames, dir) {
        var next := st.(renames := st.renames + [(dir, dir2)]);
        RenameConserves(additions, removals, dir, dir2, st);
        StrikeConserves(additions, removals, dir, dir2, next, st.additions);
      } else {
        OwnMoveConserves(additions, removals, st, addition, removal);
        OwnMoveExplained(additions, removals, st, addition, removal);
      }
    }
  }

  lemma RenameConserves(additions: seq<string>, removals: seq<string>, dir: string, dir2: string, st: Moves)
    requires Conserved(additions, removals, st) && Explained(removals, st)
    ensures var next := st.(renames := st.renames + [(dir, dir2)]);
            Conserved(additions, removals, next) && Explained(removals, next) && (dir, dir2) in next.renames
  {
    hide Mask, UnderRename;
    var next := st.(renames := st.renames + [(dir, dir2)]);
    assert next.renames[|st.renames|] == (dir, dir2);
    forall i | 0 <= i < |st.struck|
      ensures UnderRename(next.renames, st.struck[i])
    {
      UnderMoreRenames(st.renames, (dir, dir2), st.struck[i]);
    }
  }

  lemma OwnMoveConserves(additions: seq<string>, removals: seq<string>, st: Moves, addition: string, removal: string)
    requires Conserved(additions, removals, st) && addition in st.additions
    ensures Conserved(additions, removals, OwnMove(st, addition, removal))
  {
    hide Remove;
    SnocPair(st.moves, (removal, addition));
    RemoveMultiset(st.additions, addition);
    if removal in st.removals {
      RemoveMultiset(st.removals, removal);
    }
  }

  lemma OwnMoveExplained(additions: seq<string>, removals: seq<string>, st: Moves, addition: string, removal: string)
    requires Conserved(additions, removals, st) && Explained(removals, st) && Distinct(removals)
    requires addition in st.additions && removal in removals && Mask(removal) == Mask(addition)
    ensures Explained(removals, OwnMove(st, addition, removal))
  {
    hide Mask, UnderRename, Remove;
    var e := OwnMove(st, addition, removal);
    assert forall i :: 0 <= i < |st.moves| ==> e.moves[i] == st.moves[i];
    assert e.moves[|st.moves|] == (removal, addition);
    SnocPair(st.moves, (removal, addition));
    assert removal in Firsts(e.moves) by { assert Firsts(e.moves)[|st.moves|] == removal; }
    if removal in st.removals {
      OnlyOnce(removals, st, removal);
    }
  }

  /** A removal that is taken out is gone for good. */
  lemma OnlyOnce(removals: seq<string>, st: Moves, removal: string)
    requires multiset(removals) == multiset(st.removals) + multiset(Seconds(st.struck)) + multiset(st.taken)
    requires Distinct(removals) && removal in st.removals
    ensures removal !in Remove(st.removals, removal)
    ensures forall y :: y in Remove(st.removals, removal) ==> y in st.removals
  {
    RemoveMultiset(st.removals, removal);
    DistinctCounts(removals);
    assert removal in multiset(removals);
    assert multiset(removals)[removal] == 1;
    assert multiset(Remove(st.removals, removal))[removal] == 0;
  }

  lemma {:induction false} MoveAllConserves(additions: seq<string>, removals: seq<string>, newOnly: seq<string>,
                                            adict: map<string, Fields>, st: Moves, todo: seq<string>)
    requires Conserved(additions, removals, st) && Explained(removals, st)
    requires Distinct(removals) && forall x :: x in todo ==> x !in removals
    ensures var e := MoveAll(RevMap(removals), newOnly, adict, st, todo);
            Conserved(additions, removals, e) && Explained(removals, e)
    decreases |todo|
  {
    hide MoveStep, Conserved, Explained, RevMap;
    if todo == [] {
    } else {
      var init, last := todo[..|todo| - 1], todo[|todo| - 1];
      assert last in todo && forall x :: x in init ==> x in todo;
      MoveAllConserves(additions, removals, newOnly, adict, st, init);
      MoveStepConserves(additions, removals, newOnly, adict, MoveAll(RevMap(removals), newOnly, adict, st, init), last);
    }
  }

  /** Conservation of paths by the detection of moves. */
  lemma MovesConserve(additions: seq<string>, removals: seq<string>, adict: map<string, Fields>)
    requires Distinct(removals) && forall x :: x in additions ==> x !in removals
    ensures var st := DetectMoves(additions, removals, adict);
            Conserved(additions, removals, st) && Explained(removals, st)
  {
    hide MoveAll, RevMap;
    var st := Moves(additions, removals, [], [], [], []);
    assert Firsts([]) == [] && Seconds([]) == [];
    MoveAllConserves(additions, removals, additions, adict, st, additions);
  }

  // ---------------------------------------------------------------------
  // list.remove never fails
  // ---------------------------------------------------------------------

  lemma PendingDistinct(additions: seq<string>, removals: seq<string>, st: Moves)
    requires Conserved(additions, removals, st) && Distinct(additions)
    ensures Distinct(st.additions)
  {
    SmallerDistinct(additions, st.additions);
  }

  lemma {:induction false} RemoveKeeps(xs: seq<string>, x: string, y: string)
    requires x in xs && y in xs && x != y
    ensures y in Remove(xs, x)
  {
    if xs[0] != x {
      if xs[0] != y {
        RemoveKeeps(xs[1..], x, y);
      }
    }
  }

  /** While a tree is struck, the additions not looked at yet are all still there. */
  lemma {:induction false} StrikeLeavesRest(dir: string, dir2: string, st: Moves, todo: seq<string>, k: nat, j: nat)
    requires Distinct(todo) && st.additions == todo && k <= j < |todo|
    ensures todo[j] in Strike(dir, dir2, st, todo[..k]).additions
    decreases k
  {
    hide ReplaceAll, Remove;
    if k == 0 {
    } else {
      StrikeLeavesRest(dir, dir2, st, todo, k - 1, j);
      StrikeLeavesRest(dir, dir2, st, todo, k - 1, k - 1);
      assert todo[..k][..k - 1] == todo[..k - 1];
      RemoveKeeps(Strike(dir, dir2, st, todo[..k - 1]).additions, todo[k - 1], todo[j]);
    }
  }
}
