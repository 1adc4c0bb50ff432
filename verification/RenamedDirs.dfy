/** detect_renamed_dirs: directories that only one side has are paired when they
    hold the same file names. */
module RenamedDirs {
  import opened Sorting
  import opened Counting
  import opened PosixPath

  /** A directory and the sorted names of its files. */
  type DirFiles = (string, seq<string>)

  /** The directories of a list of items. */
  function DirsOf(items: seq<string>): set<string> {
    set item | item in items :: DirName(item)
  }

  /** The base names of the items in `dir`, in order. */
  function NamesIn(items: seq<string>, dir: string): seq<string> {
    if items == [] then []
    else (if DirName(items[0]) == dir then [BaseName(items[0])] else []) + NamesIn(items[1..], dir)
  }

  function FilesOf(items: seq<string>, dirs: seq<string>): (r: seq<DirFiles>)
    ensures |r| == |dirs| && forall i :: 0 <= i < |dirs| ==> r[i] == (dirs[i], Sort(LexLeq, NamesIn(items, dirs[i])))
  {
    seq(|dirs|, i requires 0 <= i < |dirs| => (dirs[i], Sort(LexLeq, NamesIn(items, dirs[i]))))
  }

  ghost predicate DistinctDirs(xs: seq<DirFiles>) {
    forall i, j :: 0 <= i < j < |xs| ==> xs[i].0 != xs[j].0
  }

  /** The first entry with these files, or past the end. */
  function FirstMatch(files: seq<string>, ba: seq<DirFiles>): (i: nat)
    ensures i <= |ba| && (i < |ba| ==> ba[i].1 == files)
    ensures forall j :: 0 <= j < i ==> ba[j].1 != files
  {
    if ba == [] || ba[0].1 == files then 0
    else
      var i := FirstMatch(files, ba[1..]);
      assert forall j :: 0 < j < i + 1 ==> ba[j] == ba[1..][j - 1];
      1 + i
  }

  function RemoveAt<T>(xs: seq<T>, i: nat): seq<T>
    requires i < |xs|
  {
    xs[..i] + xs[i + 1..]
  }

  /** Each directory takes the first free one with the same files. */
  function Pairs(ab: seq<DirFiles>, ba: seq<DirFiles>): seq<(string, string)> {
    if ab == [] then []
    else
      var i := FirstMatch(ab[0].1, ba);
      if i < |ba| then [(ab[0].0, ba[i].0)] + Pairs(ab[1..], RemoveAt(ba, i))
      else Pairs(ab[1..], ba)
  }

  /** What is free after all of `ab` took theirs. */
  function FreeAfter(ab: seq<DirFiles>, ba: seq<DirFiles>): seq<DirFiles> {
    if ab == [] then ba
    else
      var i := FirstMatch(ab[0].1, ba);
      FreeAfter(ab[1..], if i < |ba| then RemoveAt(ba, i) else ba)
  }

  lemma {:induction false} PairsAppend(xs: seq<DirFiles>, ys: seq<DirFiles>, ba: seq<DirFiles>)
    ensures Pairs(xs + ys, ba) == Pairs(xs, ba) + Pairs(ys, FreeAfter(xs, ba))
    ensures FreeAfter(xs + ys, ba) == FreeAfter(ys, FreeAfter(xs, ba))
  {
    hide FirstMatch, RemoveAt;
    if xs == [] {
      assert xs + ys == ys;
    } else {
      assert (xs + ys)[1..] == xs[1..] + ys && (xs + ys)[0] == xs[0];
      var i := FirstMatch(xs[0].1, ba);
      PairsAppend(xs[1..], ys, if i < |ba| then RemoveAt(ba, i) else ba);
    }
  }

  lemma RemoveAtDistinct(ba: seq<DirFiles>, i: nat)
    requires i < |ba| && DistinctDirs(ba)
    ensures DistinctDirs(RemoveAt(ba, i))
    ensures forall j :: 0 <= j < |RemoveAt(ba, i)| ==> RemoveAt(ba, i)[j] in ba && RemoveAt(ba, i)[j].0 != ba[i].0
    ensures forall j :: 0 <= j < |ba| && j != i ==> ba[j] in RemoveAt(ba, i)
  {
    var r := RemoveAt(ba, i);
    forall j | 0 <= j < |ba| && j != i
      ensures ba[j] in r
    {
      assert r[if j < i then j else j - 1] == ba[j];
    }
  }

  lemma {:induction false} FreeDistinct(ab: seq<DirFiles>, ba: seq<DirFiles>)
    requires DistinctDirs(ba)
    ensures DistinctDirs(FreeAfter(ab, ba))
  {
    if ab == [] {
    } else {
      var i := FirstMatch(ab[0].1, ba);
      if i < |ba| { RemoveAtDistinct(ba, i); }
      FreeDistinct(ab[1..], if i < |ba| then RemoveAt(ba, i) else ba);
    }
  }

  // ---------------------------------------------------------------------
  // The method
  // ---------------------------------------------------------------------

  function Index(xs: seq<DirFiles>, x: DirFiles): (i: nat)
    requires x in xs
    ensures i < |xs| && xs[i] == x
  {
    if xs[0] == x then 0 else 1 + Index(xs[1..], x)
  }

  /** The inner loop walks over the very list it removes from, so it may skip an
      entry, but only after it has found its pair. */
  method TakePair(files1: seq<string>, free: seq<DirFiles>) returns (rename: bool, dir: string, rest: seq<DirFiles>)
    requires DistinctDirs(free)
    ensures rename <==> FirstMatch(files1, free) < |free|
    ensures rename ==> dir == free[FirstMatch(files1, free)].0 && rest == RemoveAt(free, FirstMatch(files1, free))
    ensures !rename ==> rest == free
  {
    rename, dir, rest := false, "", free;
    var n := 0;
    while n < |rest|
      invariant !rename ==> rest == free && n <= FirstMatch(files1, free)
      invariant rename ==> FirstMatch(files1, free) < |free|
                           && dir == free[FirstMatch(files1, free)].0
                           && rest == RemoveAt(free, FirstMatch(files1, free))
      decreases |rest| + (if rename then 0 else 1) - n
    {
      var (dir2, files2) := rest[n];
      if files1 == files2 && !rename {
        dir := dir2;
        var at := Index(rest, (dir2, files2));
        assert at == n;
        rest := RemoveAt(rest, at);
        rename := true;
      }
      n := n + 1;
    }
  }

  function WithoutDirs(items: seq<string>, dirs: set<string>): (r: seq<string>)
    ensures forall x :: x in r <==> x in items && DirName(x) !in dirs
  {
    if items == [] then []
    else (if DirName(items[0]) in dirs then [] else [items[0]]) + WithoutDirs(items[1..], dirs)
  }

  function PairedDirs(pairs: seq<(string, string)>): set<string> {
    (set i | 0 <= i < |pairs| :: pairs[i].0) + (set i | 0 <= i < |pairs| :: pairs[i].1)
  }

  lemma {:induction false} WithoutTwice(items: seq<string>, xs: set<string>, ys: set<string>)
    ensures WithoutDirs(WithoutDirs(items, xs), ys) == WithoutDirs(items, xs + ys)
  {
    if items == [] {
    } else {
      WithoutTwice(items[1..], xs, ys);
      if DirName(items[0]) !in xs {
        assert ([items[0]] + WithoutDirs(items[1..], xs))[1..] == WithoutDirs(items[1..], xs);
      } else {
        assert [] + WithoutDirs(items[1..], xs) == WithoutDirs(items[1..], xs);
      }
    }
  }

  lemma {:induction false} WithoutNone(items: seq<string>)
    ensures WithoutDirs(items, {}) == items
  {
    if items == [] {
    } else {
      WithoutNone(items[1..]);
      assert items == [items[0]] + items[1..];
    }
  }

  lemma PairedSnoc(pairs: seq<(string, string)>, p: (string, string))
    ensures PairedDirs(pairs + [p]) == PairedDirs(pairs) + {p.0, p.1}
  {
    var more := pairs + [p];
    assert forall i :: 0 <= i < |pairs| ==> more[i] == pairs[i];
    assert more[|pairs|] == p;
  }

  /** The order in which the two set differences are listed is left to the caller. */
  ghost predicate Lists(dirs: seq<string>, s: set<string>) {
    Distinct(dirs) && forall d :: d in dirs <==> d in s
  }

  method PairDirs(ab: seq<DirFiles>, ba: seq<DirFiles>) returns (renamed: seq<(string, string)>)
    requires DistinctDirs(ba)
    ensures renamed == Pairs(ab, ba)
  {
    hide FirstMatch, RemoveAt, DistinctDirs;
    var free := ba;
    renamed := [];
    for k := 0 to |ab|
      invariant renamed == Pairs(ab[..k], ba) && free == FreeAfter(ab[..k], ba)
    {
      var (dir1, files1) := ab[k];
      assert ab[..k + 1] == ab[..k] + [ab[k]];
      PairsAppend(ab[..k], [ab[k]], ba);
      FreeDistinct(ab[..k], ba);
      assert [ab[k]][1..] == [];
      var rename, dir2, rest := TakePair(files1, free);
      if rename {
        renamed := renamed + [(dir1, dir2)];
      }
      free := rest;
    }
    assert ab[..|ab|] == ab;
  }

  method FilterPaired(items: seq<string>, renamed: seq<(string, string)>) returns (left: seq<string>)
    ensures left == WithoutDirs(items, PairedDirs(renamed))
  {
    hide PairedDirs, WithoutDirs;
    left := items;
    WithoutNone(items);
    PairedNone();
    assert renamed[..0] == [];
    for k := 0 to |renamed|
      invariant left == WithoutDirs(items, PairedDirs(renamed[..k]))
    {
      assert renamed[..k + 1] == renamed[..k] + [renamed[k]];
      PairedSnoc(renamed[..k], renamed[k]);
      var both := {renamed[k].0, renamed[k].1};
      WithoutTwice(items, PairedDirs(renamed[..k]), both);
      left := WithoutDirs(left, both);
    }
    assert renamed[..|renamed|] == renamed;
  }

  lemma PairedNone()
    ensures PairedDirs([]) == {}
  {}

  method DetectRenamedDirs(aitems: seq<string>, bitems: seq<string>, onlyA: seq<string>, onlyB: seq<string>)
    returns (renamed: seq<(string, string)>, aleft: seq<string>, bleft: seq<string>)
    requires Lists(onlyA, DirsOf(aitems) - DirsOf(bitems)) && Lists(onlyB, DirsOf(bitems) - DirsOf(aitems))
    ensures renamed == Pairs(FilesOf(aitems, onlyA), FilesOf(bitems, onlyB))
    ensures aleft == WithoutDirs(aitems, PairedDirs(renamed)) && bleft == WithoutDirs(bitems, PairedDirs(renamed))
  {
    renamed := PairDirs(FilesOf(aitems, onlyA), FilesOf(bitems, onlyB));
    aleft := FilterPaired(aitems, renamed);
    bleft := FilterPaired(bitems, renamed);
  }

  // ---------------------------------------------------------------------
  // The pairing is a matching, and no matching is larger
  // ---------------------------------------------------------------------

  ghost predicate SameFiles(ab: seq<DirFiles>, ba: seq<DirFiles>, d1: string, d2: string) {
    exists i, j :: 0 <= i < |ab| && 0 <= j < |ba| && ab[i].0 == d1 && ba[j].0 == d2 && ab[i].1 == ba[j].1
  }

  /** A partial injection between directories with the same files. */
  ghost predicate Matching(m: map<string, string>, ab: seq<DirFiles>, ba: seq<DirFiles>) {
    && (forall d :: d in m ==> SameFiles(ab, ba, d, m[d]))
    && (forall d, e :: d in m && e in m && d != e ==> m[d] != m[e])
  }

  function AsMap(pairs: seq<(string, string)>): map<string, string> {
    if pairs == [] then map[] else AsMap(pairs[1..])[pairs[0].0 := pairs[0].1]
  }

  lemma SameFilesMore(ab: seq<DirFiles>, ba: seq<DirFiles>, i: nat, d1: string, d2: string)
    requires ab != [] && i < |ba| && DistinctDirs(ba) && SameFiles(ab[1..], RemoveAt(ba, i), d1, d2)
    ensures SameFiles(ab, ba, d1, d2) && d2 != ba[i].0
  {
    var r := RemoveAt(ba, i);
    RemoveAtDistinct(ba, i);
    var k, j :| 0 <= k < |ab[1..]| && 0 <= j < |r| && ab[1..][k].0 == d1 && r[j].0 == d2 && ab[1..][k].1 == r[j].1;
    assert ab[k + 1] == ab[1..][k];
    assert r[j] in ba;
  }

  lemma SameFilesTail(ab: seq<DirFiles>, ba: seq<DirFiles>, d1: string, d2: string)
    requires ab != [] && SameFiles(ab[1..], ba, d1, d2)
    ensures SameFiles(ab, ba, d1, d2)
  {
    var k, j :| 0 <= k < |ab[1..]| && 0 <= j < |ba| && ab[1..][k].0 == d1 && ba[j].0 == d2 && ab[1..][k].1 == ba[j].1;
    assert ab[k + 1] == ab[1..][k];
  }

  lemma FirstsDiffer(ab: seq<DirFiles>, ba: seq<DirFiles>, d1: string, d2: string)
    requires ab != [] && DistinctDirs(ab) && SameFiles(ab[1..], ba, d1, d2)
    ensures d1 != ab[0].0
  {
    var k, j :| 0 <= k < |ab[1..]| && 0 <= j < |ba| && ab[1..][k].0 == d1 && ba[j].0 == d2 && ab[1..][k].1 == ba[j].1;
    assert ab[k + 1] == ab[1..][k];
  }

  /** The pairs found form a matching. */
  lemma {:induction false} PairsMatch(ab: seq<DirFiles>, ba: seq<DirFiles>)
    requires DistinctDirs(ab) && DistinctDirs(ba)
    ensures Matching(AsMap(Pairs(ab, ba)), ab, ba) && |AsMap(Pairs(ab, ba))| == |Pairs(ab, ba)|
  {
    hide FirstMatch, RemoveAt, SameFiles;
    if ab == [] {
    } else {
      var i := FirstMatch(ab[0].1, ba);
      MatchIsMatch(ab, ba);
      if i < |ba| {
        var r := RemoveAt(ba, i);
        RemoveAtDistinct(ba, i);
        PairsMatch(ab[1..], r);
        var m := AsMap(Pairs(ab[1..], r));
        assert Pairs(ab, ba)[1..] == Pairs(ab[1..], r);
        assert AsMap(Pairs(ab, ba)) == m[ab[0].0 := ba[i].0];
        forall d | d in m
          ensures SameFiles(ab, ba, d, m[d]) && m[d] != ba[i].0 && d != ab[0].0
        {
          SameFilesMore(ab, ba, i, d, m[d]);
          FirstsDiffer(ab, r, d, m[d]);
        }
      } else {
        PairsMatch(ab[1..], ba);
        var m := AsMap(Pairs(ab[1..], ba));
        forall d | d in m
          ensures SameFiles(ab, ba, d, m[d])
        {
          SameFilesTail(ab, ba, d, m[d]);
        }
      }
    }
  }

  lemma MatchIsMatch(ab: seq<DirFiles>, ba: seq<DirFiles>)
    requires ab != []
    ensures var i := FirstMatch(ab[0].1, ba); i < |ba| ==> SameFiles(ab, ba, ab[0].0, ba[i].0)
  {}

  /** A pair that avoids the head of `ab` and entry `i` of `ba` does not need them. */
  lemma SameFilesLess(ab: seq<DirFiles>, ba: seq<DirFiles>, i: nat, d1: string, d2: string)
    requires ab != [] && i < |ba| && DistinctDirs(ba) && SameFiles(ab, ba, d1, d2) && d1 != ab[0].0 && d2 != ba[i].0
    ensures SameFiles(ab[1..], RemoveAt(ba, i), d1, d2)
  {
    var r := RemoveAt(ba, i);
    RemoveAtDistinct(ba, i);
    var k, j :| 0 <= k < |ab| && 0 <= j < |ba| && ab[k].0 == d1 && ba[j].0 == d2 && ab[k].1 == ba[j].1;
    assert ab[1..][k - 1] == ab[k];
    assert ba[j] in r;
    var n :| 0 <= n < |r| && r[n] == ba[j];
  }

  lemma SameFilesSkipsHead(ab: seq<DirFiles>, ba: seq<DirFiles>, d1: string, d2: string)
    requires ab != [] && SameFiles(ab, ba, d1, d2) && d1 != ab[0].0
    ensures SameFiles(ab[1..], ba, d1, d2)
  {
    var k, j :| 0 <= k < |ab| && 0 <= j < |ba| && ab[k].0 == d1 && ba[j].0 == d2 && ab[k].1 == ba[j].1;
    assert ab[1..][k - 1] == ab[k];
  }

  /** If d ~ the entry i and the head ~ e, where the head ~ the entry i, then d ~ e. */
  lemma SameFilesSwap(ab: seq<DirFiles>, ba: seq<DirFiles>, i: nat, d: string, e: string)
    requires ab != [] && i < |ba| && DistinctDirs(ab) && DistinctDirs(ba) && ab[0].1 == ba[i].1
    requires SameFiles(ab, ba, d, ba[i].0) && SameFiles(ab, ba, ab[0].0, e)
    ensures SameFiles(ab, ba, d, e)
  {
    var k, j :| 0 <= k < |ab| && 0 <= j < |ba| && ab[k].0 == d && ba[j].0 == ba[i].0 && ab[k].1 == ba[j].1;
    var l, n :| 0 <= l < |ab| && 0 <= n < |ba| && ab[l].0 == ab[0].0 && ba[n].0 == e && ab[l].1 == ba[n].1;
    assert j == i && l == 0;
    assert ab[k].1 == ba[n].1;
  }

  /** The matching `m` rearranged so as not to use the head of `ab` or entry `i` of
      `ba`; it loses at most one pair. */
  lemma Rearranged(m: map<string, string>, ab: seq<DirFiles>, ba: seq<DirFiles>, i: nat)
    returns (n: map<string, string>)
    requires ab != [] && i < |ba| && DistinctDirs(ab) && DistinctDirs(ba) && ab[0].1 == ba[i].1
    requires Matching(m, ab, ba)
    ensures Matching(n, ab[1..], RemoveAt(ba, i)) && |m| <= |n| + 1
  {
    hide SameFiles, RemoveAt, DistinctDirs, Matching;
    var d1, d2 := ab[0].0, ba[i].0;
    MinusOne(m, d1);
    if k :| k in m && k != d1 && m[k] == d2 {
      if d1 in m {
        n := (m - {d1})[k := m[d1]];
        UpdateSize(m - {d1}, k, m[d1]);
        SwappedMatching(m, ab, ba, i, k);
      } else {
        n := m - {k};
        MinusOne(m, k);
        OnlyOneSource(m, ab, ba, k);
        PartMatches(m, n, ab, ba, i, k);
      }
    } else {
      n := m - {d1};
      PartMatches(m, n, ab, ba, i, d1);
    }
  }

  lemma OnlyOneSource(m: map<string, string>, ab: seq<DirFiles>, ba: seq<DirFiles>, k: string)
    requires Matching(m, ab, ba) && k in m
    ensures forall d :: d in m && d != k ==> m[d] != m[k]
  {}

  lemma PartMatches(m: map<string, string>, n: map<string, string>, ab: seq<DirFiles>, ba: seq<DirFiles>, i: nat,
                    k: string)
    requires ab != [] && i < |ba| && DistinctDirs(ba) && Matching(m, ab, ba)
    requires n == m - {k} && ab[0].0 !in n && forall d :: d in n ==> n[d] != ba[i].0
    ensures Matching(n, ab[1..], RemoveAt(ba, i))
  {
    hide SameFiles, RemoveAt, DistinctDirs;
    forall d | d in n
      ensures SameFiles(ab[1..], RemoveAt(ba, i), d, n[d])
    {
      SameFilesLess(ab, ba, i, d, n[d]);
    }
  }

  lemma SwappedMatching(m: map<string, string>, ab: seq<DirFiles>, ba: seq<DirFiles>, i: nat, k: string)
    requires ab != [] && i < |ba| && DistinctDirs(ab) && DistinctDirs(ba) && ab[0].1 == ba[i].1 && Matching(m, ab, ba)
    requires ab[0].0 in m && k in m && k != ab[0].0 && m[k] == ba[i].0
    ensures Matching((m - {ab[0].0})[k := m[ab[0].0]], ab[1..], RemoveAt(ba, i))
  {
    hide SameFiles, RemoveAt, DistinctDirs;
    var d1 := ab[0].0;
    var n := (m - {d1})[k := m[d1]];
    SameFilesSwap(ab, ba, i, k, m[d1]);
    forall d | d in n
      ensures SameFiles(ab[1..], RemoveAt(ba, i), d, n[d])
    {
      assert n[d] != ba[i].0;
      SameFilesLess(ab, ba, i, d, n[d]);
    }
  }

  lemma MinusOne(m: map<string, string>, k: string)
    ensures |m| <= |m - {k}| + 1
  {
    assert m.Keys <= (m - {k}).Keys + {k};
    var more := (m - {k}).Keys + {k};
    SubsetSize(m.Keys, more);
  }

  lemma {:induction false} SubsetSize(a: set<string>, b: set<string>)
    requires a <= b
    ensures |a| <= |b|
  {
    if x :| x in a {
      SubsetSize(a - {x}, b - {x});
    }
  }

  /** No matching pairs more directories than the source does. */
  lemma {:induction false} PairsAreMost(m: map<string, string>, ab: seq<DirFiles>, ba: seq<DirFiles>)
    requires DistinctDirs(ab) && DistinctDirs(ba) && Matching(m, ab, ba)
    ensures |m| <= |Pairs(ab, ba)|
    decreases |ab|
  {
    hide SameFiles, RemoveAt;
    if ab == [] {
      forall d | d in m
        ensures false
      {
        NoFilesNoPair(ba, d, m[d]);
      }
      assert m == map[];
    } else {
      var i := FirstMatch(ab[0].1, ba);
      if i < |ba| {
        var n := Rearranged(m, ab, ba, i);
        RemoveAtDistinct(ba, i);
        PairsAreMost(n, ab[1..], RemoveAt(ba, i));
      } else {
        forall d | d in m
          ensures SameFiles(ab[1..], ba, d, m[d])
        {
          UnmatchedHead(ab, ba, m[d]);
          SameFilesSkipsHead(ab, ba, d, m[d]);
        }
        PairsAreMost(m, ab[1..], ba);
      }
    }
  }

  lemma NoFilesNoPair(ba: seq<DirFiles>, d: string, e: string)
    ensures !SameFiles([], ba, d, e)
  {}

  lemma UnmatchedHead(ab: seq<DirFiles>, ba: seq<DirFiles>, e: string)
    requires ab != [] && DistinctDirs(ab) && FirstMatch(ab[0].1, ba) == |ba|
    ensures !SameFiles(ab, ba, ab[0].0, e)
  {
    forall k, j | 0 <= k < |ab| && 0 <= j < |ba|
      ensures !(ab[k].0 == ab[0].0 && ba[j].0 == e && ab[k].1 == ba[j].1)
    {
      assert k > 0 ==> ab[k].0 != ab[0].0;
    }
  }

  /** Paired directories hold the same file names: the same number of each. */
  lemma SameFilesSameNames(aitems: seq<string>, bitems: seq<string>, onlyA: seq<string>, onlyB: seq<string>,
                           d1: string, d2: string)
    requires SameFiles(FilesOf(aitems, onlyA), FilesOf(bitems, onlyB), d1, d2)
    ensures d1 in onlyA && d2 in onlyB && multiset(NamesIn(aitems, d1)) == multiset(NamesIn(bitems, d2))
  {
    hide Sort, NamesIn;
    LexIsTotalOrder();
    SameSortIffSameItems(LexLeq, NamesIn(aitems, d1), NamesIn(bitems, d2));
  }

  /** detect_renamed_dirs pairs as many directories as can be paired at all, each with
      one that has the same file names, and takes out of each difference exactly the
      items of its paired directories. */
  lemma RenamedDirsMain(aitems: seq<string>, bitems: seq<string>, onlyA: seq<string>, onlyB: seq<string>,
                        m: map<string, string>)
    requires Lists(onlyA, DirsOf(aitems) - DirsOf(bitems)) && Lists(onlyB, DirsOf(bitems) - DirsOf(aitems))
    ensures var ab, ba := FilesOf(aitems, onlyA), FilesOf(bitems, onlyB);
            var pairs := Pairs(ab, ba);
            && Matching(AsMap(pairs), ab, ba) && |AsMap(pairs)| == |pairs|
            && (Matching(m, ab, ba) ==> |m| <= |pairs|)
            && var aleft, bleft := WithoutDirs(aitems, PairedDirs(pairs)), WithoutDirs(bitems, PairedDirs(pairs));
               && (forall x :: x in aleft && x !in bleft
                     <==> x in aitems && x !in bitems && DirName(x) !in AsMap(pairs).Keys)
               && (forall x :: x in bleft && x !in aleft
                     <==> x in bitems && x !in aitems && DirName(x) !in AsMap(pairs).Values)
  {
    hide Pairs, FilesOf, DirName, Matching, NamesIn, Sort;
    var ab, ba := FilesOf(aitems, onlyA), FilesOf(bitems, onlyB);
    var pairs := Pairs(ab, ba);
    PairsMatch(ab, ba);
    if Matching(m, ab, ba) { PairsAreMost(m, ab, ba); }
    AsMapCovers(pairs);
    PairedLie(aitems, bitems, onlyA, onlyB);
    forall x | x in aitems
      ensures DirName(x) in DirsOf(aitems)
    {}
    forall x | x in bitems
      ensures DirName(x) in DirsOf(bitems)
    {}
  }

  lemma {:induction false} AsMapCovers(pairs: seq<(string, string)>)
    requires |AsMap(pairs)| == |pairs|
    ensures AsMap(pairs).Keys == set i | 0 <= i < |pairs| :: pairs[i].0
    ensures AsMap(pairs).Values == set i | 0 <= i < |pairs| :: pairs[i].1
  {
    if pairs == [] {
    } else {
      var rest := pairs[1..];
      var m := AsMap(rest);
      var p := pairs[0];
      AsMapSize(rest);
      UpdateSize(m, p.0, p.1);
      AsMapCovers(rest);
      SetsOfTail(pairs);
      assert AsMap(pairs).Keys == m.Keys + {p.0};
      UpdateValues(m, p.0, p.1);
    }
  }

  lemma SetsOfTail(pairs: seq<(string, string)>)
    requires pairs != []
    ensures (set i | 0 <= i < |pairs| :: pairs[i].0) == (set i | 0 <= i < |pairs[1..]| :: pairs[1..][i].0)
            + {pairs[0].0}
    ensures (set i | 0 <= i < |pairs| :: pairs[i].1) == (set i | 0 <= i < |pairs[1..]| :: pairs[1..][i].1)
            + {pairs[0].1}
  {
    var rest := pairs[1..];
    assert forall i :: 0 < i < |pairs| ==> pairs[i] == rest[i - 1];
    assert forall i :: 0 <= i < |rest| ==> rest[i] == pairs[i + 1];
  }

  lemma UpdateValues(m: map<string, string>, k: string, v: string)
    requires k !in m
    ensures m[k := v].Values == m.Values + {v}
  {
    var all := m[k := v];
    assert k in all && all[k] == v;
    assert forall d :: d in m ==> d in all && all[d] == m[d];
  }

  lemma UpdateSize(m: map<string, string>, k: string, v: string)
    ensures k in m ==> |m[k := v]| == |m|
  {
    assert k in m ==> m[k := v].Keys == m.Keys;
    assert |m.Keys| == |m| && |m[k := v].Keys| == |m[k := v]|;
  }

  lemma {:induction false} AsMapSize(pairs: seq<(string, string)>)
    ensures |AsMap(pairs)| <= |pairs|
  {
    if pairs == [] {
    } else {
      AsMapSize(pairs[1..]);
      assert AsMap(pairs).Keys == AsMap(pairs[1..]).Keys + {pairs[0].0};
    }
  }

  lemma PairedLie(aitems: seq<string>, bitems: seq<string>, onlyA: seq<string>, onlyB: seq<string>)
    requires Lists(onlyA, DirsOf(aitems) - DirsOf(bitems)) && Lists(onlyB, DirsOf(bitems) - DirsOf(aitems))
    ensures var ab, ba := FilesOf(aitems, onlyA), FilesOf(bitems, onlyB);
            && DistinctDirs(ab) && DistinctDirs(ba)
            && forall i :: 0 <= i < |Pairs(ab, ba)| ==>
                 && Pairs(ab, ba)[i].0 in DirsOf(aitems) && Pairs(ab, ba)[i].0 !in DirsOf(bitems)
                 && Pairs(ab, ba)[i].1 in DirsOf(bitems) && Pairs(ab, ba)[i].1 !in DirsOf(aitems)
  {
    hide Sort, NamesIn, Pairs, DirsOf;
    var ab, ba := FilesOf(aitems, onlyA), FilesOf(bitems, onlyB);
    PairsLie(ab, ba);
    forall i | 0 <= i < |Pairs(ab, ba)|
      ensures Pairs(ab, ba)[i].0 in onlyA && Pairs(ab, ba)[i].1 in onlyB
    {
      assert HasDir(ab, Pairs(ab, ba)[i].0) && HasDir(ba, Pairs(ab, ba)[i].1);
    }
  }

  predicate HasDir(xs: seq<DirFiles>, d: string) {
    exists i :: 0 <= i < |xs| && xs[i].0 == d
  }

  lemma HasDirTail(xs: seq<DirFiles>, d: string)
    requires xs != [] && HasDir(xs[1..], d)
    ensures HasDir(xs, d)
  {
    var i :| 0 <= i < |xs[1..]| && xs[1..][i].0 == d;
    assert xs[i + 1].0 == d;
  }

  lemma HasDirRemoved(xs: seq<DirFiles>, at: nat, d: string)
    requires at < |xs| && HasDir(RemoveAt(xs, at), d)
    ensures HasDir(xs, d)
  {
    var i :| 0 <= i < |RemoveAt(xs, at)| && RemoveAt(xs, at)[i].0 == d;
    assert RemoveAt(xs, at)[i] == xs[if i < at then i else i + 1];
  }

  lemma {:induction false} PairsLie(ab: seq<DirFiles>, ba: seq<DirFiles>)
    ensures forall i :: 0 <= i < |Pairs(ab, ba)| ==> HasDir(ab, Pairs(ab, ba)[i].0) && HasDir(ba, Pairs(ab, ba)[i].1)
  {
    hide FirstMatch, RemoveAt;
    if ab == [] {
    } else {
      var at := FirstMatch(ab[0].1, ba);
      var r := if at < |ba| then RemoveAt(ba, at) else ba;
      PairsLie(ab[1..], r);
      var tail := Pairs(ab[1..], r);
      forall i | 0 <= i < |tail|
        ensures HasDir(ab, tail[i].0) && HasDir(ba, tail[i].1)
      {
        HasDirTail(ab, tail[i].0);
        if at < |ba| { HasDirRemoved(ba, at, tail[i].1); }
      }
      if at < |ba| {
        assert ab[0].0 == ab[0].0 && ba[at].0 == ba[at].0;
        assert Pairs(ab, ba) == [(ab[0].0, ba[at].0)] + tail;
      }
    }
  }
}
