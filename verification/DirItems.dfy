/** Which directories hold the same files, said by the items. */
module DirItems {
  import opened PosixPath
  import opened RenamedDirs
  import opened Sorting

  /** `d` is the text `h` without the slashes it ends in, but slashes alone stay. */
  ghost predicate IsHead(h: string, d: string) {
    if AllSlashes(h) then d == h
    else d != "" && d[|d| - 1] != SEP && d <= h && AllSlashes(h[|d|..])
  }

  /** `n` is what follows the last slash of `x`. */
  ghost predicate IsTail(x: string, n: string) {
    |n| <= |x| && n == x[|x| - |n|..] && SEP !in n && (|n| < |x| ==> x[|x| - |n| - 1] == SEP)
  }

  /** The item `x` is the file name `n` in the directory `d`. */
  ghost predicate LiesIn(x: string, d: string, n: string) {
    IsTail(x, n) && IsHead(x[..|x| - |n|], d)
  }

  lemma StripTrailingIs(h: string, d: string)
    requires !AllSlashes(h)
    ensures StripTrailing(h) == d <==> IsHead(h, d)
  {
    var s := StripTrailing(h);
    var k :| 0 <= k < |h| && h[k] != SEP;
    assert k < |s|;
    assert forall i :: |s| <= i < |h| ==> h[|s|..][i - |s|] == h[i];
    if IsHead(h, d) {
      assert forall i :: |d| <= i < |h| ==> h[i] == h[|d|..][i - |d|];
      assert s == h[..|s|] && d == h[..|d|];
      assert h[|d| - 1] == d[|d| - 1] && h[|s| - 1] == s[|s| - 1];
    }
  }

  lemma IsTailIff(x: string, n: string)
    ensures IsTail(x, n) <==> BaseName(x) == n
  {
    var k := HeadLength(x);
    assert SEP !in x[k..];
    if IsTail(x, n) {
      var m := |x| - |n|;
      assert forall i :: m <= i < |x| ==> x[i] == n[i - m];
      assert forall i :: m <= i < |x| ==> x[i] in n;
      assert k <= m;
    }
  }

  lemma LiesInIff(x: string, d: string, n: string)
    ensures LiesIn(x, d, n) <==> DirName(x) == d && BaseName(x) == n
  {
    hide StripTrailing, IsHead, AllSlashes, IsTail, HeadLength;
    IsTailIff(x, n);
    HeadIs(x[..HeadLength(x)], d);
    IsTailFits(x, n);
  }

  lemma IsTailFits(x: string, n: string)
    ensures IsTail(x, n) ==> |n| <= |x|
    ensures BaseName(x) == n ==> |x| - |n| == HeadLength(x)
  {}

  lemma HeadIs(h: string, d: string)
    ensures IsHead(h, d) <==> d == if AllSlashes(h) then h else StripTrailing(h)
  {
    if !AllSlashes(h) { StripTrailingIs(h, d); }
  }

  /** How many of the items are the file name `n` in `d`. */
  ghost function HowMany(items: seq<string>, d: string, n: string): nat {
    if items == [] then 0 else (if LiesIn(items[0], d, n) then 1 else 0) + HowMany(items[1..], d, n)
  }

  /** Every file name is in the one directory as often as in the other. */
  ghost predicate SameNumbers(aitems: seq<string>, d1: string, bitems: seq<string>, d2: string) {
    forall n :: HowMany(aitems, d1, n) == HowMany(bitems, d2, n)
  }

  lemma {:induction false} NamesCount(items: seq<string>, d: string, n: string)
    ensures multiset(NamesIn(items, d))[n] == HowMany(items, d, n)
  {
    hide DirName, BaseName, LiesIn;
    if items == [] {
    } else {
      NamesCount(items[1..], d, n);
      LiesInIff(items[0], d, n);
      if DirName(items[0]) == d {
        assert NamesIn(items, d) == [BaseName(items[0])] + NamesIn(items[1..], d);
      }
    }
  }

  /** Two directories that only one side has can be paired exactly when every file name
      is in the one as often as in the other. */
  lemma SameFilesIff(aitems: seq<string>, bitems: seq<string>, onlyA: seq<string>, onlyB: seq<string>, d1: string,
                     d2: string)
    ensures SameFiles(FilesOf(aitems, onlyA), FilesOf(bitems, onlyB), d1, d2)
            <==> && d1 in onlyA && d2 in onlyB
                 && SameNumbers(aitems, d1, bitems, d2)
  {
    hide Sort, NamesIn, HowMany;
    LexIsTotalOrder();
    var xs, ys := NamesIn(aitems, d1), NamesIn(bitems, d2);
    SameSortIffSameItems(LexLeq, xs, ys);
    SameCounts(aitems, bitems, d1, d2);
    FilesAt(aitems, bitems, onlyA, onlyB, d1, d2);
  }

  lemma SameCounts(aitems: seq<string>, bitems: seq<string>, d1: string, d2: string)
    ensures multiset(NamesIn(aitems, d1)) == multiset(NamesIn(bitems, d2))
            <==> SameNumbers(aitems, d1, bitems, d2)
  {
    hide NamesIn, HowMany;
    var xs, ys := multiset(NamesIn(aitems, d1)), multiset(NamesIn(bitems, d2));
    if xs == ys {
      forall n
        ensures HowMany(aitems, d1, n) == HowMany(bitems, d2, n)
      {
        NamesCount(aitems, d1, n);
        NamesCount(bitems, d2, n);
      }
    }
    if SameNumbers(aitems, d1, bitems, d2) {
      forall n
        ensures xs[n] == ys[n]
      {
        NamesCount(aitems, d1, n);
        NamesCount(bitems, d2, n);
      }
      assert xs == ys <==> forall n :: xs[n] == ys[n];
    }
  }

  lemma FilesAt(aitems: seq<string>, bitems: seq<string>, onlyA: seq<string>, onlyB: seq<string>, d1: string,
                d2: string)
    ensures SameFiles(FilesOf(aitems, onlyA), FilesOf(bitems, onlyB), d1, d2)
            <==> && d1 in onlyA && d2 in onlyB
                 && Sort(LexLeq, NamesIn(aitems, d1)) == Sort(LexLeq, NamesIn(bitems, d2))
  {
    hide Sort, NamesIn;
    var ab, ba := FilesOf(aitems, onlyA), FilesOf(bitems, onlyB);
    if d1 in onlyA && d2 in onlyB {
      var i :| 0 <= i < |onlyA| && onlyA[i] == d1;
      var j :| 0 <= j < |onlyB| && onlyB[j] == d2;
      assert ab[i].0 == d1 && ba[j].0 == d2;
    }
  }
}
