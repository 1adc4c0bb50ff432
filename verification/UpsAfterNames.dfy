/** Why no name in a link text may be followed by `..`: the name can be a link itself,
    to a directory so deep that the rest of the text cannot leave it. */
module UpsAfterNames {
  import opened FileSystems
  import opened LinkTrees
  import opened PathWalk
  import opened PosixPath
  import opened PosixWalks
  import opened Splitting
  import opened UnsafeTexts

  // ---------------------------------------------------------------------
  // The first `..` behind a name
  // ---------------------------------------------------------------------

  function Ups(cs: seq<string>): nat {
    if cs == [] then 0 else (if cs[0] == ".." then 1 else 0) + Ups(cs[1..])
  }

  lemma {:induction false} UpsAppend(xs: seq<string>, ys: seq<string>)
    ensures Ups(xs + ys) == Ups(xs) + Ups(ys)
  {
    if xs == [] {
      assert xs + ys == ys;
    } else {
      assert (xs + ys)[1..] == xs[1..] + ys;
      UpsAppend(xs[1..], ys);
    }
  }

  /** The components before the first `..`, and those behind it. */
  lemma {:induction false} FirstUp(cs: seq<string>) returns (b: seq<string>, q: seq<string>)
    requires ".." in cs
    ensures cs == b + [".."] + q && ".." !in b
  {
    if cs[0] == ".." {
      b, q := [], cs[1..];
    } else {
      b, q := FirstUp(cs[1..]);
      b := [cs[0]] + b;
    }
  }

  lemma {:induction false} LastName(cs: seq<string>) returns (a: seq<string>, n: string, s: seq<string>)
    requires HasName(cs) && ".." !in cs
    ensures cs == a + [n] + s && IsStep(n) && forall c :: c in s ==> Stays(c)
  {
    var b, t := TrailingStays(cs);
    a, n, s := b[..|b| - 1], b[|b| - 1], t;
    assert b == a + [n];
    assert n in cs;
  }

  lemma {:induction false} NoUps(cs: seq<string>)
    requires ".." !in cs
    ensures NoUpAfterName(cs)
  {
    if cs == [] {
    } else {
      NoUps(cs[1..]);
    }
  }

  /** A name, perhaps followed by components that stay, with `..` behind it and no
      earlier `..` behind a name. */
  lemma {:induction false} NameThenUp(cs: seq<string>)
    returns (a: seq<string>, n: string, s: seq<string>, q: seq<string>)
    requires !NoUpAfterName(cs)
    ensures cs == a + [n] + s + [".."] + q && IsStep(n) && NoUpAfterName(a) && forall c :: c in s ==> Stays(c)
  {
    if IsStep(cs[0]) {
      var b;
      b, q := FirstUp(cs[1..]);
      var all := [cs[0]] + b;
      assert cs == all + [".."] + q;
      assert IsStep(all[0]);
      a, n, s := LastName(all);
      assert forall c :: c in a ==> c in all;
      NoUps(a);
    } else {
      a, n, s, q := NameThenUp(cs[1..]);
      a := [cs[0]] + a;
      assert a[1..] == cs[1..][..|a| - 1];
      assert cs == [cs[0]] + cs[1..];
    }
  }

  // ---------------------------------------------------------------------
  // The file system
  // ---------------------------------------------------------------------

  /** How many components `z` a place starts with. */
  function Depth(at: seq<string>, z: string): nat {
    if at != [] && at[0] == z then 1 + Depth(at[1..], z) else 0
  }

  function Deep(k: nat, z: string): (at: seq<string>)
    ensures |at| == k && forall i :: 0 <= i < k ==> at[i] == z
  {
    seq(k, _ => z)
  }

  lemma {:induction false} DepthOfDeep(k: nat, z: string)
    ensures Depth(Deep(k, z), z) == k
  {
    if k == 0 {
    } else {
      assert Deep(k, z)[1..] == Deep(k - 1, z);
      DepthOfDeep(k - 1, z);
    }
  }

  lemma {:induction false} DepthOfChild(at: seq<string>, c: string, z: string)
    requires c != z
    ensures Depth(at + [c], z) == Depth(at, z)
  {
    if at == [] {
    } else {
      assert (at + [c])[1..] == at[1..] + [c];
      DepthOfChild(at[1..], c, z);
    }
  }

  lemma {:induction false} DepthOfParent(at: seq<string>, z: string)
    ensures Depth(Parent(at), z) <= Depth(at, z) <= Depth(Parent(at), z) + 1
  {
    if |at| > 1 {
      assert Parent(at)[1..] == Parent(at[1..]);
      DepthOfParent(at[1..], z);
    }
  }

  /** `n` in the directory `p` is a link to a directory `k` levels deep, and `l` in the
      top directory is the link with the text. */
  datatype Trap = Trap(p: seq<string>, n: string, k: nat, z: string, l: string, text: string) {
    function ZText(): string {
      Place(TOP, Deep(k, z))
    }

    function Links(): map<seq<string>, string> {
      map[p + [n] := ZText(), [l] := text]
    }

    ghost function Dirs(): set<seq<string>> {
      Prefixes(p) + Prefixes(Deep(k, z))
    }

    ghost predicate Valid() {
      && k > 0 && Good(p + [n]) && Good([z]) && Good([l])
      && z !in p + [n] && l !in p + [n] && z != l
    }
  }

  lemma TrapIsGood(t: Trap)
    requires t.Valid()
    ensures Good(t.p) && Good(Deep(t.k, t.z))
    ensures (forall d :: d in t.Dirs() ==> Good(d)) && (forall l :: l in t.Links() ==> Good(l))
  {
    assert t.z in [t.z];
    GoodPrefix(t.p + [t.n], t.p);
    forall d | d in t.Dirs()
      ensures Good(d)
    {
      if d <= t.p { GoodPrefix(t.p, d); } else { GoodPrefix(Deep(t.k, t.z), d); }
    }
  }

  /** What the walkers find in the trap. */
  ghost predicate IsSet(fs: FileSystem, t: Trap) {
    && t.Valid()
    && (forall at :: Good(at) ==> (IsLink(fs, Place(TOP, at)) <==> at == t.p + [t.n] || at == [t.l]))
    && IsDir(fs, TOP) && !IsLink(fs, TOP)
    && IsLink(fs, Place(TOP, t.p + [t.n])) && LinkText(fs, Place(TOP, t.p + [t.n])) == t.ZText()
    && IsLink(fs, Place(TOP, [t.l])) && LinkText(fs, Place(TOP, [t.l])) == t.text
    && (forall i :: 0 <= i <= |t.p| ==> IsDir(fs, Place(TOP, t.p[..i])))
    && (forall i :: 0 <= i <= t.k ==> IsDir(fs, Place(TOP, Deep(t.k, t.z)[..i])))
  }

  lemma TrapIsSet(fs: FileSystem, t: Trap)
    requires t.Valid() && Ground(fs, t.Dirs(), t.Links())
    ensures IsSet(fs, t)
  {
    hide IsLink, IsDir, Place, LinkText, Good;
    assert Place(TOP, []) == TOP by { TopIsTop(); }
    TrapIsGood(t);
    var deep := Deep(t.k, t.z);
    assert t.l in [t.l] && t.l !in t.p + [t.n];
    assert t.p + [t.n] != [t.l] by { assert t.n in t.p + [t.n]; }
    forall i | 0 <= i <= |t.p|
      ensures IsDir(fs, Place(TOP, t.p[..i]))
    {
      GoodPrefix(t.p, t.p[..i]);
      assert forall c :: c in t.p[..i] ==> c in t.p + [t.n];
      assert t.p[..i] !in t.Links() by { assert t.p[..i] != [t.l]; assert |t.p[..i]| < |t.p + [t.n]|; }
    }
    forall i | 0 <= i <= t.k
      ensures IsDir(fs, Place(TOP, deep[..i]))
    {
      GoodPrefix(deep, deep[..i]);
      assert forall c :: c in deep[..i] ==> c == t.z;
      assert t.n in t.p + [t.n] && t.n != t.z;
      assert deep[..i] !in t.Links();
    }
    assert t.p[..0] == [];
    assert Good([t.l]) && Good(t.p + [t.n]) && Good(t.p[..0]);
  }

  /** There are no links below. */
  lemma NoLinkBelow(fs: FileSystem, t: Trap, at: seq<string>)
    requires IsSet(fs, t) && Good(at) && Depth(at, t.z) > 0
    ensures !IsLink(fs, Place(TOP, at))
  {
    hide IsLink, IsDir, Place, LinkText, Good;
    assert t.n in t.p + [t.n];
    assert (t.p + [t.n])[0] in t.p + [t.n];
  }

  // ---------------------------------------------------------------------
  // The text as it is written
  // ---------------------------------------------------------------------

  lemma GoodChild(at: seq<string>, c: string)
    requires Good(at) && IsName(c) && IsStep(c)
    ensures Good(at + [c])
  {}

  lemma GoodParent(at: seq<string>)
    requires Good(at)
    ensures Good(Parent(at))
  {}

  /** From deep enough down, the walk cannot leave, nor reach the bottom again. */
  lemma {:induction false} StaysBelow(fs: FileSystem, t: Trap, at: seq<string>, cs: seq<string>, assumeDir: bool)
    requires IsSet(fs, t) && Good(at) && SeparatorFree(cs, SEP) && t.z !in cs
    requires Ups(cs) < Depth(at, t.z) < t.k
    ensures var w := PosixWalk(fs, TOP, at, cs, 0, assumeDir);
            !w.Exhausted? && Good(w.at) && 0 < Depth(w.at, t.z) < t.k
    decreases |cs|
  {
    hide IsLink, IsDir, Place, LinkText, Good, IsSet, Parent;
    if cs != [] && (assumeDir || IsDir(fs, Place(TOP, at))) {
      var c, rest := cs[0], cs[1..];
      assert c in cs && forall x :: x in rest ==> x in cs;
      if Stays(c) {
        StaysBelow(fs, t, at, rest, assumeDir);
      } else if c == ".." {
        DepthOfParent(at, t.z);
        GoodParent(at);
        StaysBelow(fs, t, Parent(at), rest, assumeDir);
      } else {
        DepthOfChild(at, c, t.z);
        GoodChild(at, c);
        NoLinkBelow(fs, t, at + [c]);
        StaysBelow(fs, t, at + [c], rest, assumeDir);
      }
    }
  }

  /** The directory of the name is reached. */
  lemma ReachesDirectory(fs: FileSystem, t: Trap, a: seq<string>, left: nat, assumeDir: bool)
    requires IsSet(fs, t) && SeparatorFree(a, SEP) && NoUpAfterName(a) && t.p == DropUps(Moves(a))
    ensures PosixWalk(fs, TOP, [], a, left, assumeDir) == Arrived(t.p, left)
  {
    hide IsDir, IsLink, Place, LinkText, PosixWalk, Moves, DropUps, NoUpAfterName, HasName;
    NoLinksAbove(fs, t);
    if HasName(a) {
      var b, s := TrailingStays(a);
      NoUpPrefix(b, s);
      PlaceOfNames(a, b, s);
      assert SeparatorFree(b, SEP);
      ArrivesAtNames(fs, b, left, assumeDir);
      PosixAppend(fs, TOP, [], b, s, left, assumeDir);
      assert t.p[..|t.p|] == t.p;
      StaysPut(fs, t.p, s, left, assumeDir);
    } else {
      ArrivesAtNames(fs, a, left, assumeDir);
    }
  }

  lemma NoLinksAbove(fs: FileSystem, t: Trap)
    requires IsSet(fs, t)
    ensures forall i :: 0 < i <= |t.p| ==> !IsLink(fs, Place(TOP, t.p[..i]))
    ensures forall i :: 0 < i <= t.k ==> !IsLink(fs, Place(TOP, Deep(t.k, t.z)[..i]))
  {
    hide IsLink, IsDir, Place, LinkText, Good;
    TrapIsGood(t);
    var deep := Deep(t.k, t.z);
    forall i | 0 < i <= |t.p|
      ensures !IsLink(fs, Place(TOP, t.p[..i]))
    {
      GoodPrefix(t.p, t.p[..i]);
      assert forall c :: c in t.p[..i] ==> c in t.p + [t.n];
      assert t.l in [t.l] && |t.p[..i]| < |t.p + [t.n]|;
    }
    forall i | 0 < i <= t.k
      ensures !IsLink(fs, Place(TOP, deep[..i]))
    {
      GoodPrefix(deep, deep[..i]);
      assert deep[..i][0] == t.z;
      NoLinkBelow(fs, t, deep[..i]);
    }
  }

  /** The text of the name's link, and what it is normalised to. */
  lemma ZTextIsDeep(t: Trap)
    requires t.Valid()
    ensures var deep := Deep(t.k, t.z);
            && Split(t.ZText(), SEP) == [""] + deep && Redirection(t.ZText()) == deep && IsAbs(t.ZText())
            && (forall assumeDir :: Safe(t.ZText(), assumeDir))
  {
    hide NormPath, Moves, Join;
    TrapIsGood(t);
    var deep := Deep(t.k, t.z);
    assert Slashes(1) == TOP;
    assert forall c :: c in deep ==> IsName(c) by { GoodIsNames(deep); }
    SplitPathText(1, deep);
    PlaceIsNormal(deep);
    assert PathText(1, deep) == Place(TOP, deep);
    assert seq(1, _ => "") == [""];
    var cs := [""] + deep;
    assert cs[1..] == deep && cs[|cs| - 1] == t.z;
    NoUps(cs) by { assert forall c :: c in cs ==> c == "" || c == t.z; assert t.z in [t.z]; }
    assert !Stays(t.z) by { assert t.z in [t.z]; }
  }

  /** The link is followed to the bottom. */
  lemma ReachesBottom(fs: FileSystem, t: Trap, assumeDir: bool)
    requires IsSet(fs, t)
    ensures var deep := Deep(t.k, t.z);
            && PosixWalk(fs, TOP, [], deep, 0, assumeDir) == Arrived(deep, 0)
            && PosixWalk(fs, TOP, [], [""] + deep, 0, assumeDir) == Arrived(deep, 0)
  {
    hide IsDir, IsLink, Place, LinkText;
    TrapIsGood(t);
    NoLinksAbove(fs, t);
    var deep := Deep(t.k, t.z);
    assert forall i :: 0 <= i <= t.k ==> [] + deep[..i] == deep[..i];
    WalkDown(fs, [], deep, 0, assumeDir);
    assert [] + deep == deep && ([""] + deep)[1..] == deep;
    assert Place(TOP, []) == TOP by { TopIsTop(); }
  }

  lemma ThroughName(fs: FileSystem, t: Trap, assumeDir: bool)
    requires IsSet(fs, t)
    ensures PosixWalk(fs, TOP, t.p, [t.n], 1, assumeDir) == Arrived(Deep(t.k, t.z), 0)
  {
    hide IsDir, IsLink, Place, LinkText, Split, Good;
    ZTextIsDeep(t);
    ReachesBottom(fs, t, assumeDir);
    assert t.p[..|t.p|] == t.p;
    assert [t.n][1..] == [] && ([""] + Deep(t.k, t.z)) + [] == [""] + Deep(t.k, t.z);
    assert IsStep(t.n) by { NameOfTrap(t); }
  }

  lemma NameOfTrap(t: Trap)
    requires t.Valid()
    ensures IsStep(t.n) && t.n != t.z
  {
    assert t.n in t.p + [t.n];
  }

  /** As it is written, the text leads to a place between the top and the bottom. */
  lemma WrittenEndsBetween(fs: FileSystem, t: Trap, a: seq<string>, s: seq<string>, q: seq<string>, assumeDir: bool)
    requires IsSet(fs, t) && SeparatorFree(a, SEP) && NoUpAfterName(a) && t.p == DropUps(Moves(a))
    requires SeparatorFree(q, SEP) && t.z !in q && t.k == Ups(q) + 2
    requires forall c :: c in s ==> Stays(c)
    ensures var w := PosixWalk(fs, TOP, [], a + [t.n] + s + [".."] + q, 1, assumeDir);
            !w.Exhausted? && Good(w.at) && 0 < Depth(w.at, t.z) < t.k
  {
    hide IsDir, IsLink, Place, LinkText, PosixWalk, Moves, DropUps, NoUpAfterName, Good, Ups, Depth;
    var deep := Deep(t.k, t.z);
    ReachesDirectory(fs, t, a, 1, assumeDir);
    ThroughName(fs, t, assumeDir);
    PosixAppend(fs, TOP, [], a, [t.n], 1, assumeDir);
    assert deep[..t.k] == deep;
    StaysPut(fs, deep, s, 0, assumeDir);
    PosixAppend(fs, TOP, [], a + [t.n], s, 1, assumeDir);
    UpAlone(fs, TOP, deep, 0, assumeDir);
    PosixAppend(fs, TOP, [], a + [t.n] + s, [".."], 1, assumeDir);
    PosixAppend(fs, TOP, [], a + [t.n] + s + [".."], q, 1, assumeDir);
    assert Parent(deep) == Deep(t.k - 1, t.z);
    DepthOfDeep(t.k - 1, t.z);
    TrapIsGood(t);
    GoodParent(deep);
    StaysBelow(fs, t, Parent(deep), q, assumeDir);
  }

  // ---------------------------------------------------------------------
  // The text as it is normalised
  // ---------------------------------------------------------------------

  /** Normalised, no text can lead between the top and the bottom. */
  lemma {:induction false} EndsOutside(fs: FileSystem, t: Trap, at: seq<string>, cs: seq<string>, left: nat,
                                       assumeDir: bool)
    requires IsSet(fs, t) && Good(at) && SeparatorFree(cs, SEP) && NoDots(cs) && NoUpAfterName(cs)
    requires t.z !in cs && t.l !in cs
    requires (Depth(at, t.z) == 0 && left > 0) || (Depth(at, t.z) >= t.k && ".." !in cs)
    ensures var w := Walk(fs, TOP, at, cs, left, assumeDir, true);
            !w.Exhausted? && Good(w.at) && (Depth(w.at, t.z) == 0 || Depth(w.at, t.z) >= t.k)
    decreases |cs|
  {
    hide IsLink, IsDir, Place, LinkText, Good, Parent, Redirect;
    if cs != [] && (assumeDir || IsDir(fs, Place(TOP, at))) {
      var c, rest := cs[0], cs[1..];
      assert c in cs && !IsDot(c) && forall x :: x in rest ==> x in cs;
      if c == "" {
        EndsOutside(fs, t, at, rest, left, assumeDir);
      } else if c == ".." {
        DepthOfParent(at, t.z);
        GoodParent(at);
        EndsOutside(fs, t, Parent(at), rest, left, assumeDir);
      } else {
        NoUps(rest);
        DepthOfChild(at, c, t.z);
        GoodChild(at, c);
        if IsLink(fs, Place(TOP, at + [c])) {
          OnlyTheName(fs, t, at, c);
          GoesDeep(fs, t, rest, left, assumeDir);
          DepthOfDeep(t.k, t.z);
          TrapIsGood(t);
          EndsOutside(fs, t, Deep(t.k, t.z), rest, left - 1, assumeDir);
        } else {
          EndsOutside(fs, t, at + [c], rest, left, assumeDir);
        }
      }
    }
  }

  lemma OnlyTheName(fs: FileSystem, t: Trap, at: seq<string>, c: string)
    requires IsSet(fs, t) && Good(at + [c]) && c != t.l && IsLink(fs, Place(TOP, at + [c]))
    ensures at == t.p && c == t.n && Depth(at, t.z) == 0 && t.k > 0
    ensures Redirect(fs, TOP, at, c) == ([], Deep(t.k, t.z))
  {
    hide IsLink, IsDir, Place, LinkText, Good, Redirect, Redirection;
    assert at + [c] == t.p + [t.n] || at + [c] == [t.l];
    assert (at + [c])[|at|] == c && [t.l][0] == t.l && (t.p + [t.n])[|t.p|] == t.n;
    assert at == (at + [c])[..|at|] && t.p == (t.p + [t.n])[..|t.p|];
    assert t.p != [] ==> t.p[0] in t.p + [t.n];
    RedirectIs(fs, TOP, at, c);
    ZTextIsDeep(t);
  }

  lemma GoesDeep(fs: FileSystem, t: Trap, rest: seq<string>, left: nat, assumeDir: bool)
    requires IsSet(fs, t) && left > 0
    ensures var deep := Deep(t.k, t.z);
            Walk(fs, TOP, [], deep + rest, left - 1, assumeDir, true)
              == Walk(fs, TOP, deep, rest, left - 1, assumeDir, true)
  {
    hide IsLink, IsDir, Place, LinkText, Walk, PosixWalk;
    var deep := Deep(t.k, t.z);
    TrapIsGood(t);
    ReachesBottom(fs, t, assumeDir);
    NoLinkMet(fs, TOP, [], deep, assumeDir);
    WalkMore(fs, TOP, [], deep, 0, left - 1, assumeDir, true);
    WalkAppend(fs, TOP, [], deep, rest, left - 1, assumeDir, true);
  }

  lemma NormalisedEndsOutside(fs: FileSystem, t: Trap, assumeDir: bool)
    requires IsSet(fs, t) && t.z !in Split(t.text, SEP) && t.l !in Split(t.text, SEP)
    ensures var w := Walk(fs, TOP, [], Redirection(t.text), 1, assumeDir, true);
            !w.Exhausted? && Names(w.at) && (Depth(w.at, t.z) == 0 || Depth(w.at, t.z) >= t.k)
  {
    hide IsLink, IsDir, Place, LinkText, NormPath, Redirection, Split, Good, Walk;
    var y := Redirection(t.text);
    if NormPath(t.text) == "." {
      DotRedirection(t.text);
      DotWalk(fs, assumeDir);
      assert Depth(["."], t.z) == 0 by { assert t.z in [t.z]; NotDot(t); }
    } else {
      RedirectionShape(t.text);
      NotDot(t);
      SetParts(fs, t);
      GoodPrefix([t.l], []);
      EndsOutside(fs, t, [], y, 1, assumeDir);
      var w := Walk(fs, TOP, [], y, 1, assumeDir, true);
      GoodIsNames(w.at);
    }
  }

  lemma NotDot(t: Trap)
    requires t.Valid()
    ensures IsStep(t.z) && IsStep(t.l)
  {
    assert t.z in [t.z] && t.l in [t.l];
  }

  lemma DotRedirection(text: string)
    requires NormPath(text) == "."
    ensures Redirection(text) == ["."]
  {
    SplitFree(".", SEP);
  }

  lemma DotWalk(fs: FileSystem, assumeDir: bool)
    requires IsDir(fs, TOP) && !IsLink(fs, TOP)
    ensures Walk(fs, TOP, [], ["."], 1, assumeDir, true) == Arrived(["."], 1)
    ensures Names(["."])
  {
    hide NormPath, Place;
    TopIsTop();
    DotLooksUpSame(TOP, []);
    assert [] + ["."] == ["."] && ["."][1..] == [];
    assert forall c :: c in ["."] ==> c == ".";
    var none: seq<string> := [];
    assert Walk(fs, TOP, ["."], none, 1, assumeDir, true) == Arrived(["."], 1);
  }

  // ---------------------------------------------------------------------
  // The two differ
  // ---------------------------------------------------------------------

  lemma UpAfterNameMisleads(text: string, assumeDir: bool) returns (fs: FileSystem, file: string)
    requires !NoUpAfterName(Split(text, SEP))
    ensures OthersSafe(fs, text, assumeDir) && Misled(fs, file, TOP, 2, assumeDir)
  {
    hide IsLink, IsDir, Place, LinkText, NormPath, Redirection, Walk, PosixWalk, Moves, DropUps, NoUpAfterName,
         Misled, OthersSafe, IsSet, TreeFs, Ground, Good, Names;
    var cs := Split(text, SEP);
    var a, n, s, q := NameThenUp(cs);
    var z, l := Fresh('z', text), Fresh('l', text);
    var t := Trap(DropUps(Moves(a)), n, Ups(q) + 2, z, l, text);
    TrapIsValid(t, a, s, q);
    TrapIsGood(t);
    TreeIsGround(t.Dirs(), t.Links());
    fs, file := TreeFs(t.Dirs(), t.Links()), Place(TOP, [l]);
    TrapIsSet(fs, t);
    OnlyTextIsUnsafe(fs, t, assumeDir);
    assert SeparatorFree(a, SEP) && SeparatorFree(q, SEP) by { Parts(cs, a, n, s, q); }
    FreshIsName('z', text);
    assert z !in q by { Parts(cs, a, n, s, q); }
    WrittenEndsBetween(fs, t, a, s, q, assumeDir);
    FreshIsName('l', text);
    NormalisedEndsOutside(fs, t, assumeDir);
    SetParts(fs, t);
    ThroughLink(fs, l, text, 1, assumeDir);
    var v, w := Walk(fs, TOP, [], [l], 2, assumeDir, true), PosixWalk(fs, TOP, [], [l], 2, assumeDir);
    GoodIsNames(w.at);
    Disagree(fs, l, 2, assumeDir);
  }

  lemma Parts(cs: seq<string>, a: seq<string>, n: string, s: seq<string>, q: seq<string>)
    requires cs == a + [n] + s + [".."] + q
    ensures (forall c :: c in a || c in q ==> c in cs) && n in cs
  {
    forall c | c in q
      ensures c in cs
    {
      var i :| 0 <= i < |q| && q[i] == c;
      assert cs[|a| + 1 + |s| + 1 + i] == c;
    }
    forall c | c in a
      ensures c in cs
    {
      var i :| 0 <= i < |a| && a[i] == c;
      assert cs[i] == c;
    }
    assert cs[|a|] == n;
  }

  lemma TrapIsValid(t: Trap, a: seq<string>, s: seq<string>, q: seq<string>)
    requires Split(t.text, SEP) == a + [t.n] + s + [".."] + q && IsStep(t.n) && NoUpAfterName(a)
    requires t.p == DropUps(Moves(a)) && t.k > 0 && t.z == Fresh('z', t.text) && t.l == Fresh('l', t.text)
    ensures t.Valid()
  {
    hide Moves, DropUps, NoUpAfterName, Fresh, IsStep, Good;
    var cs := Split(t.text, SEP);
    Parts(cs, a, t.n, s, q);
    FreshIsName('z', t.text);
    FreshIsName('l', t.text);
    assert t.z[0] != t.l[0];
    assert SeparatorFree(a, SEP);
    NamesAreGood(a);
    GoodName(t.n, cs);
    GoodChild(t.p, t.n);
    assert forall c :: c in t.p + [t.n] ==> c in cs;
  }

  lemma GoodName(n: string, cs: seq<string>)
    requires n in cs && SeparatorFree(cs, SEP) && IsStep(n)
    ensures IsName(n)
  {}

  lemma SetParts(fs: FileSystem, t: Trap)
    requires IsSet(fs, t)
    ensures t.Valid() && Good([t.l]) && IsDir(fs, TOP) && !IsLink(fs, TOP)
    ensures IsLink(fs, Place(TOP, [t.l])) && LinkText(fs, Place(TOP, [t.l])) == t.text
  {
    hide IsLink, IsDir, LinkText;
  }

  lemma OnlyTextIsUnsafe(fs: FileSystem, t: Trap, assumeDir: bool)
    requires t.Valid() && (forall l :: l in t.Links() ==> Good(l)) && fs == TreeFs(t.Dirs(), t.Links())
    ensures OthersSafe(fs, t.text, assumeDir)
  {
    hide TreeFs, Safe, Good;
    ZTextIsDeep(t);
    forall p | p in fs.nodes && fs.nodes[p].Link?
      ensures fs.nodes[p].target == t.text || fs.nodes[p].target == t.ZText()
    {
      LinksOfTree(t.Dirs(), t.Links(), p);
    }
  }
}
