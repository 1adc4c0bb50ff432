/** A link text that is not safe misleads realpath in some file system. */
module UnsafeTexts {
  import opened CachedPaths
  import opened FileSystems
  import opened LinkTrees
  import opened PathWalk
  import opened PosixPath
  import opened PosixTheorems
  import opened PosixWalks
  import opened RealPathTheorems
  import opened Splitting

  /** Texts other than `text` are safe. */
  ghost predicate OthersSafe(fs: FileSystem, text: string, assumeDir: bool) {
    forall p :: p in fs.nodes && fs.nodes[p].Link? && fs.nodes[p].target != text ==> Safe(fs.nodes[p].target, assumeDir)
  }

  ghost predicate Misled(fs: FileSystem, file: string, root: string, loopCnt: nat, assumeDir: bool) {
    && !IsLink(fs, RootOf(root)) && IsPathBelow(NormPath(file), RootOf(root))
    && !FollowsPosix(fs, file, root, loopCnt, assumeDir)
  }

  // ---------------------------------------------------------------------
  // A file that is a link in the top directory
  // ---------------------------------------------------------------------

  /** A name that is longer than every component of `text`. */
  function Fresh(c: char, text: string): (name: string)
    ensures |name| == |text| + 1 && name[0] == c
  {
    seq(|text| + 1, _ => c)
  }

  lemma FreshIsName(c: char, text: string)
    requires c in {'l', 'z'}
    ensures IsName(Fresh(c, text)) && IsStep(Fresh(c, text)) && Good([Fresh(c, text)])
    ensures Fresh(c, text) !in Split(text, SEP)
  {
    var name := Fresh(c, text);
    assert forall i :: 0 <= i < |name| ==> name[i] == c;
    PiecesAreShort(text);
  }

  lemma {:induction false} PiecesAreShort(s: string)
    ensures forall p :: p in Split(s, SEP) ==> |p| <= |s|
  {
    if s == [] {
    } else {
      PiecesAreShort(s[1..]);
    }
  }

  ghost predicate Differ(v: Walked, w: Walked) {
    && !v.Exhausted? && !w.Exhausted?
    && (v.Arrived? == w.Arrived? ==> v.at != w.at && Names(v.at) && Names(w.at))
  }

  lemma TopIsTop()
    ensures RootOf(TOP) == TOP && NormPath(TOP) == TOP && IsRoot(TOP) && Place(TOP, []) == TOP
  {
    PlaceIsNormal([]);
    assert Join([], SEP) == "";
  }

  lemma TodoOfName(l: string)
    requires Good([l])
    ensures IsPathBelow(NormPath(Place(TOP, [l])), TOP) && RootOf(TOP) == TOP && TodoOf(Place(TOP, [l]), TOP) == [l]
  {
    hide NormPath, TodoOf, Place;
    TopIsTop();
    GoodIsNames([l]);
    assert forall c :: c in [l] ==> c == l;
    assert l in [l] && !IsDot(l);
    TodoOfPlace(Place(TOP, [l]), TOP, [l]);
  }

  /** Two walks that differ show that realpath does not follow POSIX. */
  lemma Disagree(fs: FileSystem, l: string, loopCnt: nat, assumeDir: bool)
    requires Good([l]) && !IsLink(fs, TOP)
    requires Differ(Walk(fs, TOP, [], [l], loopCnt, assumeDir, true), PosixWalk(fs, TOP, [], [l], loopCnt, assumeDir))
    ensures Misled(fs, Place(TOP, [l]), TOP, loopCnt, assumeDir)
  {
    hide NormPath, IsLink, Walk, PosixWalk, TodoOf, RealPath, IsPathBelow, RootOf, Names;
    var file := Place(TOP, [l]);
    TodoOfName(l);
    TopIsTop();
    var v, w := Walk(fs, TOP, [], [l], loopCnt, assumeDir, true), PosixWalk(fs, TOP, [], [l], loopCnt, assumeDir);
    WalkDrivesRealPath(fs, file, TOP, loopCnt, loopCnt, assumeDir);
    var r := RealPath(fs, file, TOP, true, loopCnt, assumeDir);
    if Agrees(r, w, TOP) {
      var p := if r.Ok? then r.value else r.error.error.start;
      assert Denotes(p, TOP, v.at) && Denotes(p, TOP, w.at) && v.Arrived? == w.Arrived?;
      assert AllSlashes(TOP);
      PlaceTells(v.at, w.at);
      assert false;
    }
  }

  /** Both walkers go through the link in the top directory. */
  lemma ThroughLink(fs: FileSystem, l: string, text: string, left: nat, assumeDir: bool)
    requires Good([l]) && IsDir(fs, TOP) && IsLink(fs, Place(TOP, [l])) && LinkText(fs, Place(TOP, [l])) == text
    ensures PosixWalk(fs, TOP, [], [l], left + 1, assumeDir)
            == PosixWalk(fs, TOP, [], Split(text, SEP), left, assumeDir)
    ensures Walk(fs, TOP, [], [l], left + 1, assumeDir, true)
            == Walk(fs, TOP, [], Redirection(text), left, assumeDir, true)
  {
    hide NormPath, IsLink, IsDir, Place, Split, Redirection, Redirect, LinkText;
    assert l in [l];
    assert Place(TOP, []) == TOP by { TopIsTop(); }
    assert [] + [l] == [l] && [l][1..] == [];
    RedirectIs(fs, TOP, [], l);
    assert Split(text, SEP) + [] == Split(text, SEP) && Redirection(text) + [] == Redirection(text);
  }

  // ---------------------------------------------------------------------
  // A slash or `.` behind the last name
  // ---------------------------------------------------------------------

  lemma {:induction false} TrailingStays(cs: seq<string>) returns (b: seq<string>, t: seq<string>)
    requires HasName(cs)
    ensures cs == b + t && b != [] && !Stays(b[|b| - 1]) && forall c :: c in t ==> Stays(c)
  {
    var last := cs[|cs| - 1];
    if Stays(last) {
      var init := cs[..|cs| - 1];
      var i :| 0 <= i < |cs| && IsStep(cs[i]);
      assert init[i] == cs[i];
      b, t := TrailingStays(init);
      t := t + [last];
    } else {
      b, t := cs, [];
    }
  }

  lemma {:induction false} NoUpPrefix(a: seq<string>, b: seq<string>)
    requires NoUpAfterName(a + b)
    ensures NoUpAfterName(a)
  {
    if a == [] {
    } else {
      assert (a + b)[1..] == a[1..] + b;
      if IsStep(a[0]) {
        assert forall c :: c in a[1..] ==> c in a[1..] + b;
      } else {
        NoUpPrefix(a[1..], b);
      }
    }
  }

  /** Names are never dropped. */
  lemma {:induction false} NamesRemain(cs: seq<string>, c: string)
    requires NoUpAfterName(cs) && c in cs && IsStep(c)
    ensures c in DropUps(Moves(cs))
  {
    var d, rest := cs[0], cs[1..];
    assert cs == [d] + rest;
    if Stays(d) {
      assert [] + Moves(rest) == Moves(rest);
      NamesRemain(rest, c);
    } else if d == ".." {
      assert ([d] + Moves(rest))[1..] == Moves(rest);
      NamesRemain(rest, c);
    } else {
      MovesMembers(cs);
    }
  }

  /** The redirection of a safe text moves as the text does. */
  lemma RedirectionOfSafe(text: string)
    requires NoUpAfterName(Split(text, SEP))
    ensures DropUps(Moves(Redirection(text))) == DropUps(Moves(Split(text, SEP)))
  {
    hide Clean, Redirection, Moves;
    var cs := Split(text, SEP);
    RedirectionMoves(text);
    CleanOfSafe(IsAbs(text), [], cs);
    assert [] + Moves(cs) == Moves(cs) && [] + DropUps(Moves(cs)) == DropUps(Moves(cs));
    DropUpsTwice(Moves(cs));
  }

  lemma {:induction false} DropUpsTwice(cs: seq<string>)
    ensures DropUps(DropUps(cs)) == DropUps(cs)
  {
    if cs != [] && cs[0] == ".." { DropUpsTwice(cs[1..]); }
  }

  /** A redirection is made of separator-free components, short ones, with every `..` in front. */
  lemma RedirectionShape(text: string)
    ensures var y := Redirection(text);
            && SeparatorFree(y, SEP) && NoUpAfterName(y)
            && (forall c :: c in y && IsStep(c) ==> c in Split(text, SEP))
            && (NormPath(text) != "." ==> NoDots(y))
  {
    hide NormPath, Clean, IsDot;
    var y := Redirection(text);
    var all := Split(NormPath(text), SEP);
    assert forall c :: c in y ==> c in all;
    if NormPath(text) != "." { NormPathNoDots(text); }
    RedirectionMoves(text);
    CleanMembers(IsAbs(text), [], Split(text, SEP));
    MovesMembers(y);
    CleanIsCanonical(IsAbs(text), [], Split(text, SEP));
    UpsInFront(y);
  }

  lemma {:induction false} CleanMembers(abs: bool, kept: seq<string>, cs: seq<string>)
    ensures forall c :: c in Clean(abs, kept, cs) ==> c in kept || c in cs
    decreases |cs|
  {
    if cs == [] {
    } else {
      CleanMembers(abs, CleanStep(abs, kept, cs[0]), cs[1..]);
      assert cs == [cs[0]] + cs[1..];
    }
  }

  ghost predicate UpsFirst(ms: seq<string>) {
    forall i, j :: 0 <= i < j < |ms| && ms[j] == ".." ==> ms[i] == ".."
  }

  lemma UpsFirstTail(c: string, ns: seq<string>)
    requires UpsFirst([c] + ns)
    ensures UpsFirst(ns) && (c != ".." ==> ".." !in ns)
  {
    var ms := [c] + ns;
    assert forall j :: 0 <= j < |ns| ==> ms[j + 1] == ns[j];
    assert forall j :: 0 < j < |ms| && ms[j] == ".." ==> ms[0] == "..";
  }

  lemma {:induction false} UpsInFront(cs: seq<string>)
    requires UpsFirst(Moves(cs))
    ensures NoUpAfterName(cs)
  {
    hide UpsFirst;
    if cs == [] {
    } else {
      var c, rest := cs[0], cs[1..];
      if Stays(c) {
        assert [] + Moves(rest) == Moves(rest);
        UpsInFront(rest);
      } else {
        UpsFirstTail(c, Moves(rest));
        MovesMembers(rest);
        if c == ".." { UpsInFront(rest); }
      }
    }
  }

  /** The directories above `at` are there, `at` is not, and `l` is a link. */
  ghost predicate Trailing(fs: FileSystem, at: seq<string>, l: string, text: string) {
    && IsDir(fs, TOP) && !IsLink(fs, TOP)
    && IsLink(fs, Place(TOP, [l])) && LinkText(fs, Place(TOP, [l])) == text
    && (forall k :: 0 <= k < |at| ==> IsDir(fs, Place(TOP, at[..k])))
    && (forall k :: 0 < k <= |at| ==> !IsLink(fs, Place(TOP, at[..k])))
    && !IsDir(fs, Place(TOP, at))
  }

  lemma TrailingGround(fs: FileSystem, at: seq<string>, l: string, text: string)
    requires at != [] && Good(at) && Good([l]) && l !in at
    requires Ground(fs, Prefixes(at[..|at| - 1]), map[[l] := text])
    ensures Trailing(fs, at, l, text)
  {
    hide IsLink, IsDir, Place, LinkText, Good;
    var up := at[..|at| - 1];
    assert Place(TOP, []) == TOP by { TopIsTop(); }
    forall k | 0 <= k <= |at|
      ensures Good(at[..k]) && at[..k] != [l] && (at[..k] in Prefixes(up) <==> k < |at|)
    {
      GoodPrefix(at, at[..k]);
      assert forall c :: c in at[..k] ==> c in at;
      assert l in [l];
      assert k < |at| ==> at[..k] == up[..k];
    }
    assert at[..0] == [] && at[..|at|] == at;
    assert Good([l]);
    assert Good(at[..0]) && Good(at[..|at|]);
  }

  lemma NoEntry(fs: FileSystem, at: seq<string>, t: seq<string>, left: nat)
    requires t != [] && !IsDir(fs, Place(TOP, at))
    ensures PosixWalk(fs, TOP, at, t, left, false) == NotADirectory(at)
  {}

  /** The last name is still the last place. */
  lemma PlaceOfNames(cs: seq<string>, b: seq<string>, t: seq<string>)
    requires NoUpAfterName(cs) && HasName(cs) && cs == b + t && forall c :: c in t ==> Stays(c)
    ensures DropUps(Moves(cs)) == DropUps(Moves(b)) != []
  {
    MovesAppend(b, t);
    NothingMoves(t);
    assert Moves(b) + [] == Moves(b);
    var i :| 0 <= i < |cs| && IsStep(cs[i]);
    NamesRemain(cs, cs[i]);
  }

  /** Normalised, the text leads to its names. */
  lemma RedirectionArrives(fs: FileSystem, text: string, at: seq<string>)
    requires NoUpAfterName(Split(text, SEP)) && at == DropUps(Moves(Split(text, SEP))) != []
    requires IsDir(fs, TOP)
    requires forall k :: 0 <= k < |at| ==> IsDir(fs, Place(TOP, at[..k]))
    requires forall k :: 0 < k <= |at| ==> !IsLink(fs, Place(TOP, at[..k]))
    ensures Walk(fs, TOP, [], Redirection(text), 0, false, true) == Arrived(at, 0)
  {
    hide NormPath, IsLink, IsDir, Place, Split, Redirection, Moves, Walk, PosixWalk, NoUpAfterName, HasName;
    assert Moves(Split(text, SEP)) != [];
    SafeIsNoDot(text, true);
    RedirectionMoves(text);
    RedirectionShape(text);
    RedirectionOfSafe(text);
    ArrivesAtNames(fs, Redirection(text), 0, false);
    NoLinkMet(fs, TOP, [], Redirection(text), false);
  }

  /** The directories above the last name of the text, and the link. */
  lemma TrailingSlashMisleads(text: string) returns (fs: FileSystem, file: string)
    requires var cs := Split(text, SEP); NoUpAfterName(cs) && !EndsInName(cs)
    ensures OthersSafe(fs, text, false) && Misled(fs, file, TOP, 1, false)
  {
    hide NormPath, IsLink, IsDir, Place, Redirection, Moves, DropUps, LinkText, Walk, PosixWalk, NoUpAfterName,
         Misled, Names, Good, HasName, Safe, TreeFs;
    var cs := Split(text, SEP);
    var b, t := TrailingStays(cs);
    assert t != [] by { assert b + [] == b; }
    NoUpPrefix(b, t);
    PlaceOfNames(cs, b, t);
    var at, l := DropUps(Moves(b)), Fresh('l', text);
    assert SeparatorFree(b, SEP);
    NamesAreGood(b);
    FreshIsName('l', text);
    assert l !in at;
    var dirs, links := Prefixes(at[..|at| - 1]), map[[l] := text];
    forall d | d in dirs
      ensures Good(d)
    {
      GoodPrefix(at, d);
    }
    TreeIsGround(dirs, links);
    fs, file := TreeFs(dirs, links), Place(TOP, [l]);
    TrailingGround(fs, at, l, text);
    OneText(dirs, links, text);
    ThroughLink(fs, l, text, 0, false);
    ArrivesAtNames(fs, b, 0, false);
    PosixAppend(fs, TOP, [], b, t, 0, false);
    NoEntry(fs, at, t, 0);
    RedirectionArrives(fs, text, at);
    Disagree(fs, l, 1, false);
  }

  lemma OneText(dirs: set<seq<string>>, links: map<seq<string>, string>, text: string)
    requires (forall l :: l in links ==> Good(l)) && forall l :: l in links ==> links[l] == text
    ensures OthersSafe(TreeFs(dirs, links), text, false)
  {
    hide TreeFs, Safe, Good;
    var fs := TreeFs(dirs, links);
    forall p | p in fs.nodes && fs.nodes[p].Link?
      ensures fs.nodes[p].target == text
    {
      LinksOfTree(dirs, links, p);
    }
  }
}
