/** Small file systems, given by their directories and links as component lists. */
module LinkTrees {
  import opened FileSystems
  import opened Options
  import opened PathWalk
  import opened PosixPath
  import opened PosixWalks
  import opened Splitting

  const TOP := "/"

  ghost predicate Good(at: seq<string>) {
    forall c :: c in at ==> IsName(c) && IsStep(c)
  }

  lemma PlaceIsNormal(at: seq<string>)
    requires Good(at)
    ensures NormPath(Place(TOP, at)) == Place(TOP, at)
  {
    hide NormPath, Join;
    assert Slashes(1) == TOP;
    NormPathOfText(1, at);
  }

  /** Different places have different texts. */
  lemma PlaceTells(a: seq<string>, b: seq<string>)
    requires Names(a) && Names(b) && Place(TOP, a) == Place(TOP, b)
    ensures a == b
  {
    assert Place(TOP, a)[1..] == Join(a, SEP) && Place(TOP, b)[1..] == Join(b, SEP);
    if a != [] {
      JoinEndsWithName(a) by { assert a[|a| - 1] in a; }
      SplitOfJoin(a, SEP);
    }
    if b != [] {
      JoinEndsWithName(b) by { assert b[|b| - 1] in b; }
      SplitOfJoin(b, SEP);
    }
  }

  lemma GoodIsNames(at: seq<string>)
    requires Good(at)
    ensures Names(at)
  {}

  /** Directories, and links with their texts. */
  ghost function TreeFs(dirs: set<seq<string>>, links: map<seq<string>, string>): FileSystem
    requires forall at :: at in links ==> Good(at)
  {
    assert forall a, b :: a in links && b in links && Place(TOP, a) == Place(TOP, b) ==> a == b by {
      forall a, b | a in links && b in links && Place(TOP, a) == Place(TOP, b)
        ensures a == b
      {
        GoodIsNames(a);
        GoodIsNames(b);
        PlaceTells(a, b);
      }
    }
    FileSystem((map at | at in dirs :: Place(TOP, at) := Object(Stat(Directory, 0)))
               + (map at | at in links :: Place(TOP, at) := Link(0, links[at], None)))
  }

  /** What a walker finds at a place. */
  lemma Lookup(dirs: set<seq<string>>, links: map<seq<string>, string>, at: seq<string>)
    requires (forall d :: d in dirs ==> Good(d)) && (forall l :: l in links ==> Good(l)) && Good(at)
    ensures var fs, p := TreeFs(dirs, links), Place(TOP, at);
            && (IsLink(fs, p) <==> at in links)
            && (at in links ==> LinkText(fs, p) == links[at])
            && (at !in links ==> (IsDir(fs, p) <==> at in dirs))
  {
    hide NormPath, Place;
    PlaceIsNormal(at);
    var p := Place(TOP, at);
    forall b | (b in links || b in dirs) && Place(TOP, b) == p
      ensures b == at
    {
      PlaceTells(b, at);
    }
  }

  /** What all walkers find. */
  ghost predicate Ground(fs: FileSystem, dirs: set<seq<string>>, links: map<seq<string>, string>) {
    forall at :: Good(at) ==>
      && (IsLink(fs, Place(TOP, at)) <==> at in links)
      && (at in links ==> LinkText(fs, Place(TOP, at)) == links[at])
      && (at !in links ==> (IsDir(fs, Place(TOP, at)) <==> at in dirs))
  }

  lemma TreeIsGround(dirs: set<seq<string>>, links: map<seq<string>, string>)
    requires (forall d :: d in dirs ==> Good(d)) && (forall l :: l in links ==> Good(l))
    ensures Ground(TreeFs(dirs, links), dirs, links)
  {
    hide IsLink, IsDir, LinkText, Place, TreeFs, Good;
    forall at | Good(at)
      ensures (IsLink(TreeFs(dirs, links), Place(TOP, at)) <==> at in links)
              && (at in links ==> LinkText(TreeFs(dirs, links), Place(TOP, at)) == links[at])
              && (at !in links ==> (IsDir(TreeFs(dirs, links), Place(TOP, at)) <==> at in dirs))
    {
      Lookup(dirs, links, at);
    }
  }

  lemma LinksOfTree(dirs: set<seq<string>>, links: map<seq<string>, string>, p: string)
    requires forall l :: l in links ==> Good(l)
    requires p in TreeFs(dirs, links).nodes && TreeFs(dirs, links).nodes[p].Link?
    ensures exists at :: at in links && links[at] == TreeFs(dirs, links).nodes[p].target
  {
    hide Place;
  }

  // ---------------------------------------------------------------------
  // Walking down directories
  // ---------------------------------------------------------------------

  function Prefixes(at: seq<string>): (ps: set<seq<string>>)
    ensures forall p :: p in ps <==> p <= at
  {
    var ps := set k: nat | k <= |at| :: at[..k];
    assert forall p :: p <= at ==> p == at[..|p|];
    ps
  }

  lemma GoodPrefix(at: seq<string>, p: seq<string>)
    requires Good(at) && p <= at
    ensures Good(p)
  {
    assert forall c :: c in p ==> c in at;
  }

  /** A walk down directories that are there, past no link, arrives. */
  lemma {:induction false} WalkDown(fs: FileSystem, at: seq<string>, cs: seq<string>, left: nat, assumeDir: bool)
    requires Good(cs)
    requires forall k :: 0 <= k < |cs| ==> IsDir(fs, Place(TOP, at + cs[..k]))
    requires forall k :: 0 < k <= |cs| ==> !IsLink(fs, Place(TOP, at + cs[..k]))
    ensures PosixWalk(fs, TOP, at, cs, left, assumeDir) == Arrived(at + cs, left)
    decreases |cs|
  {
    hide IsDir, IsLink, Place;
    if cs == [] {
      assert at + cs == at;
    } else {
      var c, rest := cs[0], cs[1..];
      assert c in cs && forall x :: x in rest ==> x in cs;
      assert at + cs[..0] == at && at + cs[..1] == at + [c];
      assert forall k :: 0 <= k <= |rest| ==> (at + [c]) + rest[..k] == at + cs[..k + 1];
      WalkDown(fs, at + [c], rest, left, assumeDir);
      assert (at + [c]) + rest == at + cs;
    }
  }

  /** Components that stay are free in a directory. */
  lemma {:induction false} StaysPut(fs: FileSystem, at: seq<string>, cs: seq<string>, left: nat, assumeDir: bool)
    requires IsDir(fs, Place(TOP, at)) && forall c :: c in cs ==> Stays(c)
    ensures PosixWalk(fs, TOP, at, cs, left, assumeDir) == Arrived(at, left)
    decreases |cs|
  {
    hide IsDir, IsLink, Place;
    if cs == [] {
    } else {
      StaysPut(fs, at, cs[1..], left, assumeDir);
    }
  }

  /** With no link left to follow the walkers over normalised and over written texts
      cannot differ. */
  lemma {:induction false} NoLinkMet(fs: FileSystem, root: string, at: seq<string>, todo: seq<string>, assumeDir: bool)
    requires NoDots(todo)
    ensures Walk(fs, root, at, todo, 0, assumeDir, true) == PosixWalk(fs, root, at, todo, 0, assumeDir)
    decreases |todo|
  {
    hide IsDir, IsLink, Place, Redirect, LinkText;
    if todo == [] {
    } else {
      var c, rest := todo[0], todo[1..];
      assert c in todo && !IsDot(c) && forall x :: x in rest ==> x in todo;
      NoLinkMet(fs, root, at, rest, assumeDir);
      NoLinkMet(fs, root, Parent(at), rest, assumeDir);
      NoLinkMet(fs, root, at + [c], rest, assumeDir);
    }
  }

  /** Going up and down directories from the root, with a safe text, arrives at its names. */
  lemma ArrivesAtNames(fs: FileSystem, cs: seq<string>, left: nat, assumeDir: bool)
    requires SeparatorFree(cs, SEP) && NoUpAfterName(cs)
    requires cs == [] || !Stays(cs[|cs| - 1]) || !HasName(cs)
    requires var at := DropUps(Moves(cs));
             && IsDir(fs, TOP)
             && (forall k :: 0 <= k < |at| ==> IsDir(fs, Place(TOP, at[..k])))
             && (forall k :: 0 < k <= |at| ==> !IsLink(fs, Place(TOP, at[..k])))
    ensures PosixWalk(fs, TOP, [], cs, left, assumeDir) == Arrived(DropUps(Moves(cs)), left)
  {
    hide IsDir, IsLink, Moves, DropUps, HasName, PosixWalk, NoUpAfterName;
    var at := DropUps(Moves(cs));
    assert Place(TOP, []) == TOP by { assert Join([], SEP) == ""; }
    assert Enterable(fs, TOP, [], assumeDir);
    OnlyMoves(fs, TOP, [], cs, left, assumeDir);
    UpsAtRoot(fs, TOP, Moves(cs), left, assumeDir);
    NamesAreGood(cs);
    assert forall k :: 0 <= k <= |at| ==> [] + at[..k] == at[..k];
    WalkDown(fs, [], at, left, assumeDir);
    assert [] + at == at;
  }

  lemma {:induction false} NamesAreGood(cs: seq<string>)
    requires SeparatorFree(cs, SEP) && NoUpAfterName(cs)
    ensures Good(DropUps(Moves(cs)))
    ensures forall c :: c in DropUps(Moves(cs)) ==> c in cs
  {
    if cs == [] {
    } else {
      var c, rest := cs[0], cs[1..];
      assert c in cs && forall x :: x in rest ==> x in cs;
      if Stays(c) {
        assert [] + Moves(rest) == Moves(rest);
        NamesAreGood(rest);
      } else if c == ".." {
        assert ([c] + Moves(rest))[1..] == Moves(rest);
        NamesAreGood(rest);
      } else {
        MovesMembers(rest);
        assert Moves(cs) == [c] + Moves(rest);
      }
    }
  }

  lemma {:induction false} MovesMembers(cs: seq<string>)
    ensures forall c :: c in Moves(cs) <==> c in cs && !Stays(c)
  {
    if cs == [] {
    } else {
      MovesMembers(cs[1..]);
      assert cs == [cs[0]] + cs[1..];
    }
  }
}
