/** realpath's idea without its texts: components done, components to do, links left.
    Link texts are followed as the source follows them, normalised. */
module PathWalk {
  import opened Splitting
  import opened PosixPath
  import opened FileSystems
  import opened CachedPaths

  datatype Walked =
    | Arrived(at: seq<string>, left: nat)
    | NotADirectory(at: seq<string>)
    | Exhausted

  /** The path of the components `at` below the root. */
  function Place(root: string, at: seq<string>): string {
    root + Join(at, SEP)
  }

  function LinkText(fs: FileSystem, p: string): string
    requires IsLink(fs, p)
  {
    fs.nodes[NormPath(p)].target
  }

  /** Walk down `todo` from `at`. A `.` stays in place, unless `literal` is set: then it
      is one more component, as the source treats it. */
  function Walk(fs: FileSystem, root: string, at: seq<string>, todo: seq<string>, left: nat,
                assumeDir: bool, literal: bool): Walked
    decreases left, |todo|
  {
    if todo == [] then Arrived(at, left)
    else if !assumeDir && !IsDir(fs, Place(root, at)) then NotADirectory(at)
    else
      var c, rest := todo[0], todo[1..];
      if c == "" || (c == "." && !literal) then Walk(fs, root, at, rest, left, assumeDir, literal)
      else if c == ".." then Walk(fs, root, Parent(at), rest, left, assumeDir, literal)
      else if !IsLink(fs, Place(root, at + [c])) then Walk(fs, root, at + [c], rest, left, assumeDir, literal)
      else if left == 0 then Exhausted
      else
        var (from, text) := Redirect(fs, root, at, c);
        Walk(fs, root, from, text + rest, left - 1, assumeDir, literal)
  }

  function Parent(at: seq<string>): seq<string> {
    if at == [] then [] else at[..|at| - 1]
  }

  /** Where the link `c` in the directory `at` sends the walk, and by which components. */
  function Redirect(fs: FileSystem, root: string, at: seq<string>, c: string): (seq<string>, seq<string>)
    requires IsLink(fs, Place(root, at + [c]))
  {
    var target := NormPath(LinkText(fs, Place(root, at + [c])));
    if IsAbs(target) then ([], Split(target, SEP)[1..]) else (at, Split(target, SEP))
  }

  // ---------------------------------------------------------------------
  // Laws of the walker
  // ---------------------------------------------------------------------

  /** Go on from where a walk ended. */
  function WalkOn(fs: FileSystem, root: string, w: Walked, todo: seq<string>, assumeDir: bool, literal: bool): Walked {
    match w
    case Arrived(mid, rest) => Walk(fs, root, mid, todo, rest, assumeDir, literal)
    case other => other
  }

  function WithMore(w: Walked, more: nat): Walked {
    match w
    case Arrived(end, rest) => Arrived(end, rest + more)
    case other => other
  }

  /** Walking a concatenation is walking its halves, with what is left of the count. */
  lemma {:induction false} WalkAppend(fs: FileSystem, root: string, at: seq<string>, xs: seq<string>, ys: seq<string>,
                                      left: nat, assumeDir: bool, literal: bool)
    ensures Walk(fs, root, at, xs + ys, left, assumeDir, literal)
            == WalkOn(fs, root, Walk(fs, root, at, xs, left, assumeDir, literal), ys, assumeDir, literal)
    ensures var w := Walk(fs, root, at, xs, left, assumeDir, literal); w.Arrived? ==> w.left <= left
    decreases left, |xs|
  {
    hide IsLink, IsDir, NormPath, Redirect, Join;
    if xs == [] {
      assert xs + ys == ys;
    } else if assumeDir || IsDir(fs, Place(root, at)) {
      var c, rest := xs[0], xs[1..];
      assert (xs + ys)[0] == c && (xs + ys)[1..] == rest + ys;
      if c == "" || (c == "." && !literal) {
        WalkAppend(fs, root, at, rest, ys, left, assumeDir, literal);
      } else if c == ".." {
        WalkAppend(fs, root, Parent(at), rest, ys, left, assumeDir, literal);
      } else if !IsLink(fs, Place(root, at + [c])) {
        WalkAppend(fs, root, at + [c], rest, ys, left, assumeDir, literal);
      } else if left > 0 {
        var (from, text) := Redirect(fs, root, at, c);
        assert text + (rest + ys) == (text + rest) + ys;
        WalkAppend(fs, root, from, text + rest, ys, left - 1, assumeDir, literal);
      }
    }
  }

  /** A larger count changes nothing but what is left of it. */
  lemma {:induction false} WalkMore(fs: FileSystem, root: string, at: seq<string>, todo: seq<string>,
                                    left: nat, more: nat, assumeDir: bool, literal: bool)
    ensures var w := Walk(fs, root, at, todo, left, assumeDir, literal);
            !w.Exhausted? ==> Walk(fs, root, at, todo, left + more, assumeDir, literal) == WithMore(w, more)
    decreases left, |todo|
  {
    hide IsLink, IsDir, NormPath, Redirect, Join;
    if todo != [] && (assumeDir || IsDir(fs, Place(root, at))) {
      var c, rest := todo[0], todo[1..];
      if c == "" || (c == "." && !literal) {
        WalkMore(fs, root, at, rest, left, more, assumeDir, literal);
      } else if c == ".." {
        WalkMore(fs, root, Parent(at), rest, left, more, assumeDir, literal);
      } else if !IsLink(fs, Place(root, at + [c])) {
        WalkMore(fs, root, at + [c], rest, left, more, assumeDir, literal);
      } else if left > 0 {
        var (from, text) := Redirect(fs, root, at, c);
        WalkMore(fs, root, from, text + rest, left - 1, more, assumeDir, literal);
      }
    }
  }

  predicate IsDot(c: string) {
    c == "."
  }

  ghost predicate NoDots(cs: seq<string>) {
    forall c :: c in cs ==> !IsDot(c)
  }

  /** No link text normalises to a bare `.`. */
  ghost predicate NoDotLinks(fs: FileSystem) {
    forall p :: p in fs.nodes && fs.nodes[p].Link? ==> NormPath(fs.nodes[p].target) != "."
  }

  /** Only a path that is `.` altogether keeps a `.` when normalised. */
  lemma NormPathNoDots(p: string)
    requires NormPath(p) != "."
    ensures NoDots(Split(NormPath(p), SEP))
  {
    var n, cs := NormPathShape(p);
    if cs == [] {
      assert NormPath(p) == Slashes(n) + "";
      SplitSlashes(n, "");
    } else {
      SplitPathText(n, cs);
    }
  }

  lemma DotIsDot()
    ensures IsDot(".")
  {}

  lemma RedirectNoDots(fs: FileSystem, root: string, at: seq<string>, c: string)
    requires NoDotLinks(fs) && IsLink(fs, Place(root, at + [c]))
    ensures NoDots(Redirect(fs, root, at, c).1)
  {
    hide IsDot, Place;
    var p := Place(root, at + [c]);
    NormPathNoDots(LinkText(fs, p));
    var cs := Split(NormPath(LinkText(fs, p)), SEP);
    assert forall x :: x in cs[1..] ==> x in cs;
  }

  /** Without bare `.` links the two readings of `.` cannot be told apart. */
  lemma {:induction false} WalkDotFree(fs: FileSystem, root: string, at: seq<string>, todo: seq<string>,
                                       left: nat, assumeDir: bool)
    requires NoDotLinks(fs) && NoDots(todo)
    ensures Walk(fs, root, at, todo, left, assumeDir, true) == Walk(fs, root, at, todo, left, assumeDir, false)
    ensures NoDots(at) ==> var w := Walk(fs, root, at, todo, left, assumeDir, true);
                           w.Arrived? || w.NotADirectory? ==> NoDots(w.at)
    decreases left, |todo|
  {
    hide IsDir, NormPath, Join, IsDot;
    if todo != [] && (assumeDir || IsDir(fs, Place(root, at))) {
      var c, rest := todo[0], todo[1..];
      assert c in todo && forall x :: x in rest ==> x in todo;
      assert c != "." by { DotIsDot(); }
      if c == "" {
        WalkDotFree(fs, root, at, rest, left, assumeDir);
      } else if c == ".." {
        WalkDotFree(fs, root, Parent(at), rest, left, assumeDir);
      } else if !IsLink(fs, Place(root, at + [c])) {
        WalkDotFree(fs, root, at + [c], rest, left, assumeDir);
      } else if left > 0 {
        var (from, text) := Redirect(fs, root, at, c);
        RedirectNoDots(fs, root, at, c);
        WalkDotFree(fs, root, from, text + rest, left - 1, assumeDir);
      }
    }
  }

  // ---------------------------------------------------------------------
  // Paths and component stacks
  // ---------------------------------------------------------------------

  /** Components of a place below the root: names, none of them `..`. */
  ghost predicate Names(at: seq<string>) {
    forall c :: c in at ==> IsName(c) && c != ".."
  }

  /** `p` is a text for the place `at`; the root may lack its last slash. */
  predicate Denotes(p: string, root: string, at: seq<string>) {
    p == Place(root, at) || (at == [] && p + [SEP] == root && !AllSlashes(root))
  }

  lemma PlaceOfChild(root: string, at: seq<string>, c: string)
    ensures Place(root, at + [c]) == (if at == [] then root else Place(root, at) + [SEP]) + c
  {
    if at == [] {
      assert at + [c] == [c];
    } else {
      JoinAppend(at, [c], SEP);
    }
  }

  lemma PlaceEndsWithName(root: string, at: seq<string>)
    requires at != [] && Names(at)
    ensures !EndsWithSep(Place(root, at)) && |Place(root, at)| > |root|
  {
    assert at[|at| - 1] in at;
    JoinEndsWithName(at);
  }

  lemma JoinPathDenotes(p: string, root: string, at: seq<string>, c: string)
    requires IsRoot(root) && Denotes(p, root, at) && Names(at) && IsName(c)
    ensures JoinPath(p, c) == Place(root, at + [c])
  {
    hide IsName;
    PlaceOfChild(root, at, c);
    assert !IsAbs(c) by { NameIsRelative(c); }
    if at != [] {
      PlaceEndsWithName(root, at);
    } else if p != root {
      assert root[..|root| - 1] == p;
    }
  }

  lemma NameIsRelative(c: string)
    requires IsName(c)
    ensures !IsAbs(c)
  {
    assert c[0] in c;
  }

  lemma {:induction false} HeadLengthOf(x: string, c: string)
    requires (x == "" || EndsWithSep(x)) && SEP !in c
    ensures HeadLength(x + c) == |x|
  {
    if c == "" {
      assert x + c == x;
    } else {
      assert c[|c| - 1] in c;
      assert (x + c)[..|x + c| - 1] == x + c[..|c| - 1];
      HeadLengthOf(x, c[..|c| - 1]);
    }
  }

  lemma StripOneSlash(p: string)
    requires p != "" && !EndsWithSep(p)
    ensures StripTrailing(p + [SEP]) == p && !AllSlashes(p + [SEP])
  {
    assert (p + [SEP])[..|p|] == p;
    assert (p + [SEP])[|p| - 1] != SEP;
  }

  lemma DirNameOfChild(root: string, at: seq<string>, c: string)
    requires IsRoot(root) && Names(at) && IsName(c)
    ensures Denotes(DirName(Place(root, at + [c])), root, at)
  {
    PlaceOfChild(root, at, c);
    var x := if at == [] then root else Place(root, at) + [SEP];
    HeadLengthOf(x, c);
    assert (x + c)[..|x|] == x;
    if at != [] {
      PlaceEndsWithName(root, at);
      StripOneSlash(Place(root, at));
    } else {
      DirNameOfRoot(root);
      HeadLengthOf(root, "");
      assert root + "" == root && root[..|root|] == root;
    }
  }

  lemma DirNameOfRoot(root: string)
    requires IsRoot(root)
    ensures Denotes(DirName(root), root, [])
  {
    HeadLengthOf(root, "");
    assert root + "" == root && root[..|root|] == root;
    if !AllSlashes(root) {
      var b := root[..|root| - 1];
      assert b + [SEP] == root;
      BareRoot(b, root);
      StripOneSlash(b);
    }
  }

  /** What `..` does to a path is what it does to its components. */
  lemma UpDenotes(p: string, root: string, at: seq<string>)
    requires IsRoot(root) && Denotes(p, root, at) && Names(at)
    ensures Denotes(if |p| >= |root| then DirName(p) else p, root, Parent(at))
  {
    hide HeadLength, DirName;
    if at == [] {
      if p == root {
        DirNameOfRoot(root);
      }
    } else {
      var c := at[|at| - 1];
      assert c in at && at == Parent(at) + [c];
      DirNameOfChild(root, Parent(at), c);
      PlaceEndsWithName(root, at);
    }
  }

  lemma PlaceSlashes(root: string, at: seq<string>)
    requires IsRoot(root) && Names(at)
    ensures root != "" && Place(root, at) == root[..|root| - 1] + [SEP] + Join(at, SEP)
    ensures LeadingSlashes(Place(root, at)) == LeadingSlashes(root)
  {
    hide Join, AllSlashes;
    if at == [] {
      assert Join(at, SEP) == "" by { JoinNone(); }
    } else {
      assert at[0] in at;
      JoinStartsWithName(at);
    }
  }

  lemma CleanBlank(abs: bool, kept: seq<string>)
    ensures Clean(abs, kept, [""]) == kept
  {}

  lemma JoinNone()
    ensures Join([], SEP) == ""
  {}

  /** The components a normalised place has: those of the root, then the names. */
  lemma NormPathOfPlace(root: string, at: seq<string>)
    requires IsRoot(root) && Names(at)
    ensures var n := LeadingSlashes(root);
            NormPath(Place(root, at))
            == PathText(n, Clean(n > 0, [], Split(root[..|root| - 1], SEP)) + WithoutDots(at))
  {
    hide Clean, Join, AllSlashes, IsRoot, LeadingSlashes;
    PlaceSlashes(root, at);
    var n, base, p := LeadingSlashes(root), root[..|root| - 1], Place(root, at);
    var names := Split(Join(at, SEP), SEP);
    assert base + [SEP] + Join(at, SEP) == p;
    SplitAppend(base, Join(at, SEP), SEP);
    CleanAppend(n > 0, [], Split(base, SEP), names);
    var kept := Clean(n > 0, [], Split(base, SEP));
    if at == [] {
      JoinNone();
      SplitFree("", SEP);
      CleanBlank(n > 0, kept);
      assert kept + WithoutDots(at) == kept;
    } else {
      SplitOfJoin(at, SEP);
      CleanNames(n > 0, kept, at);
    }
  }

  lemma NormPathDropsLastSlash(p: string)
    requires p != "" && !EndsWithSep(p)
    ensures NormPath(p + [SEP]) == NormPath(p)
  {
    var n := LeadingSlashes(p);
    assert LeadingSlashes(p + [SEP]) == n;
    assert p + [SEP] + "" == p + [SEP];
    SplitAppend(p, "", SEP);
    CleanAppend(n > 0, [], Split(p, SEP), [""]);
  }

  /** Every text for a place is looked up at the same normalised path. */
  lemma SameLookup(p: string, root: string, at: seq<string>)
    requires IsRoot(root) && Denotes(p, root, at)
    ensures NormPath(p) == NormPath(Place(root, at))
  {
    hide NormPath;
    if p != Place(root, at) {
      BareRoot(p, root);
      NormPathDropsLastSlash(p);
      assert p + [SEP] == root + "";
    }
  }

  lemma BareRoot(p: string, root: string)
    requires IsRoot(root) && p + [SEP] == root && !AllSlashes(root)
    ensures p != "" && !EndsWithSep(p)
  {
    assert root[..|root| - 1] == p;
  }

  /** A `.` component does not move the lookup. */
  lemma DotLooksUpSame(root: string, at: seq<string>)
    requires IsRoot(root) && Names(at)
    ensures NormPath(Place(root, at + ["."])) == NormPath(Place(root, at))
  {
    NormPathOfPlace(root, at);
    NormPathOfPlace(root, at + ["."]);
    WithoutDotsAppend(at, ["."]);
    assert WithoutDots(at) + [] == WithoutDots(at);
  }

  lemma {:induction false} WithoutDotsAppend(xs: seq<string>, ys: seq<string>)
    ensures WithoutDots(xs + ys) == WithoutDots(xs) + WithoutDots(ys)
  {
    if xs == [] {
      assert xs + ys == ys;
    } else {
      assert (xs + ys)[1..] == xs[1..] + ys;
      WithoutDotsAppend(xs[1..], ys);
    }
  }

  lemma ReadLinkOfChild(fs: FileSystem, root: string, at: seq<string>, c: string)
    requires IsRoot(root) && Names(at) && IsName(c) && c !in {".", ".."}
    requires IsLink(fs, Place(root, at + [c]))
    ensures ReadLink(fs, Place(root, at + [c])) == Ok(LinkText(fs, Place(root, at + [c])))
  {
    PlaceOfChild(root, at, c);
    var x := if at == [] then root else Place(root, at) + [SEP];
    HeadLengthOf(x, c);
    assert (x + c)[|x|..] == c;
  }
}
