/** Pathname resolution as POSIX.1-2017 section 4.13 has it, kept below a root. */
module PosixWalks {
  import opened FileSystems
  import opened PathWalk
  import opened PosixPath
  import opened Splitting

  /** Components that stay in a directory, after asking whether it is one. */
  predicate Stays(c: string) {
    c == "" || c == "."
  }

  predicate IsStep(c: string) {
    !Stays(c) && c != ".."
  }

  /** Walk down `todo` from `at`. The text of a link takes the place of its name,
      cut at its slashes and otherwise as it is written. */
  function PosixWalk(fs: FileSystem, root: string, at: seq<string>, todo: seq<string>, left: nat,
                     assumeDir: bool): Walked
    decreases left, |todo|
  {
    if todo == [] then Arrived(at, left)
    else if !assumeDir && !IsDir(fs, Place(root, at)) then NotADirectory(at)
    else
      var c, rest := todo[0], todo[1..];
      if Stays(c) then PosixWalk(fs, root, at, rest, left, assumeDir)
      else if c == ".." then PosixWalk(fs, root, Parent(at), rest, left, assumeDir)
      else if !IsLink(fs, Place(root, at + [c])) then PosixWalk(fs, root, at + [c], rest, left, assumeDir)
      else if left == 0 then Exhausted
      else
        var text := LinkText(fs, Place(root, at + [c]));
        PosixWalk(fs, root, Origin(at, text), Split(text, SEP) + rest, left - 1, assumeDir)
  }

  /** Where a link's text is resolved from. */
  function Origin(at: seq<string>, text: string): seq<string> {
    if IsAbs(text) then [] else at
  }

  function WalkFrom(fs: FileSystem, root: string, w: Walked, todo: seq<string>, assumeDir: bool): Walked {
    match w
    case Arrived(mid, rest) => PosixWalk(fs, root, mid, todo, rest, assumeDir)
    case other => other
  }

  /** Walking a concatenation is walking its halves. */
  lemma {:induction false} PosixAppend(fs: FileSystem, root: string, at: seq<string>, xs: seq<string>, ys: seq<string>,
                                       left: nat, assumeDir: bool)
    ensures PosixWalk(fs, root, at, xs + ys, left, assumeDir)
            == WalkFrom(fs, root, PosixWalk(fs, root, at, xs, left, assumeDir), ys, assumeDir)
    decreases left, |xs|
  {
    hide IsLink, IsDir, Join, Split, LinkText;
    if xs == [] {
      assert xs + ys == ys;
    } else if assumeDir || IsDir(fs, Place(root, at)) {
      var c, rest := xs[0], xs[1..];
      assert (xs + ys)[0] == c && (xs + ys)[1..] == rest + ys;
      if Stays(c) {
        PosixAppend(fs, root, at, rest, ys, left, assumeDir);
      } else if c == ".." {
        PosixAppend(fs, root, Parent(at), rest, ys, left, assumeDir);
      } else if !IsLink(fs, Place(root, at + [c])) {
        PosixAppend(fs, root, at + [c], rest, ys, left, assumeDir);
      } else if left > 0 {
        var text := LinkText(fs, Place(root, at + [c]));
        assert Split(text, SEP) + (rest + ys) == (Split(text, SEP) + rest) + ys;
        PosixAppend(fs, root, Origin(at, text), Split(text, SEP) + rest, ys, left - 1, assumeDir);
      }
    }
  }

  // ---------------------------------------------------------------------
  // Places that were walked to
  // ---------------------------------------------------------------------

  /** Everything above `at` is a directory, or nothing is asked. */
  ghost predicate Reached(fs: FileSystem, root: string, at: seq<string>, assumeDir: bool) {
    assumeDir || forall k :: 0 <= k < |at| ==> IsDir(fs, Place(root, at[..k]))
  }

  /** `at` itself can be left, too. */
  ghost predicate Enterable(fs: FileSystem, root: string, at: seq<string>, assumeDir: bool) {
    Reached(fs, root, at, assumeDir) && (assumeDir || IsDir(fs, Place(root, at)))
  }

  lemma ReachedChild(fs: FileSystem, root: string, at: seq<string>, c: string, assumeDir: bool)
    requires Enterable(fs, root, at, assumeDir)
    ensures Reached(fs, root, at + [c], assumeDir)
  {
    hide IsDir, Place;
    if !assumeDir {
      forall k | 0 <= k < |at + [c]|
        ensures IsDir(fs, Place(root, (at + [c])[..k]))
      {
        if k < |at| { assert (at + [c])[..k] == at[..k]; } else { assert (at + [c])[..k] == at; }
      }
    }
  }

  lemma EnterableParent(fs: FileSystem, root: string, at: seq<string>, assumeDir: bool)
    requires Enterable(fs, root, at, assumeDir)
    ensures Enterable(fs, root, Parent(at), assumeDir) && Enterable(fs, root, [], assumeDir)
  {
    hide IsDir, Place;
    if !assumeDir && at != [] {
      var up := at[..|at| - 1];
      assert forall k :: 0 <= k <= |up| ==> up[..k] == at[..k];
      assert up == at[..|up|];
      assert [] == at[..0];
    }
  }

  /** A walk ends in a place that was walked to. */
  lemma {:induction false} ReachedByWalk(fs: FileSystem, root: string, at: seq<string>, todo: seq<string>, left: nat,
                                         assumeDir: bool)
    requires Reached(fs, root, at, assumeDir)
    ensures var w := PosixWalk(fs, root, at, todo, left, assumeDir); w.Arrived? ==> Reached(fs, root, w.at, assumeDir)
    decreases left, |todo|
  {
    hide IsLink, IsDir, Place, Split, LinkText, Reached;
    if todo != [] && (assumeDir || IsDir(fs, Place(root, at))) {
      var c, rest := todo[0], todo[1..];
      if Stays(c) {
        ReachedByWalk(fs, root, at, rest, left, assumeDir);
      } else if c == ".." {
        EnterableParent(fs, root, at, assumeDir);
        ReachedByWalk(fs, root, Parent(at), rest, left, assumeDir);
      } else if !IsLink(fs, Place(root, at + [c])) {
        ReachedChild(fs, root, at, c, assumeDir);
        ReachedByWalk(fs, root, at + [c], rest, left, assumeDir);
      } else if left > 0 {
        var text := LinkText(fs, Place(root, at + [c]));
        EnterableParent(fs, root, at, assumeDir);
        ReachedByWalk(fs, root, Origin(at, text), Split(text, SEP) + rest, left - 1, assumeDir);
      }
    }
  }

  // ---------------------------------------------------------------------
  // Texts that are safe to normalise
  // ---------------------------------------------------------------------

  /** The components that move. */
  function Moves(cs: seq<string>): seq<string> {
    if cs == [] then [] else (if Stays(cs[0]) then [] else [cs[0]]) + Moves(cs[1..])
  }

  /** No name is followed, at whatever distance, by `..`. */
  predicate NoUpAfterName(cs: seq<string>) {
    cs == [] || (if IsStep(cs[0]) then ".." !in cs[1..] else NoUpAfterName(cs[1..]))
  }

  predicate HasName(cs: seq<string>) {
    exists i :: 0 <= i < |cs| && IsStep(cs[i])
  }

  /** A name is the last component, or there is no name. */
  predicate EndsInName(cs: seq<string>) {
    HasName(cs) ==> !Stays(cs[|cs| - 1])
  }

  /** A text that means the same before and after normalisation: no `..` after a name,
      not just dots and slashes, and no slash or `.` behind a last name, unless every
      component is taken to be a directory anyway. */
  predicate Safe(text: string, assumeDir: bool) {
    var cs := Split(text, SEP);
    NoUpAfterName(cs) && (IsAbs(text) || Moves(cs) != []) && (assumeDir || EndsInName(cs))
  }

  /** Components that stay can be left out, but for a last one that asks something new. */
  lemma {:induction false} OnlyMoves(fs: FileSystem, root: string, at: seq<string>, cs: seq<string>, left: nat,
                                     assumeDir: bool)
    requires Reached(fs, root, at, assumeDir)
    requires assumeDir || cs == [] || !Stays(cs[|cs| - 1]) || (!HasName(cs) && Enterable(fs, root, at, assumeDir))
    ensures PosixWalk(fs, root, at, cs, left, assumeDir) == PosixWalk(fs, root, at, Moves(cs), left, assumeDir)
    decreases |cs|
  {
    hide IsLink, IsDir, Place, Split, LinkText, Reached, HasName;
    if cs == [] {
    } else {
      var c, rest := cs[0], cs[1..];
      NamesOfTail(cs);
      assert rest != [] ==> rest[|rest| - 1] == cs[|cs| - 1];
      if Stays(c) {
        assert [] + Moves(rest) == Moves(rest);
        if assumeDir || IsDir(fs, Place(root, at)) {
          OnlyMoves(fs, root, at, rest, left, assumeDir);
        } else {
          MovesKeepLast(cs);
        }
      } else {
        assert cs == [c] + rest && Moves(cs) == [c] + Moves(rest);
        PosixAppend(fs, root, at, [c], rest, left, assumeDir);
        PosixAppend(fs, root, at, [c], Moves(rest), left, assumeDir);
        ReachedByWalk(fs, root, at, [c], left, assumeDir);
        var w := PosixWalk(fs, root, at, [c], left, assumeDir);
        if w.Arrived? {
          if c == ".." {
            UpAlone(fs, root, at, left, assumeDir);
            if Enterable(fs, root, at, assumeDir) { EnterableParent(fs, root, at, assumeDir); }
          }
          OnlyMoves(fs, root, w.at, rest, w.left, assumeDir);
        }
      }
    }
  }

  lemma UpAlone(fs: FileSystem, root: string, at: seq<string>, left: nat, assumeDir: bool)
    ensures PosixWalk(fs, root, at, [".."], left, assumeDir)
            == if assumeDir || IsDir(fs, Place(root, at)) then Arrived(Parent(at), left) else NotADirectory(at)
  {
    hide IsDir, IsLink, Place;
    assert [".."][1..] == [];
    assert PosixWalk(fs, root, Parent(at), [], left, assumeDir) == Arrived(Parent(at), left);
  }

  lemma NamesOfTail(cs: seq<string>)
    requires cs != []
    ensures HasName(cs) <==> IsStep(cs[0]) || HasName(cs[1..])
  {
    hide IsStep;
    if i :| 0 <= i < |cs[1..]| && IsStep(cs[1..][i]) { assert cs[i + 1] == cs[1..][i]; }
    if i :| 0 <= i < |cs| && IsStep(cs[i]) {
      if i > 0 { assert cs[1..][i - 1] == cs[i]; }
    }
  }

  lemma {:induction false} MovesKeepLast(cs: seq<string>)
    requires cs != [] && !Stays(cs[|cs| - 1])
    ensures Moves(cs) != [] && Moves(cs)[|Moves(cs)| - 1] == cs[|cs| - 1]
  {
    if |cs| > 1 {
      assert cs[1..][|cs| - 2] == cs[|cs| - 1];
      MovesKeepLast(cs[1..]);
    } else {
      assert cs[1..] == [] && Moves(cs) == cs;
    }
  }

  // ---------------------------------------------------------------------
  // What normalisation does to a safe text
  // ---------------------------------------------------------------------

  function DropUps(cs: seq<string>): seq<string> {
    if cs != [] && cs[0] == ".." then DropUps(cs[1..]) else cs
  }

  lemma OneMore(kept: seq<string>, c: string, more: seq<string>)
    ensures (kept + [c]) + more == kept + ([c] + more)
  {}

  lemma UpIsKept(kept: seq<string>)
    requires forall c :: c in kept ==> c == ".."
    ensures CleanStep(false, kept, "..") == kept + [".."]
  {
    assert kept != [] ==> kept[|kept| - 1] in kept;
  }

  /** Nothing is taken back where no name is followed by `..`. */
  lemma {:induction false} CleanOfSafe(abs: bool, kept: seq<string>, cs: seq<string>)
    requires NoUpAfterName(cs) && (abs ==> kept == [])
    requires forall c :: c in kept ==> c == ".."
    ensures Clean(abs, kept, cs) == kept + (if abs then DropUps(Moves(cs)) else Moves(cs))
    decreases |cs|
  {
    if cs == [] {
      assert kept + [] == kept;
    } else {
      var c, rest := cs[0], cs[1..];
      if Stays(c) {
        assert [] + Moves(rest) == Moves(rest);
        CleanOfSafe(abs, kept, rest);
      } else if c == ".." {
        assert ([c] + Moves(rest))[1..] == Moves(rest);
        if abs {
          CleanOfSafe(abs, kept, rest);
        } else {
          UpIsKept(kept);
          CleanOfSafe(abs, kept + [c], rest);
          OneMore(kept, c, Moves(rest));
        }
      } else {
        CleanNoUps(abs, kept + [c], rest);
        OneMore(kept, c, Moves(rest));
      }
    }
  }

  lemma {:induction false} CleanNoUps(abs: bool, kept: seq<string>, cs: seq<string>)
    requires ".." !in cs
    ensures Clean(abs, kept, cs) == kept + Moves(cs)
    decreases |cs|
  {
    if cs == [] {
      assert kept + [] == kept;
    } else {
      var c, rest := cs[0], cs[1..];
      if Stays(c) {
        assert [] + Moves(rest) == Moves(rest);
        CleanNoUps(abs, kept, rest);
      } else {
        CleanNoUps(abs, kept + [c], rest);
        OneMore(kept, c, Moves(rest));
      }
    }
  }

  /** The components by which the normalised text of a link redirects. */
  function Redirection(text: string): seq<string> {
    var target := NormPath(text);
    if IsAbs(target) then Split(target, SEP)[1..] else Split(target, SEP)
  }

  lemma RedirectIs(fs: FileSystem, root: string, at: seq<string>, c: string)
    requires IsLink(fs, Place(root, at + [c]))
    ensures var text := LinkText(fs, Place(root, at + [c]));
            Redirect(fs, root, at, c) == (Origin(at, text), Redirection(text))
  {
    hide NormPath, Place, Split, IsLink;
    AbsStays(LinkText(fs, Place(root, at + [c])));
  }

  lemma AbsStays(text: string)
    ensures IsAbs(NormPath(text)) <==> IsAbs(text)
  {
    hide Clean, Split;
    var n, cs := NormPathShape(text);
    if n == 0 && cs != [] { JoinStartsWithName(cs); }
  }

  /** The components of a normalised text: the cleaned ones behind some empty ones, or
      one that stays. */
  lemma RedirectionMoves(text: string)
    ensures var abs := IsAbs(text);
            Moves(Redirection(text)) == Clean(abs, [], Split(text, SEP))
    ensures var cs := Redirection(text);
            !HasName(cs) || !Stays(cs[|cs| - 1])
  {
    hide Clean, NormPath, HasName;
    var n, cs := NormPathShape(text);
    AbsStays(text);
    var target := NormPath(text);
    if text == "" {
      assert Split(text, SEP) == [""];
      assert Clean(false, [], [""]) == [] by { EmptyCleans(); }
    }
    assert (n > 0) == IsAbs(text) by { ShapeAbs(n, cs, text); }
    assert cs == Clean(n > 0, [], Split(text, SEP)) by { if text == "" { EmptyCleans(); ShapeOfEmpty(n, cs); } }
    if cs == [] {
      ShapeOfNone(n, target);
    } else {
      SplitPathText(n, cs);
      RedirectionOfSome(n, cs);
    }
  }

  lemma EmptyCleans()
    ensures Clean(false, [], [""]) == []
  {}

  lemma ShapeAbs(n: nat, cs: seq<string>, text: string)
    requires Canonical(n > 0, cs) && NormPath(text) == PathText(n, cs)
    ensures IsAbs(text) <==> n > 0
  {
    hide NormPath;
    AbsStays(text);
    if cs != [] { JoinStartsWithName(cs); }
  }

  lemma ShapeOfEmpty(n: nat, cs: seq<string>)
    requires n <= 2 && Canonical(n > 0, cs) && NormPath("") == PathText(n, cs)
    ensures n == 0 && cs == []
  {
    hide Clean, Split;
    ShapeAbs(n, cs, "");
    if cs != [] {
      SplitPathText(n, cs);
      SplitFree(".", SEP);
    }
  }

  lemma ShapeOfNone(n: nat, target: string)
    requires target == PathText(n, [])
    ensures var cs := if IsAbs(target) then Split(target, SEP)[1..] else Split(target, SEP);
            Moves(cs) == [] && !HasName(cs)
  {
    if n == 0 {
      assert target == ".";
      SplitFree(".", SEP);
    } else {
      assert target == Slashes(n) + "";
      SplitSlashes(n, "");
      assert Split("", SEP) == [""];
      var cs := Split(target, SEP)[1..];
      assert forall c :: c in cs ==> c == "";
      NothingMoves(cs);
    }
  }

  lemma {:induction false} NothingMoves(cs: seq<string>)
    requires forall c :: c in cs ==> Stays(c)
    ensures Moves(cs) == []
  {
    if cs == [] {
    } else {
      NothingMoves(cs[1..]);
    }
  }

  lemma RedirectionOfSome(n: nat, cs: seq<string>)
    requires cs != [] && Canonical(n > 0, cs)
    ensures var all := seq(n, _ => "") + cs;
            var todo := if n > 0 then all[1..] else all;
            Moves(todo) == cs && !Stays(todo[|todo| - 1])
  {
    var m: nat := if n > 0 then n - 1 else 0;
    var all := seq(n, _ => "") + cs;
    var todo := if n > 0 then all[1..] else all;
    var blanks: seq<string> := seq(m, _ => "");
    assert todo == blanks + cs;
    MovesAppend(blanks, cs);
    NothingMoves(blanks);
    AllMove(cs);
    assert [] + cs == cs;
  }

  lemma {:induction false} MovesAppend(xs: seq<string>, ys: seq<string>)
    ensures Moves(xs + ys) == Moves(xs) + Moves(ys)
  {
    if xs == [] {
      assert xs + ys == ys;
    } else {
      assert (xs + ys)[1..] == xs[1..] + ys;
      MovesAppend(xs[1..], ys);
    }
  }

  lemma {:induction false} AllMove(cs: seq<string>)
    requires forall i :: 0 <= i < |cs| ==> !Stays(cs[i])
    ensures Moves(cs) == cs
  {
    if cs == [] {
    } else {
      AllMove(cs[1..]);
    }
  }

  // ---------------------------------------------------------------------
  // The walkers agree on safe texts
  // ---------------------------------------------------------------------

  /** Going up from the root stays there. */
  lemma {:induction false} UpsAtRoot(fs: FileSystem, root: string, cs: seq<string>, left: nat, assumeDir: bool)
    requires Enterable(fs, root, [], assumeDir)
    ensures PosixWalk(fs, root, [], cs, left, assumeDir) == PosixWalk(fs, root, [], DropUps(cs), left, assumeDir)
    decreases |cs|
  {
    hide IsLink, IsDir, Place, Split, LinkText;
    if cs != [] && cs[0] == ".." { UpsAtRoot(fs, root, cs[1..], left, assumeDir); }
  }

  /** A safe text may be normalised before it is followed. */
  lemma SafeText(fs: FileSystem, root: string, at: seq<string>, text: string, left: nat, assumeDir: bool)
    requires Enterable(fs, root, at, assumeDir)
    requires NoUpAfterName(Split(text, SEP)) && (assumeDir || EndsInName(Split(text, SEP)))
    ensures PosixWalk(fs, root, Origin(at, text), Split(text, SEP), left, assumeDir)
            == PosixWalk(fs, root, Origin(at, text), Redirection(text), left, assumeDir)
  {
    hide IsLink, IsDir, Place, LinkText, HasName, Stays, PosixWalk, Clean, Redirection, NoUpAfterName;
    EnterableParent(fs, root, at, assumeDir);
    var from, cs := Origin(at, text), Split(text, SEP);
    OnlyMoves(fs, root, from, cs, left, assumeDir);
    RedirectionMoves(text);
    OnlyMoves(fs, root, from, Redirection(text), left, assumeDir);
    CleanOfSafe(IsAbs(text), [], cs);
    if IsAbs(text) {
      UpsAtRoot(fs, root, Moves(cs), left, assumeDir);
      assert [] + DropUps(Moves(cs)) == DropUps(Moves(cs));
    } else {
      assert [] + Moves(cs) == Moves(cs);
    }
  }

  /** Every link text can be normalised as far as where it ends is concerned. */
  ghost predicate TextsNormalise(fs: FileSystem, assumeDir: bool) {
    forall p :: p in fs.nodes && fs.nodes[p].Link? ==>
      NoUpAfterName(Split(fs.nodes[p].target, SEP)) && (assumeDir || EndsInName(Split(fs.nodes[p].target, SEP)))
  }

  /** Where all texts normalise, the walker over normalised texts is POSIX's. */
  lemma {:induction false} WalkIsPosix(fs: FileSystem, root: string, at: seq<string>, todo: seq<string>, left: nat,
                                       assumeDir: bool)
    requires TextsNormalise(fs, assumeDir) && Reached(fs, root, at, assumeDir)
    ensures Walk(fs, root, at, todo, left, assumeDir, false) == PosixWalk(fs, root, at, todo, left, assumeDir)
    decreases left, |todo|
  {
    hide IsDir, Place, Reached, NormPath, Split, NoUpAfterName, EndsInName, Redirect, Redirection;
    if todo != [] && (assumeDir || IsDir(fs, Place(root, at))) {
      var c, rest := todo[0], todo[1..];
      if Stays(c) {
        WalkIsPosix(fs, root, at, rest, left, assumeDir);
      } else if c == ".." {
        EnterableParent(fs, root, at, assumeDir);
        WalkIsPosix(fs, root, Parent(at), rest, left, assumeDir);
      } else if !IsLink(fs, Place(root, at + [c])) {
        ReachedChild(fs, root, at, c, assumeDir);
        WalkIsPosix(fs, root, at + [c], rest, left, assumeDir);
      } else if left > 0 {
        var text := LinkText(fs, Place(root, at + [c]));
        var from := Origin(at, text);
        EnterableParent(fs, root, at, assumeDir);
        RedirectIs(fs, root, at, c);
        WalkIsPosix(fs, root, from, Redirection(text) + rest, left - 1, assumeDir);
        SafeText(fs, root, at, text, left - 1, assumeDir);
        PosixAppend(fs, root, from, Split(text, SEP), rest, left - 1, assumeDir);
        PosixAppend(fs, root, from, Redirection(text), rest, left - 1, assumeDir);
      }
    }
  }
}
