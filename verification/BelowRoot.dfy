/** Which files realpath takes to be below a root. */
module BelowRoot {
  import opened CachedPaths
  import opened FileSystems
  import opened PosixPath
  import opened RealPathTheorems
  import opened Splitting

  /** The components of a path, cleaned. */
  function Components(p: string): seq<string> {
    if p == "" then [] else Clean(LeadingSlashes(p) > 0, [], Split(p, SEP))
  }

  /** `file` is the directory `root` or a path below it, component by component. */
  predicate Below(file: string, root: string) {
    var n, m := LeadingSlashes(root), LeadingSlashes(file);
    if Components(root) != [] then n == m && Components(root) <= Components(file)
    else if n == 0 then m == 0 && Components(file) == []
    else if n == 1 then m > 0
    else m == 2 || (m == 1 && Components(file) == [])
  }

  lemma TextOf(p: string)
    ensures var n, cs := LeadingSlashes(p), Components(p);
            n <= 2 && Canonical(n > 0, cs) && NormPath(p) == PathText(n, cs)
  {
    hide Clean;
    var n, cs := NormPathShape(p);
    if p == "" {
      ShapeAbsent(n, cs);
    }
  }

  lemma ShapeAbsent(n: nat, cs: seq<string>)
    requires n <= 2 && Canonical(n > 0, cs) && NormPath("") == PathText(n, cs)
    ensures n == 0 && cs == []
  {
    hide Clean;
    if n > 0 { StartsWithSlash(n, cs); }
    if cs != [] {
      SplitPathText(n, cs);
      SplitFree(".", SEP);
    }
  }

  lemma StartsWithSlash(n: nat, cs: seq<string>)
    requires n > 0
    ensures PathText(n, cs) != "" && PathText(n, cs)[0] == SEP
  {
    assert Slashes(n)[0] == SEP;
  }

  lemma ManySlashes(n: nat)
    ensures PathText(n, []) == if n == 0 then "." else Slashes(n)
  {
    assert Slashes(n) + Join([], SEP) == Slashes(n);
  }

  /** The pieces of a text that extends a root decide. */
  lemma PiecesOfBelow(n: nat, rs: seq<string>, m: nat, fs: seq<string>, rest: string)
    requires rs != [] && Canonical(n > 0, rs) && n <= 2 && fs != [] && Canonical(m > 0, fs) && m <= 2
    requires PathText(m, fs) + [SEP] == PathText(n, rs) + [SEP] + rest
    ensures n == m && rs <= fs
  {
    hide PathText, Split;
    SplitPathText(n, rs);
    SplitPathText(m, fs);
    SplitAppend(PathText(n, rs), rest, SEP);
    SplitAppend(PathText(m, fs), "", SEP);
    assert PathText(m, fs) + [SEP] + "" == PathText(m, fs) + [SEP];
    SplitFree("", SEP);
    PrefixOfPieces(n, rs, m, fs, Split(rest, SEP));
  }

  lemma PrefixOfPieces(n: nat, rs: seq<string>, m: nat, fs: seq<string>, more: seq<string>)
    requires rs != [] && fs != [] && Canonical(n > 0, rs) && Canonical(m > 0, fs)
    requires seq(m, _ => "") + fs + [""] == seq(n, _ => "") + rs + more
    ensures n == m && rs <= fs
  {
    var all, other := seq(m, _ => "") + fs + [""], seq(n, _ => "") + rs + more;
    assert all[m] == fs[0] && other[n] == rs[0];
    assert forall i :: 0 <= i < m ==> all[i] == "";
    assert forall i :: 0 <= i < n ==> other[i] == "";
    assert n == m;
    forall i | 0 <= i < |rs|
      ensures i < |fs| && rs[i] == fs[i]
    {
      assert all[m + i] == other[n + i] == rs[i];
    }
    assert rs[|rs| - 1] == fs[|rs| - 1];
    assert |rs| <= |fs| && rs == fs[..|rs|];
  }

  lemma NameIsNoSlash(n: nat, rs: seq<string>, k: nat)
    requires rs != [] && Canonical(n > 0, rs)
    ensures !(PathText(n, rs) + [SEP] <= PathText(k, []) + [SEP])
  {
    var p := PathText(n, rs) + [SEP];
    PathTextOfSome(n, rs);
    JoinStartsWithName(rs);
    ManySlashes(k);
    assert p[n] == Join(rs, SEP)[0] != SEP;
    if k == 0 && p <= "." + [SEP] {
      NoDotText(rs);
      assert |p| == n + |Join(rs, SEP)| + 1 && p[|p| - 1] == SEP;
      DotLength(p);
      assert false;
    }
  }

  lemma NoDotText(rs: seq<string>)
    requires rs != [] && Canonical(false, rs)
    ensures Join(rs, SEP) != "."
  {
    SplitOfJoin(rs, SEP);
    SplitFree(".", SEP);
  }

  lemma DotLength(p: string)
    requires |p| >= 2 && p <= "." + [SEP]
    ensures p == "./" && p[..|p| - 1] == "."
  {}

  /** Main result: the test on texts is the test on components. */
  lemma BelowIsComponents(file: string, root: string)
    ensures IsPathBelow(NormPath(file), RootOf(root)) <==> Below(file, root)
  {
    hide NormPath, Components, PathText, LeadingSlashes, Canonical;
    TextOf(file);
    TextOf(root);
    var n, rs, m, fs := LeadingSlashes(root), Components(root), LeadingSlashes(file), Components(file);
    if rs != [] {
      NamedRoot(n, rs);
      BelowNamedRoot(n, rs, m, fs);
    } else {
      ManySlashes(n);
      BelowBareRoot(n, m, fs, NormPath(file), RootOf(root));
    }
  }

  lemma NamedRoot(n: nat, rs: seq<string>)
    requires rs != [] && Canonical(n > 0, rs)
    ensures !EndsWithSep(PathText(n, rs))
  {
    PathTextOfSome(n, rs);
    JoinEndsWithName(rs);
  }

  lemma BelowNamedRoot(n: nat, rs: seq<string>, m: nat, fs: seq<string>)
    requires n <= 2 && rs != [] && Canonical(n > 0, rs) && m <= 2 && Canonical(m > 0, fs)
    ensures PathText(n, rs) + [SEP] <= PathText(m, fs) + [SEP] <==> n == m && rs <= fs
  {
    hide PathText, Canonical;
    var f, base := PathText(m, fs), PathText(n, rs);
    if fs == [] {
      NameIsNoSlash(n, rs, m);
    } else if base + [SEP] <= f + [SEP] {
      assert f + [SEP] == base + [SEP] + (f + [SEP])[|base| + 1..];
      PiecesOfBelow(n, rs, m, fs, (f + [SEP])[|base| + 1..]);
    } else if n == m && rs <= fs {
      LongerIsBelow(n, rs, fs);
    }
  }

  lemma LongerIsBelow(n: nat, rs: seq<string>, fs: seq<string>)
    requires rs != [] && Canonical(n > 0, rs) && rs <= fs
    ensures PathText(n, rs) + [SEP] <= PathText(n, fs) + [SEP]
  {
    hide PathText;
    var more := fs[|rs|..];
    assert fs == rs + more;
    if more == [] {
      assert fs == rs;
    } else {
      TextOfBoth(n, rs, more);
    }
  }

  lemma BelowBareRoot(n: nat, m: nat, fs: seq<string>, f: string, r: string)
    requires n <= 2 && m <= 2 && Canonical(m > 0, fs) && f == PathText(m, fs)
    requires r == if n == 0 then "./" else Slashes(n)
    ensures r <= f + [SEP]
            <==> if n == 0 then m == 0 && fs == [] else if n == 1 then m > 0 else m == 2 || (m == 1 && fs == [])
  {
    hide Slashes, Canonical;
    ManySlashes(m);
    if fs == [] {
      assert m == 0 ==> f + [SEP] == "./";
      SlashesBelow(n, m, [SEP]);
    } else {
      CanonicalNames(m > 0, fs);
      PathTextOfSome(m, fs);
      JoinStartsWithName(fs);
      SlashesBelow(n, m, Join(fs, SEP) + [SEP]);
      assert f + [SEP] == Slashes(m) + (Join(fs, SEP) + [SEP]);
      if m == 0 { NoDotSlash(fs); }
    }
  }

  lemma CanonicalNames(abs: bool, fs: seq<string>)
    requires Canonical(abs, fs) && fs != []
    ensures IsName(fs[0])
    ensures Canonical(false, fs)
  {}

  lemma SlashesBelow(n: nat, m: nat, rest: string)
    requires n <= 2 && m <= 2 && rest != ""
    ensures rest[0] != SEP ==> (Slashes(n) <= Slashes(m) + rest <==> n <= m)
    ensures rest == [SEP] ==> (Slashes(n) <= Slashes(m) + rest <==> n <= m + 1)
    ensures m > 0 ==> !("./" <= Slashes(m) + rest)
    ensures n > 0 ==> !(Slashes(n) <= "./")
  {
    var t := Slashes(m) + rest;
    assert forall i :: 0 <= i < m ==> t[i] == SEP;
    assert t[m] == rest[0];
    assert "./"[0] == '.' && (n > 0 ==> Slashes(n)[0] == SEP) && (m > 0 ==> t[0] == SEP);
  }

  /** Names without a lone dot do not begin with one. */
  lemma NoDotSlash(fs: seq<string>)
    requires fs != [] && Canonical(false, fs)
    ensures !("./" <= Join(fs, SEP) + [SEP])
  {
    var t := Join(fs, SEP) + [SEP];
    if "./" <= t {
      assert t == "." + [SEP] + t[2..] && t == Join(fs, SEP) + [SEP] + "";
      SplitAppend(".", t[2..], SEP);
      SplitFree(".", SEP);
      SplitAppend(Join(fs, SEP), "", SEP);
      SplitOfJoin(fs, SEP);
      assert false;
    }
  }

  /** EINVAL is raised for exactly the files that are not below the root, whatever else
      is asked for. */
  lemma RejectsOthers(fs: FileSystem, file: string, root: string, usePhysDir: bool, loopCnt: nat, assumeDir: bool)
    ensures RealPath(fs, file, root, usePhysDir, loopCnt, assumeDir) == Err(NotBelowRoot(NormPath(file)))
            <==> !Below(file, root)
    ensures var r := RealPath(fs, file, root, usePhysDir, loopCnt, assumeDir);
            r.Err? && r.error.NotBelowRoot? ==> !Below(file, root)
  {
    hide NormPath, RelFrom, Phys, RootOf, Below, Split, IsPathBelow;
    BelowIsComponents(file, root);
  }
}
