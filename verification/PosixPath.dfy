/** The pieces of Python's `os.path` on POSIX that the path cache rests on:
    `normpath`, `join`, `dirname` and `isabs`, on strings. */
module PosixPath {
  import opened Splitting

  const SEP := '/'

  function Slashes(n: nat): (s: string)
    ensures |s| == n && forall i :: 0 <= i < n ==> s[i] == SEP
  {
    seq(n, _ => SEP)
  }

  predicate AllSlashes(s: string) {
    forall i :: 0 <= i < |s| ==> s[i] == SEP
  }

  predicate IsAbs(p: string) {
    p != "" && p[0] == SEP
  }

  predicate EndsWithSep(p: string) {
    p != "" && p[|p| - 1] == SEP
  }

  /** POSIX lets exactly two leading slashes stay; three or more count as one. */
  function LeadingSlashes(p: string): (n: nat)
    ensures n <= 2
  {
    if !IsAbs(p) then 0
    else if |p| >= 2 && p[1] == SEP && (|p| == 2 || p[2] != SEP) then 2
    else 1
  }

  /** One round of normalisation: what component `c` does to the kept ones. */
  function CleanStep(abs: bool, kept: seq<string>, c: string): seq<string> {
    if c == "" || c == "." then kept
    else if c != ".." || (!abs && kept == []) || (kept != [] && kept[|kept| - 1] == "..") then kept + [c]
    else if kept != [] then kept[..|kept| - 1]
    else kept
  }

  function Clean(abs: bool, kept: seq<string>, cs: seq<string>): seq<string>
    decreases |cs|
  {
    if cs == [] then kept else Clean(abs, CleanStep(abs, kept, cs[0]), cs[1..])
  }

  function NormPath(p: string): string {
    if p == "" then "."
    else
      var n := LeadingSlashes(p);
      var body := Slashes(n) + Join(Clean(n > 0, [], Split(p, SEP)), SEP);
      if body == "" then "." else body
  }

  function JoinPath(a: string, b: string): string {
    if IsAbs(b) then b
    else if a == "" || EndsWithSep(a) then a + b
    else a + [SEP] + b
  }

  /** The length of the part of `p` up to and including its last slash. */
  function HeadLength(p: string): (n: nat)
    ensures n <= |p|
    ensures n > 0 ==> p[n - 1] == SEP
    ensures forall i :: n <= i < |p| ==> p[i] != SEP
  {
    if p == "" then 0
    else if EndsWithSep(p) then |p|
    else HeadLength(p[..|p| - 1])
  }

  function StripTrailing(p: string): (s: string)
    ensures s <= p
    ensures s == "" || !EndsWithSep(s)
    ensures forall i :: |s| <= i < |p| ==> p[i] == SEP
  {
    if EndsWithSep(p) then StripTrailing(p[..|p| - 1]) else p
  }

  function DirName(p: string): string {
    var head := p[..HeadLength(p)];
    if AllSlashes(head) then head else StripTrailing(head)
  }

  /** The part of `p` after its last slash. */
  function BaseName(p: string): string {
    p[HeadLength(p)..]
  }

  // ---------------------------------------------------------------------
  // Normalisation
  // ---------------------------------------------------------------------

  predicate IsName(c: string) {
    c != "" && SEP !in c
  }

  /** What a normalised path's components look like: real names, no `.`, and
      `..` only at the front of a relative path. */
  ghost predicate Canonical(abs: bool, cs: seq<string>) {
    && (forall i :: 0 <= i < |cs| ==> IsName(cs[i]) && cs[i] != ".")
    && (abs ==> forall i :: 0 <= i < |cs| ==> cs[i] != "..")
    && (forall i, j :: 0 <= i < j < |cs| && cs[j] == ".." ==> cs[i] == "..")
  }

  lemma {:induction false} CleanAppend(abs: bool, kept: seq<string>, xs: seq<string>, ys: seq<string>)
    ensures Clean(abs, kept, xs + ys) == Clean(abs, Clean(abs, kept, xs), ys)
    decreases |xs|
  {
    if xs == [] {
      assert xs + ys == ys;
    } else {
      assert (xs + ys)[1..] == xs[1..] + ys;
      CleanAppend(abs, CleanStep(abs, kept, xs[0]), xs[1..], ys);
    }
  }

  lemma {:induction false} CleanIsCanonical(abs: bool, kept: seq<string>, cs: seq<string>)
    requires Canonical(abs, kept) && SeparatorFree(cs, SEP)
    ensures Canonical(abs, Clean(abs, kept, cs))
    decreases |cs|
  {
    if cs == [] {
    } else {
      assert cs[0] in cs;
      CleanIsCanonical(abs, CleanStep(abs, kept, cs[0]), cs[1..]);
    }
  }

  lemma {:induction false} CleanKeepsCanonical(abs: bool, kept: seq<string>, cs: seq<string>)
    requires Canonical(abs, kept + cs)
    ensures Clean(abs, kept, cs) == kept + cs
    decreases |cs|
  {
    if cs == [] {
      assert kept + cs == kept;
    } else {
      assert (kept + cs)[|kept|] == cs[0];
      if kept != [] && cs[0] == ".." {
        assert (kept + cs)[|kept| - 1] == kept[|kept| - 1];
      }
      assert CleanStep(abs, kept, cs[0]) == kept + [cs[0]];
      assert kept + cs == (kept + [cs[0]]) + cs[1..];
      CleanKeepsCanonical(abs, kept + [cs[0]], cs[1..]);
    }
  }

  /** Names other than `.` and `..` are kept one by one. */
  function WithoutDots(cs: seq<string>): seq<string> {
    if cs == [] then []
    else if cs[0] == "." then WithoutDots(cs[1..])
    else [cs[0]] + WithoutDots(cs[1..])
  }

  lemma {:induction false} CleanNames(abs: bool, kept: seq<string>, cs: seq<string>)
    requires forall c :: c in cs ==> c != "" && c != ".."
    ensures Clean(abs, kept, cs) == kept + WithoutDots(cs)
    decreases |cs|
  {
    if cs == [] {
    } else {
      var c, rest := cs[0], cs[1..];
      assert c in cs && forall x :: x in rest ==> x in cs;
      if c == "." {
        assert WithoutDots(cs) == WithoutDots(rest);
        CleanNames(abs, kept, rest);
      } else {
        assert kept + [c] + WithoutDots(rest) == kept + WithoutDots(cs);
        CleanNames(abs, kept + [c], rest);
      }
    }
  }

  /** The text of a path with `n` leading slashes and components `cs`. */
  function PathText(n: nat, cs: seq<string>): string {
    var body := Slashes(n) + Join(cs, SEP);
    if body == "" then "." else body
  }

  lemma {:induction false} JoinStartsWithName(cs: seq<string>)
    requires cs != [] && IsName(cs[0])
    ensures Join(cs, SEP) != "" && Join(cs, SEP)[0] != SEP
  {
    assert cs[0][0] in cs[0];
    if |cs| > 1 {
      assert Join(cs, SEP)[0] == cs[0][0];
    }
  }

  lemma {:induction false} JoinEndsWithName(cs: seq<string>)
    requires cs != [] && IsName(cs[|cs| - 1])
    ensures Join(cs, SEP) != "" && !EndsWithSep(Join(cs, SEP))
  {
    if |cs| == 1 {
      assert cs[0][|cs[0]| - 1] in cs[0];
    } else {
      JoinEndsWithName(cs[1..]);
    }
  }

  lemma {:induction false} SplitSlashes(n: nat, s: string)
    ensures Split(Slashes(n) + s, SEP) == seq(n, _ => "") + Split(s, SEP)
  {
    var t := Slashes(n) + s;
    if n == 0 {
      assert t == s;
      assert seq(0, _ => "") + Split(s, SEP) == Split(s, SEP);
    } else {
      assert t[0] == SEP && t[1..] == Slashes(n - 1) + s;
      SplitSlashes(n - 1, s);
      assert [""] + (seq(n - 1, _ => "") + Split(s, SEP)) == seq(n, _ => "") + Split(s, SEP);
    }
  }

  /** The components of a path text are what it was built from, up to empty ones. */
  lemma {:induction false} SplitPathText(n: nat, cs: seq<string>)
    requires n <= 2 && cs != [] && forall c :: c in cs ==> IsName(c)
    ensures LeadingSlashes(PathText(n, cs)) == n
    ensures Split(PathText(n, cs), SEP) == seq(n, _ => "") + cs
  {
    assert IsName(cs[0]);
    JoinStartsWithName(cs);
    SplitOfJoin(cs, SEP);
    SplitSlashes(n, Join(cs, SEP));
  }

  lemma {:induction false} CleanDropsEmpty(abs: bool, n: nat, cs: seq<string>)
    ensures Clean(abs, [], seq(n, _ => "") + cs) == Clean(abs, [], cs)
  {
    var s: seq<string> := seq(n, _ => "");
    if n == 0 {
      assert s + cs == cs;
    } else {
      assert (s + cs)[1..] == seq(n - 1, _ => "") + cs;
      CleanDropsEmpty(abs, n - 1, cs);
    }
  }

  lemma NormPathOfText(n: nat, cs: seq<string>)
    requires n <= 2 && Canonical(n > 0, cs)
    ensures NormPath(PathText(n, cs)) == PathText(n, cs)
  {
    if cs == [] {
      var t := PathText(n, cs);
      if n == 0 {
        assert t == ".";
        SplitFree(".", SEP);
        assert Clean(false, [], ["."]) == [];
      } else {
        assert t == Slashes(n) + "";
        SplitSlashes(n, "");
        assert LeadingSlashes(t) == n;
        CleanDropsEmpty(true, n, [""]);
        assert Clean(true, [], [""]) == [];
      }
    } else {
      SplitPathText(n, cs);
      CleanDropsEmpty(n > 0, n, cs);
      CleanKeepsCanonical(n > 0, [], cs);
      assert [] + cs == cs;
    }
  }

  /** A normalised path is a text of canonical components. */
  lemma NormPathShape(p: string) returns (n: nat, cs: seq<string>)
    ensures n <= 2 && Canonical(n > 0, cs) && NormPath(p) == PathText(n, cs)
    ensures p != "" ==> n == LeadingSlashes(p) && cs == Clean(n > 0, [], Split(p, SEP))
  {
    if p == "" {
      n, cs := 0, [];
      assert Slashes(0) + Join(cs, SEP) == "";
    } else {
      n := LeadingSlashes(p);
      cs := Clean(n > 0, [], Split(p, SEP));
      CleanIsCanonical(n > 0, [], Split(p, SEP));
    }
  }

  lemma NormPathIdempotent(p: string)
    ensures NormPath(NormPath(p)) == NormPath(p)
  {
    var n, cs := NormPathShape(p);
    NormPathOfText(n, cs);
  }

  /** A normalised path ends in a slash only when it is nothing but slashes. */
  lemma NormPathEnd(p: string)
    ensures NormPath(p) != ""
    ensures EndsWithSep(NormPath(p)) ==> NormPath(p) == "/" || NormPath(p) == "//"
  {
    var n, cs := NormPathShape(p);
    if cs == [] {
      assert Slashes(0) == "" && Slashes(1) == "/" && Slashes(2) == "//";
    } else {
      JoinEndsWithName(cs);
    }
  }
}
