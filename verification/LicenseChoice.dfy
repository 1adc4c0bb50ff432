/** oe.license: choosing one side of every OR, and is_included. */
module LicenseChoice {
  import opened LicenseTokens
  import opened LicenseTrees

  type Chooser = (seq<string>, seq<string>) -> seq<string>

  /** The flat list of licences left when every OR is settled by `choose`. */
  function Flatten(choose: Chooser, t: Tree): seq<string> {
    match t
    case Lic(n) => [n]
    case Bin(Or, l, r) => choose(Flatten(choose, l), Flatten(choose, r))
    case Bin(And, l, r) => Flatten(choose, l) + Flatten(choose, r)
    case Group(i) => Flatten(choose, i)
  }

  class FlattenVisitor {
    const choose: Chooser
    var licenses: seq<string>

    constructor (choose: Chooser)
      ensures this.choose == choose && licenses == []
    {
      this.choose := choose;
      licenses := [];
    }

    method Visit(t: Tree)
      modifies this
      ensures licenses == old(licenses) + Flatten(choose, t)
      decreases t
    {
      match t
      case Lic(n) => licenses := licenses + [n];
      case Bin(op, l, r) =>
        if op == Or {
          var left := new FlattenVisitor(choose);
          left.Visit(l);
          var right := new FlattenVisitor(choose);
          right.Visit(r);
          var selected := choose(left.licenses, right.licenses);
          assert left.licenses == Flatten(choose, l) && right.licenses == Flatten(choose, r);
          licenses := licenses + selected;
        } else {
          Visit(l);
          Visit(r);
        }
      case Group(i) => Visit(i);
    }
  }

  // ---------------------------------------------------------------------
  // The greedy choice
  // ---------------------------------------------------------------------

  function Count(p: string -> bool, xs: seq<string>): nat {
    |Filter(p, xs)|
  }

  predicate Clean(excl: string -> bool, xs: seq<string>) {
    forall x :: x in xs ==> !excl(x)
  }

  /** Included licences count one each; any excluded licence at all costs 1000. */
  function Weight(incl: string -> bool, excl: string -> bool, xs: seq<string>): int {
    Count(incl, xs) - (if Count(excl, xs) > 0 then 1000 else 0)
  }

  function ChooseLicenses(incl: string -> bool, excl: string -> bool): Chooser {
    (alpha, beta) => if Weight(incl, excl, alpha) >= Weight(incl, excl, beta) then alpha else beta
  }

  function Greedy(incl: string -> bool, excl: string -> bool, t: Tree): seq<string> {
    Flatten(ChooseLicenses(incl, excl), t)
  }

  predicate Matches(fnmatch: (string, string) -> bool, patterns: seq<string>, license: string) {
    exists i :: 0 <= i < |patterns| && fnmatch(license, patterns[i])
  }

  /** One way to take one side of every OR of `t` leaves the list `c`. */
  ghost predicate IsChoice(t: Tree, c: seq<string>) {
    match t
    case Lic(n) => c == [n]
    case Bin(Or, l, r) => IsChoice(l, c) || IsChoice(r, c)
    case Bin(And, l, r) => exists a, b :: IsChoice(l, a) && IsChoice(r, b) && c == a + b
    case Group(i) => IsChoice(i, c)
  }

  ghost predicate CleanChoice(excl: string -> bool, t: Tree, c: seq<string>) {
    IsChoice(t, c) && Clean(excl, c)
  }

  ghost predicate HasCleanChoice(excl: string -> bool, t: Tree) {
    exists c :: CleanChoice(excl, t, c)
  }

  function IncludedLeaves(incl: string -> bool, t: Tree): nat {
    Count(incl, Leaves(t))
  }

  lemma CleanIffNoneExcluded(excl: string -> bool, xs: seq<string>)
    ensures Clean(excl, xs) <==> Count(excl, xs) == 0
  {
    var ys := Filter(excl, xs);
    if ys != [] { assert ys[0] in ys; }
  }

  lemma CountAppend(p: string -> bool, xs: seq<string>, ys: seq<string>)
    ensures Count(p, xs + ys) == Count(p, xs) + Count(p, ys)
  {
    FilterAppend(p, xs, ys);
  }

  lemma {:induction false} ChoiceIncludesAtMostLeaves(incl: string -> bool, t: Tree, c: seq<string>)
    requires IsChoice(t, c)
    ensures Count(incl, c) <= IncludedLeaves(incl, t)
    decreases t
  {
    hide Count;
    match t
    case Lic(n) =>
    case Bin(op, l, r) =>
      CountAppend(incl, Leaves(l), Leaves(r));
      if op == And {
        var a, b :| IsChoice(l, a) && IsChoice(r, b) && c == a + b;
        ChoiceIncludesAtMostLeaves(incl, l, a);
        ChoiceIncludesAtMostLeaves(incl, r, b);
        CountAppend(incl, a, b);
      } else if IsChoice(l, c) {
        ChoiceIncludesAtMostLeaves(incl, l, c);
      } else {
        ChoiceIncludesAtMostLeaves(incl, r, c);
      }
    case Group(i) => ChoiceIncludesAtMostLeaves(incl, i, c);
  }

  lemma {:induction false} GreedyIsChoice(incl: string -> bool, excl: string -> bool, t: Tree)
    ensures IsChoice(t, Greedy(incl, excl, t))
  {
    match t
    case Lic(n) =>
    case Bin(op, l, r) =>
      GreedyIsChoice(incl, excl, l);
      GreedyIsChoice(incl, excl, r);
    case Group(i) => GreedyIsChoice(incl, excl, i);
  }

  /** With fewer than 1000 included leaves, local choices add up to a global optimum:
      no clean choice beats the greedy one, and the greedy one is clean if any is. */
  lemma {:induction false} GreedyBeats(incl: string -> bool, excl: string -> bool, t: Tree, c: seq<string>)
    requires IncludedLeaves(incl, t) < 1000 && CleanChoice(excl, t, c)
    ensures Clean(excl, Greedy(incl, excl, t)) && Count(incl, c) <= Count(incl, Greedy(incl, excl, t))
    decreases t
  {
    hide Clean, Count;
    match t
    case Lic(n) =>
    case Bin(op, l, r) =>
      CountAppend(incl, Leaves(l), Leaves(r));
      if op == And {
        var a, b :| IsChoice(l, a) && IsChoice(r, b) && c == a + b;
        CleanAppend(excl, a, b);
        GreedyBeats(incl, excl, l, a);
        GreedyBeats(incl, excl, r, b);
        CountAppend(incl, a, b);
        CountAppend(incl, Greedy(incl, excl, l), Greedy(incl, excl, r));
        CleanAppend(excl, Greedy(incl, excl, l), Greedy(incl, excl, r));
      } else {
        if IsChoice(l, c) {
          GreedyBeats(incl, excl, l, c);
        } else {
          GreedyBeats(incl, excl, r, c);
        }
        OrKeepsTheBest(incl, excl, l, r);
      }
    case Group(i) => GreedyBeats(incl, excl, i, c);
  }

  lemma CleanAppend(excl: string -> bool, xs: seq<string>, ys: seq<string>)
    ensures Clean(excl, xs + ys) <==> Clean(excl, xs) && Clean(excl, ys)
  {}

  lemma OrKeepsTheBest(incl: string -> bool, excl: string -> bool, l: Tree, r: Tree)
    requires IncludedLeaves(incl, l) < 1000 && IncludedLeaves(incl, r) < 1000
    ensures var a, b := Greedy(incl, excl, l), Greedy(incl, excl, r);
            var g := Greedy(incl, excl, Bin(Or, l, r));
            && (Clean(excl, a) ==> Clean(excl, g) && Count(incl, a) <= Count(incl, g))
            && (Clean(excl, b) ==> Clean(excl, g) && Count(incl, b) <= Count(incl, g))
  {
    hide Clean, Count, IncludedLeaves;
    var a, b := Greedy(incl, excl, l), Greedy(incl, excl, r);
    CleanIffNoneExcluded(excl, a);
    CleanIffNoneExcluded(excl, b);
    GreedyIsChoice(incl, excl, l);
    GreedyIsChoice(incl, excl, r);
    ChoiceIncludesAtMostLeaves(incl, l, a);
    ChoiceIncludesAtMostLeaves(incl, r, b);
  }

  // ---------------------------------------------------------------------
  // is_included
  // ---------------------------------------------------------------------

  method IsIncluded(fnmatch: (string, string) -> bool, t: Tree, wanted: seq<string>, unwanted: seq<string>)
    returns (state: bool, licenses: seq<string>)
    ensures var incl := (l: string) => Matches(fnmatch, if wanted == [] then ["*"] else wanted, l);
            var excl := (l: string) => Matches(fnmatch, unwanted, l);
            && licenses == Filter(if state then incl else excl, Greedy(incl, excl, t))
            && (state <==> Clean(excl, Greedy(incl, excl, t)))
            && (IncludedLeaves(incl, t) < 1000 ==>
                  && (state <==> HasCleanChoice(excl, t))
                  && (state ==> forall c :: CleanChoice(excl, t, c) ==> Count(incl, c) <= |licenses|))
  {
    var patterns := if wanted == [] then ["*"] else wanted;
    var incl := (l: string) => Matches(fnmatch, patterns, l);
    var excl := (l: string) => Matches(fnmatch, unwanted, l);
    var flatten := new FlattenVisitor(ChooseLicenses(incl, excl));
    flatten.Visit(t);
    var flat := flatten.licenses;
    assert flat == Greedy(incl, excl, t);
    var excluded := Filter(excl, flat);
    var included := Filter(incl, flat);
    CleanIffNoneExcluded(excl, flat);
    GreedyVerdict(incl, excl, t);
    if excluded != [] {
      state, licenses := false, excluded;
    } else {
      state, licenses := true, included;
    }
  }

  lemma GreedyVerdict(incl: string -> bool, excl: string -> bool, t: Tree)
    ensures IncludedLeaves(incl, t) < 1000 ==>
              && (Clean(excl, Greedy(incl, excl, t)) <==> HasCleanChoice(excl, t))
              && forall c :: CleanChoice(excl, t, c) ==> Count(incl, c) <= Count(incl, Greedy(incl, excl, t))
  {
    hide Clean, Count, Greedy, IsChoice;
    if IncludedLeaves(incl, t) < 1000 {
      GreedyIsChoice(incl, excl, t);
      if Clean(excl, Greedy(incl, excl, t)) {
        assert CleanChoice(excl, t, Greedy(incl, excl, t));
      }
      forall c | CleanChoice(excl, t, c)
        ensures Clean(excl, Greedy(incl, excl, t)) && Count(incl, c) <= Count(incl, Greedy(incl, excl, t))
      {
        GreedyBeats(incl, excl, t, c);
      }
    }
  }

  // ---------------------------------------------------------------------
  // The bound 1000 is exact
  // ---------------------------------------------------------------------

  /** The greedy verdict is right for every expression with at most `n` included leaves. */
  ghost predicate GreedyRightUpTo(n: nat) {
    forall incl: string -> bool, excl: string -> bool, t: Tree :: GreedyRight(incl, excl, t, n)
  }

  ghost predicate GreedyRight(incl: string -> bool, excl: string -> bool, t: Tree, n: nat) {
    IncludedLeaves(incl, t) <= n ==> (Clean(excl, Greedy(incl, excl, t)) <==> HasCleanChoice(excl, t))
  }

  /** `n` + 1 times the licence A, all required. */
  function Chain(n: nat): Tree {
    if n == 0 then Lic("A") else Bin(And, Chain(n - 1), Lic("A"))
  }

  lemma {:induction false} ChainCounts(incl: string -> bool, excl: string -> bool, n: nat)
    requires incl("A") && excl("A")
    ensures Count(incl, Leaves(Chain(n))) == n + 1
    ensures Greedy(incl, excl, Chain(n)) == Leaves(Chain(n))
    ensures Count(excl, Leaves(Chain(n))) > 0
  {
    assert ["A"][1..] == [];
    if n == 0 {
    } else {
      var rest := Chain(n - 1);
      ChainCounts(incl, excl, n - 1);
      CountAppend(incl, Leaves(rest), ["A"]);
      CountAppend(excl, Leaves(rest), ["A"]);
      assert Greedy(incl, excl, Lic("A")) == ["A"];
      assert Greedy(incl, excl, Bin(And, rest, Lic("A"))) == Greedy(incl, excl, rest) + ["A"];
      assert Leaves(Bin(And, rest, Lic("A"))) == Leaves(rest) + ["A"];
    }
  }

  predicate IsA(l: string) {
    l == "A"
  }

  /** `n` + 1 >= 1000 licences that are wanted and forbidden at once outweigh one that
      is neither. */
  lemma GreedyCanBeWrong(n: nat)
    requires n >= 999
    ensures var t := Bin(Or, Chain(n), Lic("B"));
            IncludedLeaves(IsA, t) == n + 1 && HasCleanChoice(IsA, t) && !Clean(IsA, Greedy(IsA, IsA, t))
  {
    hide Chain, Clean;
    var t := Bin(Or, Chain(n), Lic("B"));
    ChainCounts(IsA, IsA, n);
    CountAppend(IsA, Leaves(Chain(n)), ["B"]);
    assert Leaves(t) == Leaves(Chain(n)) + ["B"];
    assert ["B"][1..] == [];
    assert !IsA("B") by { assert "B"[0] != "A"[0]; }
    assert Count(IsA, ["B"]) == 0;
    CleanIffNoneExcluded(IsA, ["B"]);
    assert IsChoice(Lic("B"), ["B"]);
    assert CleanChoice(IsA, t, ["B"]);
    CleanIffNoneExcluded(IsA, Leaves(Chain(n)));
    assert Greedy(IsA, IsA, t) == ChooseLicenses(IsA, IsA)(Greedy(IsA, IsA, Chain(n)), Greedy(IsA, IsA, Lic("B")));
    assert Greedy(IsA, IsA, t) == Leaves(Chain(n));
  }

  lemma GreedyRightExactlyBelow1000(n: nat)
    ensures GreedyRightUpTo(n) <==> n < 1000
  {
    hide Chain, Clean, Greedy, IncludedLeaves, HasCleanChoice;
    if n < 1000 {
      forall incl: string -> bool, excl: string -> bool, t: Tree
        ensures GreedyRight(incl, excl, t, n)
      {
        GreedyVerdict(incl, excl, t);
      }
    } else {
      GreedyCanBeWrong(n - 1);
      assert !GreedyRight(IsA, IsA, Bin(Or, Chain(n - 1), Lic("B")), n);
    }
  }
}
