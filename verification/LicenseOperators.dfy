/** Which operators of a licence string stay, which are put in, and which texts it
    refuses. */
module LicenseOperators {
  import opened Counting
  import opened LicenseChoice
  import opened LicenseManifest
  import opened LicenseTokens
  import opened LicenseTrees
  import opened PyStrings

  // ---------------------------------------------------------------------
  // Operators in a row
  // ---------------------------------------------------------------------

  /** A bracket, or the last operator in a row. */
  ghost predicate Survives(ops: seq<Token>, i: nat)
    requires i < |ops|
  {
    ops[i].Open? || i == |ops| - 1 || ops[i + 1].Open?
  }

  /** `at` lists in order the places of `ops` that survive. */
  ghost predicate ListsSurvivors(ops: seq<Token>, at: seq<nat>) {
    Places(at, |ops|) && forall i :: 0 <= i < |ops| ==> (Survives(ops, i) <==> i in at)
  }

  /** Which places survive when one more token follows. */
  lemma SurvivesSnoc(ops: seq<Token>, n: nat)
    requires |ops| == n + 1
    ensures Survives(ops, n)
    ensures forall i :: 0 <= i < n - 1 ==> (Survives(ops, i) <==> Survives(ops[..n], i))
    ensures n > 0 ==> Survives(ops[..n], n - 1) && (Survives(ops, n - 1) <==> ops[n - 1].Open? || ops[n].Open?)
  {}

  lemma SurvivorsSnoc(ops: seq<Token>, n: nat, before: seq<nat>)
    requires |ops| == n + 1 && ListsSurvivors(ops[..n], before)
    requires n > 0 ==> before != [] && before[|before| - 1] == n - 1
    ensures n == 0 || ops[n - 1].Open? || ops[n].Open? ==> ListsSurvivors(ops, before + [n])
    ensures n > 0 && !ops[n - 1].Open? && !ops[n].Open? ==> ListsSurvivors(ops, before[|before| - 1 := n])
  {
    SurvivesSnoc(ops, n);
    hide Survives;
    if n == 0 || ops[n - 1].Open? || ops[n].Open? {
      var at := before + [n];
      forall i | 0 <= i < |ops|
        ensures Survives(ops, i) <==> i in at
      {
        assert i in at <==> i in before || i == n;
      }
    } else {
      var at := before[|before| - 1 := n];
      var m := |before| - 1;
      forall i | 0 <= i < |ops|
        ensures Survives(ops, i) <==> i in at
      {
        if k :| 0 <= k < |before| && before[k] == i { assert k < m ==> at[k] == i; }
        if k :| 0 <= k < |at| && at[k] == i { assert k < m ==> before[k] == i && i < before[m]; }
        assert at[m] == n;
      }
    }
  }

  /** Squeezing leaves the survivors, in order. */
  lemma {:induction false} SqueezeKeepsLast(ops: seq<Token>) returns (at: seq<nat>)
    requires forall t :: t in ops ==> t.Open? || t.Operator?
    ensures ListsSurvivors(ops, at) && Squeeze(ops) == Picked(ops, at)
    ensures ops != [] ==> at != [] && at[|at| - 1] == |ops| - 1
    decreases |ops|
  {
    if ops == [] {
      at := [];
    } else {
      var n := |ops| - 1;
      var init, op := ops[..n], ops[n];
      assert op in ops && forall t :: t in init ==> t in ops;
      var before := SqueezeKeepsLast(init);
      SurvivorsSnoc(ops, n, before);
      PickedSnoc(ops, n, before);
      hide ListsSurvivors, Picked;
      if op.Open? || init == [] || ops[n - 1].Open? {
        at := before + [n];
      } else {
        at := before[|before| - 1 := n];
      }
    }
  }

  /** Between two licences that are kept, where those in between are not, the operator
      that stays is the one before the second. */
  lemma LastOperatorStays(keep: string -> bool, s: State, between: seq<Token>, op: Op, name: string)
    requires keep(name) && s.pending == [] && s.licenses != []
    requires forall t :: t in between ==> t.Operator? || (t.Name? && !keep(t.name))
    ensures Run(keep, s, between + [Operator(op)] + [Name(name)])
            == State(s.out + [Operator(op), Name(name)], [], s.licenses + [name])
  {
    hide Squeeze, Written;
    RunAppend(keep, s, between + [Operator(op)], [Name(name)]);
    RunAppend(keep, s, between, [Operator(op)]);
    assert [Operator(op)][1..] == [] && [Name(name)][1..] == [];
    OnlyPending(keep, s, between);
    var ops := Run(keep, s, between).pending + [Operator(op)];
    SqueezeOfOperators(ops);
    assert [Operator(op)][1..] == [];
    WrittenOne(Operator(op));
    assert s.out + [Operator(op)] + [Name(name)] == s.out + [Operator(op), Name(name)];
  }

  lemma WrittenOne(t: Token)
    ensures Written([t], true) == [t]
  {
    assert [t][1..] == [];
  }

  lemma {:induction false} SqueezeOfOperators(ops: seq<Token>)
    requires ops != [] && forall t :: t in ops ==> t.Operator?
    ensures Squeeze(ops) == [ops[|ops| - 1]]
    decreases |ops|
  {
    if |ops| > 1 {
      assert forall t :: t in ops[..|ops| - 1] ==> t in ops;
      SqueezeOfOperators(ops[..|ops| - 1]);
      assert ops[|ops| - 1] in ops && ops[|ops| - 2] in ops;
    } else {
      assert ops[..0] == [] && Squeeze([]) == [];
    }
  }

  lemma {:induction false} OnlyPending(keep: string -> bool, s: State, between: seq<Token>)
    requires forall t :: t in between ==> t.Operator? || (t.Name? && !keep(t.name))
    requires forall t :: t in s.pending ==> t.Operator?
    ensures var e := Run(keep, s, between);
            e.out == s.out && e.licenses == s.licenses && forall t :: t in e.pending ==> t.Operator?
    decreases |between|
  {
    if between == [] {
    } else {
      assert between[0] in between && forall t :: t in between[1..] ==> t in between;
      OnlyPending(keep, Step(keep, s, between[0]), between[1..]);
    }
  }

  // ---------------------------------------------------------------------
  // Licences in a row
  // ---------------------------------------------------------------------

  /** A licence can begin after `a` and end before `b`. */
  ghost predicate Ends(a: string) {
    a == "" || IsOperatorChar(a[|a| - 1])
  }

  ghost predicate Begins(b: string) {
    b == "" || IsOperatorChar(b[0])
  }

  lemma CutAround(a: string, n: string, b: string)
    requires Ends(a) && ValidName(n) && Begins(b)
    ensures Cut(a + n + b) == Cut(a) + [n] + Cut(b)
  {
    hide Pieces, NonBlank, IsOperatorChar, IsLicenseChar;
    CutName(n);
    CutOfNothing();
    CutBefore(a, n);
    if b == "" {
      assert a + n + b == a + n;
    } else {
      CutAppend(a + n, b[0], b[1..]);
      CutLeadingOperator(b[0], b[1..]);
      assert b == [b[0]] + b[1..] && a + n + b == (a + n) + [b[0]] + b[1..];
    }
  }

  lemma CutBefore(a: string, s: string)
    requires Ends(a)
    ensures Cut(a + s) == Cut(a) + Cut(s)
  {
    hide Pieces, NonBlank, IsOperatorChar, IsLicenseChar;
    CutOfNothing();
    if a == "" {
      assert a + s == s;
    } else {
      var init, c := a[..|a| - 1], a[|a| - 1];
      assert a == init + [c] + "" && a + s == init + [c] + s;
      CutAppend(init, c, s);
      CutAppend(init, c, "");
    }
  }

  lemma {:induction false} CutBlanks(spaces: string)
    requires forall c :: c in spaces ==> c == ' '
    ensures Cut(spaces) == []
  {
    hide Pieces, NonBlank;
    if spaces == "" {
      CutOfNothing();
    } else {
      assert spaces[0] in spaces && forall c :: c in spaces[1..] ==> c in spaces;
      assert spaces == [' '] + spaces[1..];
      CutBlanks(spaces[1..]);
      CutLeadingOperator(' ', spaces[1..]);
    }
  }

  lemma {:induction false} ElementsOfPrefix(xs: seq<string>, ys: seq<string>, k: nat)
    requires k <= |xs|
    ensures ElementsUpTo(xs + ys, k) == ElementsUpTo(xs, k)
  {
    hide IsLicense, IsOperatorChar;
    if k > 0 { ElementsOfPrefix(xs, ys, k - 1); }
  }

  /** What follows the licence at `i` and at `j` is the same, and so is what it becomes. */
  lemma {:induction false} ElementsFollow(ps: seq<string>, qs: seq<string>, i: nat, j: nat, k: nat)
    requires 0 < i && 0 < j && i + k <= |ps| && j + k <= |qs|
    requires ps[i - 1..i + k] == qs[j - 1..j + k]
    requires ElementsUpTo(ps, i) == ElementsUpTo(qs, j)
    ensures ElementsUpTo(ps, i + k) == ElementsUpTo(qs, j + k)
  {
    hide IsLicense, IsOperatorChar;
    if k > 0 {
      assert ps[i - 1..i + k][..k] == ps[i - 1..i + k - 1] && qs[j - 1..j + k][..k] == qs[j - 1..j + k - 1];
      assert ps[i - 1..i + k][k] == ps[i + k - 1] && ps[i - 1..i + k][k - 1] == ps[i + k - 2];
      assert qs[j - 1..j + k][k] == qs[j + k - 1] && qs[j - 1..j + k][k - 1] == qs[j + k - 2];
      ElementsFollow(ps, qs, i, j, k - 1);
    }
  }

  lemma SameWithAnd(left: seq<string>, a: string, b: string, right: seq<string>)
    requires ValidName(a) && ValidName(b)
    ensures var ps, qs := left + [a, b] + right, left + [a, "&", b] + right;
            ElementsUpTo(ps, |ps|) == ElementsUpTo(qs, |qs|)
  {
    var ps, qs := left + [a, b] + right, left + [a, "&", b] + right;
    var n := |left|;
    hide ValidName;
    assert IsLicense(a) && IsLicense(b) && IsOperatorChar("&"[0]);
    AndIsNoLicense();
    hide IsLicense, IsOperatorChar;
    assert ps == (left + [a]) + ([b] + right) && qs == (left + [a]) + (["&", b] + right);
    ElementsOfPrefix(left + [a], [b] + right, n + 1);
    ElementsOfPrefix(left + [a], ["&", b] + right, n + 1);
    assert ps[n] == qs[n] == a && ps[n + 1] == b && qs[n + 1] == "&" && qs[n + 2] == b;
    var r := ElementsUpTo(left + [a], n + 1);
    assert ElementsUpTo(ps, n + 1) == r && ElementsUpTo(qs, n + 1) == r;
    assert ElementsUpTo(ps, n + 2) == ElementsUpTo(qs, n + 3) by { AndBetween(ps, qs, n, r); }
    assert ps[n + 1..] == [b] + right && qs[n + 2..] == [b] + right;
    ElementsFollow(ps, qs, n + 2, n + 3, |right|);
  }

  lemma AndIsNoLicense()
    ensures !IsLicense("&")
  {
    assert !IsLicenseChar("&"[0]);
  }

  lemma AndBetween(ps: seq<string>, qs: seq<string>, n: nat, r: Result<seq<string>>)
    requires n + 2 <= |ps| && n + 3 <= |qs| && ElementsUpTo(ps, n + 1) == r && ElementsUpTo(qs, n + 1) == r
    requires IsLicense(ps[n]) && IsLicense(ps[n + 1]) && qs[n] == ps[n] && qs[n + 1] == "&" && qs[n + 2] == ps[n + 1]
    ensures ElementsUpTo(ps, n + 2) == ElementsUpTo(qs, n + 3)
  {
    AndIsNoLicense();
    hide IsLicense;
    assert IsOperatorChar("&"[0]);
    assert ElementsUpTo(qs, n + 2) == if r.Ok? then Ok(r.value + ["&"]) else r;
    if r.Ok? {
      assert r.value + ["&"] + [Quoted(ps[n + 1])] == (r.value + ["&"]) + [] + [Quoted(ps[n + 1])];
    }
  }

  /** Two licences with only spaces in between are read as if `&` stood there. */
  lemma SpacesMeanAnd(left: string, a: string, spaces: string, b: string, right: string)
    requires Ends(left) && ValidName(a) && ValidName(b) && Begins(right)
    requires spaces != "" && forall c :: c in spaces ==> c == ' '
    ensures Elements(left + a + spaces + b + right) == Elements(left + a + " & " + b + right)
  {
    hide ValidName, Pieces, NonBlank, ElementsUpTo, Cut;
    assert spaces[0] in spaces && spaces[|spaces| - 1] in spaces;
    var end := b + right;
    assert (spaces + b + right) == spaces + b + right;
    CutAround(left, a, spaces + b + right);
    CutAround(spaces, b, right);
    CutBlanks(spaces);
    CutAround(left, a, " & " + b + right);
    CutAround(" & ", b, right);
    CutAnd();
    assert left + a + spaces + b + right == left + a + (spaces + b + right);
    assert left + a + " & " + b + right == left + a + (" & " + b + right);
    var ps := Cut(left) + [a] + ([b] + Cut(right));
    SameWithAnd(Cut(left), a, b, Cut(right));
    assert Cut(left + a + spaces + b + right) == Cut(left) + [a, b] + Cut(right);
    assert Cut(left + a + " & " + b + right) == Cut(left) + [a, "&", b] + Cut(right);
    ElementsAreOfCut(left + a + spaces + b + right);
    ElementsAreOfCut(left + a + " & " + b + right);
  }

  lemma CutAnd()
    ensures Cut(" & ") == ["&"]
  {
    hide Pieces, NonBlank;
    CutAppend(" ", '&', " ");
    CutBlanks(" ");
    assert " & " == " " + ['&'] + " ";
  }

  lemma ElementsAreOfCut(s: string)
    ensures Elements(s) == ElementsUpTo(Cut(s), |Cut(s)|)
  {}

  // ---------------------------------------------------------------------
  // What is refused
  // ---------------------------------------------------------------------

  /** The text `w` stands in `s` between operator characters, as long as it can be. */
  ghost predicate StandsIn(s: string, a: string, w: string, b: string) {
    s == a + w + b && Ends(a) && Begins(b) && forall c :: c in w ==> !IsOperatorChar(c)
  }

  /** A piece is an operator, or a longest text without one; only the first piece has
      nothing before it. */
  ghost predicate PieceStands(s: string, k: nat, p: string) {
    || (|p| == 1 && IsOperatorChar(p[0]))
    || exists a, b :: StandsIn(s, a, p, b) && (k == 0 <==> a == "")
  }

  lemma {:induction false} PiecesStand(s: string, k: nat)
    requires k < |Pieces(s)|
    ensures PieceStands(s, k, Pieces(s)[k])
    ensures k == 0 ==> exists b :: StandsIn(s, "", Pieces(s)[0], b)
  {
    hide IsOperatorChar;
    var p := Pieces(s)[k];
    if s == "" {
      assert StandsIn(s, "", "", "");
    } else if IsOperatorChar(s[0]) {
      if k == 0 {
        assert StandsIn(s, "", "", s);
      } else if k > 1 {
        PiecesStand(s[1..], k - 2);
        StandsAfter(s, k - 2, p);
      }
    } else {
      PiecesStand(s[1..], 0);
      if k == 0 {
        var b :| StandsIn(s[1..], "", Pieces(s[1..])[0], b);
        assert s == [s[0]] + s[1..] && StandsIn(s, "", p, b);
      } else {
        PiecesStand(s[1..], k);
        StandsAfter(s, k, p);
      }
    }
  }

  lemma StandsAfter(s: string, k: nat, p: string)
    requires s != "" && PieceStands(s[1..], k, p) && (k > 0 || IsOperatorChar(s[0]))
    ensures PieceStands(s, k + 1, p)
  {
    hide IsOperatorChar;
    if a, b :| StandsIn(s[1..], a, p, b) && (k == 0 <==> a == "") {
      assert s == [s[0]] + s[1..] == ([s[0]] + a) + p + b;
      assert StandsIn(s, [s[0]] + a, p, b);
    }
  }

  lemma {:induction false} PiecesOfWord(w: string)
    requires forall c :: c in w ==> !IsOperatorChar(c)
    ensures Pieces(w) == [w]
  {
    hide IsOperatorChar;
    if w == "" {
    } else {
      assert w == [w[0]] + w[1..] && w[0] in w;
      PiecesOfWord(w[1..]);
    }
  }

  lemma StandingPiece(s: string, a: string, w: string, b: string)
    requires StandsIn(s, a, w, b)
    ensures w in Pieces(s)
  {
    hide Pieces, IsOperatorChar;
    PiecesOfWord(w);
    if b == "" {
      assert w + b == w;
    } else {
      assert b == [b[0]] + b[1..] && w + b == w + [b[0]] + b[1..];
      PiecesAppend(w, b[0], b[1..]);
      assert ([w] + [[b[0]]] + Pieces(b[1..]))[0] == w;
    }
    assert w in Pieces(w + b);
    if a == "" {
      assert s == w + b;
    } else {
      var init, c := a[..|a| - 1], a[|a| - 1];
      assert a == init + [c] && s == init + [c] + (w + b);
      PiecesAppend(init, c, w + b);
    }
  }

  ghost predicate Refused(p: string) {
    !IsLicense(p) && !(p != "" && IsOperatorChar(p[0]))
  }

  lemma {:induction false} RefusedPiece(ps: seq<string>, k: nat)
    requires k <= |ps|
    ensures ElementsUpTo(ps, k).InvalidLicense? <==> exists i :: 0 <= i < k && Refused(ps[i])
  {
    hide IsLicense, IsOperatorChar;
    if k > 0 { RefusedPiece(ps, k - 1); }
  }

  lemma {:induction false} NonBlankMembers(ps: seq<string>)
    ensures forall p :: p in NonBlank(ps) <==> p in ps && !IsBlank(p)
  {
    hide IsBlank;
    if ps != [] { NonBlankMembers(ps[1..]); }
  }

  /** A licence string is refused exactly when some longest text in it without an operator
      is neither blank nor a licence. */
  lemma RefusedIff(s: string)
    ensures Elements(s).InvalidLicense?
            <==> exists a, w, b :: StandsIn(s, a, w, b) && !IsBlank(w) && !IsLicense(w)
  {
    hide Pieces, NonBlank, IsBlank, IsLicense, IsOperatorChar;
    var ps := NonBlank(Pieces(s));
    RefusedPiece(ps, |ps|);
    NonBlankMembers(Pieces(s));
    if i :| 0 <= i < |ps| && Refused(ps[i]) {
      assert ps[i] in ps;
      var k :| 0 <= k < |Pieces(s)| && Pieces(s)[k] == ps[i];
      PiecesStand(s, k);
    }
    if a, w, b :| StandsIn(s, a, w, b) && !IsBlank(w) && !IsLicense(w) {
      StandingPiece(s, a, w, b);
      assert w in ps && w != "" ==> w[0] in w;
      var i :| 0 <= i < |ps| && ps[i] == w;
      assert Refused(ps[i]);
    }
  }

  // ---------------------------------------------------------------------
  // Either side
  // ---------------------------------------------------------------------

  /** Of the two sides of an OR with as many included licences, and where both or neither
      have an excluded one, the left side is taken. */
  lemma LeftOnTie(incl: string -> bool, excl: string -> bool, l: Tree, r: Tree)
    requires var a, b := Greedy(incl, excl, l), Greedy(incl, excl, r);
             |Filter(incl, a)| == |Filter(incl, b)| && (Clean(excl, a) <==> Clean(excl, b))
    ensures Greedy(incl, excl, Bin(Or, l, r)) == Greedy(incl, excl, l)
  {
    hide Clean;
    CleanIffNoneExcluded(excl, Greedy(incl, excl, l));
    CleanIffNoneExcluded(excl, Greedy(incl, excl, r));
  }
}
