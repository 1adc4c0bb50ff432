/** When the manifest string of a filtered licence is a licence expression again. */
module LicenseFilter {
  import opened LicenseTokens
  import opened LicenseTrees
  import opened LicenseManifest
  import opened LicenseRoundTrip

  ghost predicate IsExpression(ts: seq<Token>) {
    exists u: Tree :: Frontier(u) == ts
  }

  // ---------------------------------------------------------------------
  // Two ways not to be an expression
  // ---------------------------------------------------------------------

  /** An operator right after an opening bracket. */
  ghost predicate OpenBeforeOp(ts: seq<Token>) {
    exists i :: 0 < i < |ts| && ts[i - 1].Open? && ts[i].Operator?
  }

  function Delta(t: Token): int {
    if t.Open? then 1 else if t.Close? then -1 else 0
  }

  function Depth(ts: seq<Token>): int {
    if ts == [] then 0 else Delta(ts[0]) + Depth(ts[1..])
  }

  /** From depth `d`, some bracket closes that was never opened. */
  predicate Sinks(d: int, ts: seq<Token>)
    decreases |ts|
  {
    d < 0 || (ts != [] && Sinks(d + Delta(ts[0]), ts[1..]))
  }

  lemma {:induction false} DepthAppend(xs: seq<Token>, ys: seq<Token>)
    ensures Depth(xs + ys) == Depth(xs) + Depth(ys)
  {
    if xs == [] {
      assert xs + ys == ys;
    } else {
      assert (xs + ys)[1..] == xs[1..] + ys;
      DepthAppend(xs[1..], ys);
    }
  }

  lemma {:induction false} SinksAppend(d: int, xs: seq<Token>, ys: seq<Token>)
    ensures Sinks(d, xs + ys) <==> Sinks(d, xs) || Sinks(d + Depth(xs), ys)
    decreases |xs|
  {
    if xs == [] {
      assert xs + ys == ys;
    } else {
      assert (xs + ys)[1..] == xs[1..] + ys;
      SinksAppend(d + Delta(xs[0]), xs[1..], ys);
    }
  }

  lemma OneToken(t: Token, d: int)
    ensures Depth([t]) == Delta(t) && (Sinks(d, [t]) <==> d < 0 || d + Delta(t) < 0)
  {
    assert [t][1..] == [];
  }

  lemma {:induction false} FrontierShape(u: Tree)
    ensures var ts := Frontier(u);
            && (ts[0].Name? || ts[0].Open?) && (ts[|ts| - 1].Name? || ts[|ts| - 1].Close?)
            && !OpenBeforeOp(ts)
            && exists i :: 0 <= i < |ts| && ts[i].Name?
  {
    match u
    case Lic(_) => assert Frontier(u)[0].Name?;
    case Bin(op, l, r) =>
      FrontierShape(l);
      FrontierShape(r);
      var i :| 0 <= i < |Frontier(l)| && Frontier(l)[i].Name?;
      assert Frontier(u)[i] == Frontier(l)[i];
      NoOpenBeforeOp(Frontier(l), [Operator(op)]);
      NoOpenBeforeOp(Frontier(l) + [Operator(op)], Frontier(r));
    case Group(i) =>
      FrontierShape(i);
      var k :| 0 <= k < |Frontier(i)| && Frontier(i)[k].Name?;
      assert Frontier(u)[k + 1] == Frontier(i)[k];
      NoOpenBeforeOp([Open], Frontier(i));
      NoOpenBeforeOp([Open] + Frontier(i), [Close]);
  }

  lemma NoOpenBeforeOp(xs: seq<Token>, ys: seq<Token>)
    requires !OpenBeforeOp(xs) && !OpenBeforeOp(ys) && xs != [] && ys != []
    requires !(xs[|xs| - 1].Open? && ys[0].Operator?)
    ensures !OpenBeforeOp(xs + ys)
  {
    var ts := xs + ys;
    forall i | 0 < i < |ts|
      ensures !(ts[i - 1].Open? && ts[i].Operator?)
    {
      if i < |xs| {
        assert ts[i] == xs[i] && ts[i - 1] == xs[i - 1];
      } else if i > |xs| {
        assert ts[i] == ys[i - |xs|] && ts[i - 1] == ys[i - |xs| - 1];
      }
    }
  }

  lemma {:induction false} FrontierNeverSinks(u: Tree, d: nat)
    ensures !Sinks(d, Frontier(u)) && Depth(Frontier(u)) == 0
    decreases u
  {
    match u
    case Lic(n) => OneToken(Name(n), d);
    case Bin(op, l, r) =>
      FrontierNeverSinks(l, d);
      FrontierNeverSinks(r, d);
      OneToken(Operator(op), d);
      SinksAppend(d, Frontier(l) + [Operator(op)], Frontier(r));
      SinksAppend(d, Frontier(l), [Operator(op)]);
      DepthAppend(Frontier(l) + [Operator(op)], Frontier(r));
      DepthAppend(Frontier(l), [Operator(op)]);
    case Group(i) =>
      FrontierNeverSinks(i, d + 1);
      OneToken(Open, d);
      OneToken(Close, d + 1);
      SinksAppend(d, [Open] + Frontier(i), [Close]);
      SinksAppend(d, [Open], Frontier(i));
      DepthAppend([Open] + Frontier(i), [Close]);
      DepthAppend([Open], Frontier(i));
  }

  // ---------------------------------------------------------------------
  // A lost bracket stays lost
  // ---------------------------------------------------------------------

  ghost predicate HasOpen(ts: seq<Token>) {
    exists i :: 0 <= i < |ts| && ts[i].Open?
  }

  /** An opening bracket with an operator somewhere after it. */
  ghost predicate OpenThenOp(ts: seq<Token>) {
    exists i, j :: 0 <= i < j < |ts| && ts[i].Open? && ts[j].Operator?
  }

  ghost predicate Plain(s: State) {
    && AllPending(s.pending)
    && (s.licenses == [] ==> forall i :: 0 <= i < |s.out| ==> s.out[i].Close?)
  }

  /** What is written, or is bound to be written next, cannot be completed. */
  ghost predicate Doomed(s: State) {
    || OpenBeforeOp(s.out)
    || Sinks(0, s.out)
    || (s.licenses != [] && OpenThenOp(s.pending))
  }

  /** Doomed as soon as anything but a bracket or a licence follows. */
  ghost predicate Late(s: State) {
    Doomed(s) || (s.licenses != [] && HasOpen(s.pending))
  }

  lemma OpenBeforeOpStays(xs: seq<Token>, ys: seq<Token>)
    ensures OpenBeforeOp(xs) ==> OpenBeforeOp(xs + ys)
    ensures OpenBeforeOp(ys) ==> OpenBeforeOp(xs + ys)
  {
    if OpenBeforeOp(xs) {
      var i :| 0 < i < |xs| && xs[i - 1].Open? && xs[i].Operator?;
      assert (xs + ys)[i] == xs[i] && (xs + ys)[i - 1] == xs[i - 1];
    }
    if OpenBeforeOp(ys) {
      var i :| 0 < i < |ys| && ys[i - 1].Open? && ys[i].Operator?;
      assert (xs + ys)[|xs| + i] == ys[i] && (xs + ys)[|xs| + i - 1] == ys[i - 1];
    }
  }

  /** Squeezing never removes the first operator after a bracket. */
  lemma {:induction false} SqueezeKeepsTheFault(ts: seq<Token>)
    requires AllPending(ts) && OpenThenOp(ts)
    ensures OpenBeforeOp(Squeeze(ts))
    decreases |ts|
  {
    var init, last := ts[..|ts| - 1], ts[|ts| - 1];
    var kept := Squeeze(init);
    var i, j :| 0 <= i < j < |ts| && ts[i].Open? && ts[j].Operator?;
    SqueezeShape(init);
    if j < |init| {
      assert init[i] == ts[i] && init[j] == ts[j];
    }
    assert init != [] && init[i] == ts[i] && IsPending(ts[|init| - 1]);
    if i < |init| - 1 && init[|init| - 1].Operator? {
      assert OpenThenOp(init);
    }
    if OpenThenOp(init) {
      SqueezeKeepsTheFault(init);
      var k :| 0 < k < |kept| && kept[k - 1].Open? && kept[k].Operator?;
      assert IsPending(last);
      assert Squeeze(ts)[k - 1] == kept[k - 1] && Squeeze(ts)[k].Operator?;
    } else {
      assert j == |init| && init[|init| - 1].Open?;
      assert Squeeze(ts) == kept + [last];
      assert Squeeze(ts)[|kept| - 1].Open? && Squeeze(ts)[|kept|].Operator?;
    }
  }

  lemma StepKeepsPlain(keep: string -> bool, s: State, t: Token)
    requires Plain(s)
    ensures Plain(Step(keep, s, t))
  {}

  lemma StepKeepsDoom(keep: string -> bool, s: State, t: Token)
    requires Plain(s) && Doomed(s)
    ensures Doomed(Step(keep, s, t))
  {
    hide Squeeze, Written;
    var next := Step(keep, s, t);
    if t.Name? && keep(t.name) {
      var f := Flush(s);
      assert next.out == s.out + (f + [t]);
      OpenBeforeOpStays(s.out, f + [t]);
      OpenBeforeOpStays(f, [t]);
      SinksAppend(0, s.out, f + [t]);
      if s.licenses != [] && OpenThenOp(s.pending) {
        SqueezeKeepsTheFault(s.pending);
        WrittenSeen(Squeeze(s.pending));
      }
    } else if t.Close? {
      OpenBeforeOpStays(s.out, [t]);
      SinksAppend(0, s.out, [t]);
    } else if !t.Name? && OpenThenOp(s.pending) {
      var i, j :| 0 <= i < j < |s.pending| && s.pending[i].Open? && s.pending[j].Operator?;
      assert next.pending[i] == s.pending[i] && next.pending[j] == s.pending[j];
    }
  }

  lemma {:induction false} RunKeepsDoom(keep: string -> bool, s: State, ts: seq<Token>)
    requires Plain(s)
    ensures Plain(Run(keep, s, ts)) && (Doomed(s) ==> Doomed(Run(keep, s, ts)))
    decreases |ts|
  {
    hide Step, Plain, Doomed;
    if ts == [] {
    } else {
      StepKeepsPlain(keep, s, ts[0]);
      if Doomed(s) { StepKeepsDoom(keep, s, ts[0]); }
      RunKeepsDoom(keep, Step(keep, s, ts[0]), ts[1..]);
    }
  }

  lemma OperatorAfterOpen(keep: string -> bool, s: State, op: Op)
    requires Plain(s) && Late(s)
    ensures Doomed(Step(keep, s, Operator(op)))
  {
    var next := Step(keep, s, Operator(op));
    if Doomed(s) {
      StepKeepsDoom(keep, s, Operator(op));
    } else {
      var i :| 0 <= i < |s.pending| && s.pending[i].Open?;
      assert next.pending[i].Open? && next.pending[|s.pending|].Operator?;
    }
  }

  lemma CloseKeepsLate(keep: string -> bool, s: State)
    requires Plain(s) && Late(s)
    ensures Late(Step(keep, s, Close))
  {
    if Doomed(s) { StepKeepsDoom(keep, s, Close); }
  }

  lemma LostBracket(keep: string -> bool, s: State)
    requires Plain(s) && s.licenses == []
    ensures Doomed(Step(keep, s, Close))
  {
    var out := s.out + [Close];
    assert out[0].Close?;
    assert Sinks(0, out);
  }

  /** A bracket that loses its licences, or its first one, spoils the rest. */
  lemma {:induction false} BadlyKeptDooms(keep: string -> bool, s: State, t: Tree)
    requires Plain(s)
    requires !WellKept(keep, t, s.licenses != [])
             || (s.licenses != [] && HasOpen(s.pending) && !keep(FirstLeaf(t)))
    ensures Late(Run(keep, s, Frontier(t)))
    decreases t
  {
    hide Run, Frontier, Step, Plain, Late, Doomed;
    match t
    case Lic(n) =>
      RunOfName(keep, s, n);
      DroppedName(keep, s, n);
    case Bin(op, l, r) =>
      RunOfBin(keep, s, op, l, r);
      RunKeepsDoom(keep, s, Frontier(l));
      var mid := Run(keep, s, Frontier(l));
      var next := Step(keep, mid, Operator(op));
      StepKeepsPlain(keep, mid, Operator(op));
      SeenAfter(keep, s, l);
      OperatorKeepsLicenses(keep, mid, op);
      if WellKept(keep, l, s.licenses != []) && !(s.licenses != [] && HasOpen(s.pending) && !keep(FirstLeaf(t))) {
        BadlyKeptDooms(keep, next, r);
      } else {
        BadlyKeptDooms(keep, s, l);
        OperatorAfterOpen(keep, mid, op);
        RunKeepsDoom(keep, next, Frontier(r));
        DoomedIsLate(Run(keep, next, Frontier(r)));
      }
    case Group(i) =>
      RunOfGroup(keep, s, i);
      var inner := Step(keep, s, Open);
      StepKeepsPlain(keep, s, Open);
      OpenPends(keep, s);
      RunKeepsDoom(keep, inner, Frontier(i));
      var after := Run(keep, inner, Frontier(i));
      SeenAfter(keep, inner, i);
      if s.licenses == [] && !Kept(keep, i) {
        LostBracket(keep, after);
        DoomedIsLate(Step(keep, after, Close));
      } else {
        NoneKept(keep, i);
        BadlyKeptDooms(keep, inner, i);
        CloseKeepsLate(keep, after);
      }
  }

  lemma DroppedName(keep: string -> bool, s: State, n: string)
    requires s.licenses != [] && HasOpen(s.pending) && !keep(n)
    ensures Late(Step(keep, s, Name(n)))
  {}

  lemma OperatorKeepsLicenses(keep: string -> bool, s: State, op: Op)
    ensures Step(keep, s, Operator(op)).licenses == s.licenses
  {}

  lemma OpenPends(keep: string -> bool, s: State)
    ensures Step(keep, s, Open).licenses == s.licenses && HasOpen(Step(keep, s, Open).pending)
  {
    assert Step(keep, s, Open).pending[|s.pending|].Open?;
  }

  lemma DoomedIsLate(s: State)
    requires Doomed(s)
    ensures Late(s)
  {}

  lemma {:induction false} NoneKept(keep: string -> bool, t: Tree)
    ensures !Kept(keep, t) ==> !keep(FirstLeaf(t))
  {
    match t
    case Lic(_) =>
    case Bin(_, l, _) => NoneKept(keep, l);
    case Group(i) => NoneKept(keep, i);
  }

  /** Brackets written and pending balance over a whole tree. */
  lemma {:induction false} RunBalance(keep: string -> bool, s: State, ts: seq<Token>)
    requires AllPending(s.pending)
    ensures var e := Run(keep, s, ts);
            AllPending(e.pending) && Depth(e.out) + Opens(e.pending) == Depth(s.out) + Opens(s.pending) + Depth(ts)
    decreases |ts|
  {
    hide Step, Squeeze, Written;
    if ts == [] {
    } else {
      StepBalance(keep, s, ts[0]);
      RunBalance(keep, Step(keep, s, ts[0]), ts[1..]);
    }
  }

  lemma StepBalance(keep: string -> bool, s: State, t: Token)
    requires AllPending(s.pending)
    ensures var e := Step(keep, s, t);
            AllPending(e.pending) && Depth(e.out) + Opens(e.pending) == Depth(s.out) + Opens(s.pending) + Delta(t)
  {
    hide Squeeze, Written;
    var e := Step(keep, s, t);
    if t.Name? && keep(t.name) {
      SqueezeShape(s.pending);
      FlushBalance(Squeeze(s.pending), s.licenses != []);
      DepthAppend(s.out, Flush(s));
      DepthAppend(s.out + Flush(s), [t]);
      OneToken(t, 0);
      assert Opens([]) == 0;
    } else if t.Close? {
      DepthAppend(s.out, [t]);
      OneToken(t, 0);
    } else if !t.Name? {
      OpensSnoc(s.pending, t);
    }
  }

  lemma {:induction false} FlushBalance(ts: seq<Token>, seen: bool)
    requires AllPending(ts)
    ensures Depth(Written(ts, seen)) == Opens(ts)
    decreases |ts|
  {
    if ts == [] {
    } else {
      var init, last := ts[..|ts| - 1], ts[|ts| - 1];
      assert ts == init + [last] && IsPending(last);
      FlushBalance(init, seen);
      WrittenSnoc(init, last, seen);
      DepthAppend(Written(init, seen), if last.Open? || seen then [last] else []);
      OneToken(last, 0);
    }
  }

  lemma {:induction false} OpensPositive(ts: seq<Token>)
    requires HasOpen(ts)
    ensures Opens(ts) > 0
    decreases |ts|
  {
    var i :| 0 <= i < |ts| && ts[i].Open?;
    if i < |ts| - 1 {
      assert ts[..|ts| - 1][i].Open?;
      OpensPositive(ts[..|ts| - 1]);
    }
  }

  lemma LateIsNoExpression(keep: string -> bool, t: Tree)
    requires Late(Run(keep, Start, Frontier(t)))
    ensures !IsExpression(Run(keep, Start, Frontier(t)).out)
  {
    hide Run, Frontier, Squeeze;
    var e := Run(keep, Start, Frontier(t));
    RunBalance(keep, Start, Frontier(t));
    FrontierNeverSinks(t, 0);
    assert Opens([]) == 0 && Depth([]) == 0;
    if HasOpen(e.pending) {
      OpensPositive(e.pending);
    }
    OpenThenOpHasOpen(e.pending);
    if IsExpression(e.out) {
      var u: Tree :| Frontier(u) == e.out;
      FrontierShape(u);
      FrontierNeverSinks(u, 0);
    }
  }

  lemma OpenThenOpHasOpen(ts: seq<Token>)
    ensures OpenThenOp(ts) ==> HasOpen(ts)
  {}

  lemma NothingKeptIsNoExpression(keep: string -> bool, t: Tree)
    requires !Kept(keep, t)
    ensures !IsExpression(Run(keep, Start, Frontier(t)).out)
  {
    hide Run, Frontier;
    RunKeepsDoom(keep, Start, Frontier(t));
    SeenAfter(keep, Start, t);
    var e := Run(keep, Start, Frontier(t));
    if IsExpression(e.out) {
      var u: Tree :| Frontier(u) == e.out;
      FrontierShape(u);
    }
  }

  // ---------------------------------------------------------------------
  // Well kept brackets give an expression
  // ---------------------------------------------------------------------

  /** What is pending before a part that keeps a licence. */
  ghost predicate Ready(keep: string -> bool, s: State, t: Tree) {
    && AllPending(s.pending)
    && (s.licenses != [] ==> OpsThenOpens(s.pending) && (HasOpen(s.pending) ==> keep(FirstLeaf(t))))
  }

  ghost predicate OnlyOps(ts: seq<Token>) {
    forall i :: 0 <= i < |ts| ==> ts[i].Operator?
  }

  /** A part that keeps nothing has no brackets and only adds operators. */
  lemma {:induction false} SkippedPart(keep: string -> bool, s: State, t: Tree) returns (ops: seq<Token>)
    requires !Kept(keep, t) && WellKept(keep, t, s.licenses != [])
    ensures OnlyOps(ops) && Run(keep, s, Frontier(t)) == s.(pending := s.pending + ops)
    decreases t
  {
    hide Run, Frontier;
    match t
    case Lic(n) =>
      RunOfName(keep, s, n);
      ops := [];
      assert s.pending + [] == s.pending;
    case Bin(op, l, r) =>
      RunOfBin(keep, s, op, l, r);
      var xs := SkippedPart(keep, s, l);
      var mid := Step(keep, s.(pending := s.pending + xs), Operator(op));
      var ys := SkippedPart(keep, mid, r);
      ops := xs + [Operator(op)] + ys;
      Assoc(s.pending, xs, [Operator(op)], ys);
  }

  function Lead(seen: bool, op: Op, k: nat): seq<Token> {
    (if seen then [Operator(op)] else []) + OpenTokens(k)
  }

  lemma FlushReady(keep: string -> bool, s: State, t: Tree) returns (op: Op)
    requires Ready(keep, s, t)
    ensures Flush(s) == Lead(s.licenses != [], op, Opens(s.pending))
  {
    hide Squeeze, Written;
    if s.licenses != [] {
      op := SqueezeOpsThenOpens(s.pending);
      WrittenSeen(Squeeze(s.pending));
    } else {
      op := And;
      SqueezeShape(s.pending);
      WrittenUnseen(Squeeze(s.pending));
    }
  }

  lemma OpsAfterOps(xs: seq<Token>, ys: seq<Token>)
    requires xs == [] || OpsThenOpens(xs)
    requires !HasOpen(xs) && OnlyOps(ys) && ys != []
    ensures OpsThenOpens(xs + ys) && !HasOpen(xs + ys)
  {
    if xs != [] {
      assert (xs + ys)[0] == xs[0];
    } else {
      assert (xs + ys)[0] == ys[0];
    }
    forall i | 0 <= i < |xs + ys|
      ensures (xs + ys)[i].Operator?
    {
      if i < |xs| { assert IsPending(xs[i]); }
    }
  }

  /** A part that keeps a licence is written, after what was pending, as an expression. */
  lemma {:induction false} KeptPart(keep: string -> bool, s: State, t: Tree) returns (u: Tree, op: Op)
    requires Kept(keep, t) && WellKept(keep, t, s.licenses != []) && Ready(keep, s, t)
    ensures var e := Run(keep, s, Frontier(t));
            e.out == s.out + Lead(s.licenses != [], op, Opens(s.pending)) + Frontier(u) && OnlyOps(e.pending)
    decreases t
  {
    hide Run, Frontier, Lead, Flush, Opens, Ready, OnlyOps;
    match t
    case Lic(n) =>
      RunOfName(keep, s, n);
      u := t;
      op := FlushReady(keep, s, t);
      FrontierOf(n);
      NoOps();
    case Bin(o, l, r) =>
      RunOfBin(keep, s, o, l, r);
      SeenAfter(keep, s, l);
      var mid := Run(keep, s, Frontier(l));
      var next := Step(keep, mid, Operator(o));
      if Kept(keep, l) {
        ReadyLeft(keep, s, o, l, r);
        var ul: Tree;
        ul, op := KeptPart(keep, s, l);
        if Kept(keep, r) {
          ReadyAfterOps(keep, mid, o, r);
          var ur, or := KeptPart(keep, next, r);
          u := Bin(or, ul, ur);
          LeadOfOps(or, next.pending);
          FrontierOfBin(or, ul, ur);
          Assoc(s.out + Lead(s.licenses != [], op, Opens(s.pending)), Frontier(ul), [Operator(or)], Frontier(ur));
        } else {
          u := ul;
          var more := SkippedPart(keep, next, r);
          OpsPlus(mid.pending, [Operator(o)] + more, o, more);
        }
      } else {
        var more := SkippedPart(keep, s, l);
        ReadyAfterSkip(keep, s, o, l, r, more);
        u, op := KeptPart(keep, next, r);
      }
    case Group(i) =>
      RunOfGroup(keep, s, i);
      var inner := Step(keep, s, Open);
      ReadyInside(keep, s, i);
      var ui: Tree;
      ui, op := KeptPart(keep, inner, i);
      u := Group(ui);
      FrontierOfGroup(s, op, ui);
      Assoc(s.out, Lead(s.licenses != [], op, Opens(s.pending)), [Open] + Frontier(ui), [Close]);
  }

  lemma FrontierOf(n: string)
    ensures Frontier(Lic(n)) == [Name(n)]
  {}

  lemma FrontierOfBin(op: Op, l: Tree, r: Tree)
    ensures Frontier(Bin(op, l, r)) == Frontier(l) + [Operator(op)] + Frontier(r)
  {}

  lemma NoOps()
    ensures OnlyOps([])
  {}

  lemma FrontierOfGroup(s: State, op: Op, ui: Tree)
    ensures Frontier(Group(ui)) == [Open] + Frontier(ui) + [Close]
    ensures Opens(s.pending + [Open]) == Opens(s.pending) + 1
    ensures s.out + Lead(s.licenses != [], op, Opens(s.pending) + 1) + Frontier(ui) + [Close]
            == s.out + Lead(s.licenses != [], op, Opens(s.pending)) + ([Open] + Frontier(ui) + [Close])
  {
    var k := Opens(s.pending);
    OpensSnoc(s.pending, Open);
    assert Lead(s.licenses != [], op, k + 1) == Lead(s.licenses != [], op, k) + [Open];
    var a, b, c := s.out, Lead(s.licenses != [], op, k), Frontier(ui);
    assert a + (b + [Open]) + c + [Close] == a + b + ([Open] + c + [Close]);
  }

  lemma ReadyLeft(keep: string -> bool, s: State, op: Op, l: Tree, r: Tree)
    requires Ready(keep, s, Bin(op, l, r))
    ensures Ready(keep, s, l)
  {}

  lemma ReadyAfterOps(keep: string -> bool, s: State, op: Op, r: Tree)
    requires OnlyOps(s.pending)
    ensures Ready(keep, Step(keep, s, Operator(op)), r)
    ensures Opens(Step(keep, s, Operator(op)).pending) == 0
  {
    hide Opens, FirstLeaf;
    var next := s.pending + [Operator(op)];
    forall i | 0 <= i < |next|
      ensures next[i].Operator?
    {
      if i < |s.pending| { assert next[i] == s.pending[i]; }
    }
    NoOpens(next, Operator(op));
  }

  lemma LeadOfOps(op: Op, pending: seq<Token>)
    requires Opens(pending) == 0
    ensures Lead(true, op, Opens(pending)) == [Operator(op)]
  {}

  lemma OpsPlus(xs: seq<Token>, ys: seq<Token>, op: Op, more: seq<Token>)
    requires OnlyOps(xs) && OnlyOps(more) && ys == [Operator(op)] + more
    ensures OnlyOps(xs + [Operator(op)] + more)
  {}

  lemma ReadyAfterSkip(keep: string -> bool, s: State, op: Op, l: Tree, r: Tree, more: seq<Token>)
    requires Ready(keep, s, Bin(op, l, r)) && !Kept(keep, l) && OnlyOps(more)
    ensures var next := Step(keep, s.(pending := s.pending + more), Operator(op));
            Ready(keep, next, r) && Opens(next.pending) == Opens(s.pending)
  {
    var next := Step(keep, s.(pending := s.pending + more), Operator(op));
    var ys := more + [Operator(op)];
    assert next.pending == s.pending + ys;
    OpensPlusOps(s.pending, ys);
    NoneKept(keep, l);
    if s.licenses != [] {
      OpsAfterOps(s.pending, ys);
    }
  }

  lemma {:induction false} OpensPlusOps(xs: seq<Token>, ys: seq<Token>)
    requires OnlyOps(ys)
    ensures Opens(xs + ys) == Opens(xs)
    decreases |ys|
  {
    if ys == [] {
      assert xs + ys == xs;
    } else {
      var init, last := ys[..|ys| - 1], ys[|ys| - 1];
      assert xs + ys == (xs + init) + [last];
      OpensPlusOps(xs, init);
      OpensSnoc(xs + init, last);
    }
  }

  lemma ReadyInside(keep: string -> bool, s: State, i: Tree)
    requires Ready(keep, s, Group(i)) && WellKept(keep, Group(i), s.licenses != [])
    ensures Ready(keep, Step(keep, s, Open), i)
  {
    var next := s.pending + [Open];
    if s.licenses != [] {
      assert next[0] == s.pending[0];
      assert forall k :: 0 <= k < |s.pending| ==> next[k] == s.pending[k];
    }
  }

  // ---------------------------------------------------------------------
  // Exactly when
  // ---------------------------------------------------------------------

  lemma FilteredTokens(keep: string -> bool, t: Tree)
    ensures IsExpression(Run(keep, Start, Frontier(t)).out) <==> Kept(keep, t) && WellKept(keep, t, false)
  {
    hide Run, Frontier, Late, Opens;
    if !Kept(keep, t) {
      NothingKeptIsNoExpression(keep, t);
    } else if !WellKept(keep, t, false) {
      BadlyKeptDooms(keep, Start, t);
      LateIsNoExpression(keep, t);
    } else {
      var u, op := KeptPart(keep, Start, t);
      assert Opens([]) == 0 by { NoOpens([], Open); }
      assert Run(keep, Start, Frontier(t)).out == Frontier(u);
    }
  }

  /** `s` has the elements of some licence expression. */
  ghost predicate Parses(s: string) {
    exists u: Tree :: Elements(s) == Ok(ElementsOf(Frontier(u)))
  }

  /** A filtered manifest string is a licence expression exactly when some licence is
      kept, every bracket keeps one, and every bracket keeps its first one unless no
      licence is kept before it. */
  lemma ManifestParsesIff(keep: string -> bool, t: Tree)
    requires ValidNames(t)
    ensures Parses(ManifestText(keep, t)) <==> Kept(keep, t) && WellKept(keep, t, false)
  {
    hide Run, Frontier, Elements, ElementsOf, Kept, WellKept;
    var out := Run(keep, Start, Frontier(t)).out;
    ManifestElements(keep, t);
    FilteredTokens(keep, t);
    if Parses(ManifestText(keep, t)) {
      var u: Tree :| Elements(ManifestText(keep, t)) == Ok(ElementsOf(Frontier(u)));
      ElementsOfInjective(Frontier(u), out);
      assert IsExpression(out);
    }
    if IsExpression(out) {
      var u: Tree :| Frontier(u) == out;
      assert Parses(ManifestText(keep, t));
    }
  }

  /** Whatever is filtered, the list returned is the licences kept, in order. */
  lemma ManifestList(keep: string -> bool, t: Tree)
    ensures Run(keep, Start, Frontier(t)).licenses == Filter(keep, Leaves(t))
  {
    hide Run, Frontier;
    RunLicenses(keep, Start, t);
    assert [] + Filter(keep, Leaves(t)) == Filter(keep, Leaves(t));
  }
}
