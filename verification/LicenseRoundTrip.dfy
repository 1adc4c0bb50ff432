/** What manifest_licenses writes: everything again when nothing is left out, and
    otherwise a licence expression exactly when no bracket loses its start. */
module LicenseRoundTrip {
  import opened LicenseTokens
  import opened LicenseTrees
  import opened LicenseManifest

  predicate ValidNames(t: Tree) {
    forall n :: n in Leaves(t) ==> ValidName(n)
  }

  predicate Kept(keep: string -> bool, t: Tree) {
    match t
    case Lic(n) => keep(n)
    case Bin(_, l, r) => Kept(keep, l) || Kept(keep, r)
    case Group(i) => Kept(keep, i)
  }

  function FirstLeaf(t: Tree): string {
    match t
    case Lic(n) => n
    case Bin(_, l, _) => FirstLeaf(l)
    case Group(i) => FirstLeaf(i)
  }

  /** Every bracket keeps a licence, and its first one unless no licence kept comes
      before the bracket. */
  predicate WellKept(keep: string -> bool, t: Tree, seen: bool) {
    match t
    case Lic(_) => true
    case Bin(_, l, r) => WellKept(keep, l, seen) && WellKept(keep, r, seen || Kept(keep, l))
    case Group(i) => Kept(keep, i) && (seen ==> keep(FirstLeaf(i))) && WellKept(keep, i, seen)
  }

  predicate IsPending(t: Token) {
    t.Open? || t.Operator?
  }

  ghost predicate AllPending(ts: seq<Token>) {
    forall i :: 0 <= i < |ts| ==> IsPending(ts[i])
  }

  // ---------------------------------------------------------------------
  // The licence list
  // ---------------------------------------------------------------------

  lemma {:induction false} RunLicenses(keep: string -> bool, s: State, t: Tree)
    ensures Run(keep, s, Frontier(t)).licenses == s.licenses + Filter(keep, Leaves(t))
    decreases t
  {
    hide Run, Frontier, Filter, Flush;
    match t
    case Lic(n) =>
      RunOfName(keep, s, n);
      FilterOne(keep, n);
    case Bin(op, l, r) =>
      RunOfBin(keep, s, op, l, r);
      RunLicenses(keep, s, l);
      RunLicenses(keep, Step(keep, Run(keep, s, Frontier(l)), Operator(op)), r);
      FilterAppend(keep, Leaves(l), Leaves(r));
    case Group(i) =>
      RunOfGroup(keep, s, i);
      RunLicenses(keep, Step(keep, s, Open), i);
  }

  lemma FilterOne(keep: string -> bool, n: string)
    ensures keep(n) ==> Filter(keep, [n]) == [n]
    ensures !keep(n) ==> Filter(keep, [n]) == []
  {
    assert [n][1..] == [];
  }

  lemma {:induction false} KeptIffFiltered(keep: string -> bool, t: Tree)
    ensures Kept(keep, t) <==> Filter(keep, Leaves(t)) != []
    decreases t
  {
    match t
    case Lic(n) => assert [n][1..] == [];
    case Bin(_, l, r) =>
      KeptIffFiltered(keep, l);
      KeptIffFiltered(keep, r);
      FilterAppend(keep, Leaves(l), Leaves(r));
    case Group(i) => KeptIffFiltered(keep, i);
  }

  lemma SeenAfter(keep: string -> bool, s: State, t: Tree)
    ensures Run(keep, s, Frontier(t)).licenses != [] <==> s.licenses != [] || Kept(keep, t)
  {
    hide Run, Frontier, Filter;
    RunLicenses(keep, s, t);
    KeptIffFiltered(keep, t);
  }

  // ---------------------------------------------------------------------
  // Pending operators
  // ---------------------------------------------------------------------

  function Opens(ts: seq<Token>): nat {
    if ts == [] then 0 else Opens(ts[..|ts| - 1]) + if ts[|ts| - 1].Open? then 1 else 0
  }

  lemma OpensSnoc(ts: seq<Token>, t: Token)
    ensures Opens(ts + [t]) == Opens(ts) + if t.Open? then 1 else 0
  {
    assert (ts + [t])[..|ts|] == ts;
  }

  lemma {:induction false} SqueezeShape(ts: seq<Token>)
    requires AllPending(ts)
    ensures AllPending(Squeeze(ts)) && Opens(Squeeze(ts)) == Opens(ts)
    ensures ts != [] ==> Squeeze(ts) != [] && (Squeeze(ts)[|Squeeze(ts)| - 1].Open? <==> ts[|ts| - 1].Open?)
    decreases |ts|
  {
    if ts == [] {
    } else {
      var init, last := ts[..|ts| - 1], ts[|ts| - 1];
      SqueezeShape(init);
      var kept := Squeeze(init);
      assert IsPending(last);
      if last.Open? || kept == [] || kept[|kept| - 1].Open? {
        OpensSnoc(kept, last);
      } else {
        assert Squeeze(ts) == kept[..|kept| - 1] + [last];
        assert kept == kept[..|kept| - 1] + [kept[|kept| - 1]];
        OpensSnoc(kept[..|kept| - 1], last);
      }
    }
  }

  function OpenTokens(k: nat): seq<Token> {
    seq(k, _ => Open)
  }

  /** Before the first licence only the opening brackets are written. */
  lemma {:induction false} WrittenUnseen(ts: seq<Token>)
    requires AllPending(ts)
    ensures Written(ts, false) == OpenTokens(Opens(ts))
    decreases |ts|
  {
    if ts == [] {
    } else {
      var init, last := ts[..|ts| - 1], ts[|ts| - 1];
      assert ts == init + [last];
      WrittenUnseen(init);
      WrittenSnoc(init, last, false);
      assert IsPending(last);
    }
  }

  lemma {:induction false} WrittenSeen(ts: seq<Token>)
    ensures Written(ts, true) == ts
  {
    if ts == [] {
    } else {
      WrittenSeen(ts[1..]);
    }
  }

  /** Operators, at least one of them, then opening brackets. */
  ghost predicate OpsThenOpens(ts: seq<Token>) {
    && ts != [] && ts[0].Operator? && AllPending(ts)
    && forall i, j :: 0 <= i < j < |ts| && ts[i].Open? ==> ts[j].Open?
  }

  /** Of operators followed by brackets the last operator and the brackets are left. */
  lemma {:induction false} SqueezeOpsThenOpens(ts: seq<Token>) returns (op: Op)
    requires OpsThenOpens(ts)
    ensures Squeeze(ts) == [Operator(op)] + OpenTokens(Opens(ts))
    decreases |ts|
  {
    var init, last := ts[..|ts| - 1], ts[|ts| - 1];
    if init == [] {
      op := last.op;
      assert Squeeze(init) == [] && Opens(init) == 0;
      assert OpenTokens(0) == [];
    } else {
      assert forall i :: 0 <= i < |init| ==> init[i] == ts[i];
      op := SqueezeOpsThenOpens(init);
      var kept := Squeeze(init);
      assert IsPending(last);
      if last.Open? {
        assert kept + [last] == [Operator(op)] + OpenTokens(Opens(ts));
      } else {
        NoOpens(init, last);
        op := last.op;
        assert kept[|kept| - 1 := last] == [last];
      }
    }
  }

  lemma {:induction false} NoOpens(init: seq<Token>, last: Token)
    requires forall i :: 0 <= i < |init| ==> !init[i].Open?
    ensures Opens(init) == 0
  {
    if init == [] {
    } else {
      NoOpens(init[..|init| - 1], last);
    }
  }

  // ---------------------------------------------------------------------
  // Nothing left out
  // ---------------------------------------------------------------------

  /** Pending tokens when nothing is dropped: one operator, if a licence came before,
      then opening brackets. */
  ghost predicate Neat(ts: seq<Token>, seen: bool) {
    && (seen ==> ts != [] && ts[0].Operator?)
    && forall i :: (if seen then 1 else 0) <= i < |ts| ==> ts[i].Open?
  }

  lemma {:induction false} NeatIsSqueezed(ts: seq<Token>, seen: bool)
    requires Neat(ts, seen)
    ensures Squeeze(ts) == ts
    decreases |ts|
  {
    if ts == [] {
    } else {
      var init, last := ts[..|ts| - 1], ts[|ts| - 1];
      if init != [] {
        NeatIsSqueezed(init, seen);
      }
      assert init + [last] == ts;
    }
  }

  lemma {:induction false} WrittenOpens(ts: seq<Token>)
    requires forall i :: 0 <= i < |ts| ==> ts[i].Open?
    ensures Written(ts, false) == ts
  {
    if ts == [] {
    } else {
      WrittenOpens(ts[1..]);
    }
  }

  lemma NeatFlush(s: State)
    requires Neat(s.pending, s.licenses != [])
    ensures Flush(s) == s.pending
  {
    NeatIsSqueezed(s.pending, s.licenses != []);
    if s.licenses != [] { WrittenSeen(s.pending); } else { WrittenOpens(s.pending); }
  }

  /** With nothing left out the walk writes the tokens it reads. */
  lemma {:induction false} RunAll(keep: string -> bool, s: State, t: Tree)
    requires Neat(s.pending, s.licenses != []) && forall n :: n in Leaves(t) ==> keep(n)
    ensures Run(keep, s, Frontier(t)) == State(s.out + s.pending + Frontier(t), [], s.licenses + Leaves(t))
    decreases t
  {
    hide Run, Flush;
    match t
    case Lic(n) =>
      RunOfName(keep, s, n);
      NeatFlush(s);
      assert n in Leaves(t);
    case Bin(op, l, r) =>
      RunOfBin(keep, s, op, l, r);
      RunAll(keep, s, l);
      var mid := Step(keep, Run(keep, s, Frontier(l)), Operator(op));
      assert mid.pending == [Operator(op)];
      LeavesNonEmpty(l);
      RunAll(keep, mid, r);
      Assoc(s.out + s.pending, Frontier(l), [Operator(op)], Frontier(r));
      Assoc(s.licenses, Leaves(l), [], Leaves(r));
      assert Leaves(l) + [] == Leaves(l) && s.licenses + Leaves(l) + [] == s.licenses + Leaves(l);
    case Group(i) =>
      RunOfGroup(keep, s, i);
      var inner := Step(keep, s, Open);
      RunAll(keep, inner, i);
      Assoc(s.out + s.pending, [Open], Frontier(i), [Close]);
      Assoc(s.out, s.pending, [Open], []);
      assert s.out + s.pending + [Open] + [] == s.out + s.pending + [Open];
      assert s.pending + [Open] + [] == s.pending + [Open];
  }

  lemma Assoc<T>(a: seq<T>, b: seq<T>, c: seq<T>, d: seq<T>)
    ensures a + b + c + d == a + (b + c + d)
  {}

  lemma {:induction false} LeavesNonEmpty(t: Tree)
    ensures Leaves(t) != []
  {
    match t
    case Lic(_) =>
    case Bin(_, l, _) => LeavesNonEmpty(l);
    case Group(i) => LeavesNonEmpty(i);
  }

  // ---------------------------------------------------------------------
  // Tokens to text
  // ---------------------------------------------------------------------

  lemma ParenTextAppend(a: string, b: string)
    ensures ParenText(a + b) == ParenText(a) + ParenText(b)
  {}

  lemma ParenTextOfName(n: string)
    requires ValidName(n)
    ensures ParenText(n) == n
  {
    assert forall i :: 0 <= i < |n| ==> IsLicenseChar(n[i]);
  }

  lemma ParenTextOfNothing()
    ensures ParenText("") == ""
  {}

  lemma ParenTextOfOther(t: Token)
    requires !t.Name?
    ensures ParenText(Bracketed(t)) == if t.Operator? then " " + Raw(t) + " " else Raw(t)
  {}

  lemma {:induction false} ParenTextIsRender(ts: seq<Token>)
    requires forall i :: 0 <= i < |ts| && ts[i].Name? ==> ValidName(ts[i].name)
    ensures ParenText(BracketedText(ts)) == Render(ts)
  {
    hide ValidName, ParenText;
    if ts == [] {
      ParenTextOfNothing();
    } else {
      assert forall i :: 0 <= i < |ts[1..]| ==> ts[1..][i] == ts[i + 1];
      ParenTextIsRender(ts[1..]);
      ParenTextAppend(Bracketed(ts[0]), BracketedText(ts[1..]));
      if ts[0].Name? { ParenTextOfName(ts[0].name); } else { ParenTextOfOther(ts[0]); }
    }
  }

  /** Nothing written puts two licences side by side. */
  ghost predicate Sound(s: State) {
    && ValidTokens(s.out) && AllPending(s.pending)
    && (s.licenses == [] ==> forall i :: 0 <= i < |s.out| ==> s.out[i].Close?)
  }

  lemma NameSound(keep: string -> bool, s: State, n: string)
    requires Sound(s) && ValidName(n) && (s.licenses == [] || s.pending != [])
    ensures Sound(Step(keep, s, Name(n)))
  {
    hide ValidName, Squeeze, Written, Opens;
    var ops := Squeeze(s.pending);
    SqueezeShape(s.pending);
    if s.licenses != [] {
      WrittenSeen(ops);
      NameAfter(s.out, ops, n);
    } else {
      WrittenUnseen(ops);
      NameAfter(s.out, OpenTokens(Opens(ops)), n);
    }
  }

  lemma NameAfter(out: seq<Token>, ops: seq<Token>, n: string)
    requires ValidTokens(out) && AllPending(ops) && ValidName(n)
    requires ops != [] || forall i :: 0 <= i < |out| ==> out[i].Close?
    ensures ValidTokens(out + ops + [Name(n)])
  {
    hide ValidName;
  }

  lemma {:induction false} RunSound(keep: string -> bool, s: State, t: Tree)
    requires Sound(s) && ValidNames(t) && (s.licenses == [] || s.pending != [])
    ensures Sound(Run(keep, s, Frontier(t)))
    decreases t
  {
    hide Run, ValidName, Frontier;
    match t
    case Lic(n) =>
      RunOfName(keep, s, n);
      assert n in Leaves(t);
      NameSound(keep, s, n);
    case Bin(op, l, r) =>
      RunOfBin(keep, s, op, l, r);
      assert forall n :: n in Leaves(l) || n in Leaves(r) ==> n in Leaves(t);
      RunSound(keep, s, l);
      RunSound(keep, Step(keep, Run(keep, s, Frontier(l)), Operator(op)), r);
    case Group(i) =>
      RunOfGroup(keep, s, i);
      RunSound(keep, Step(keep, s, Open), i);
  }

  /** The text manifest_licenses returns for what the walk wrote. */
  function ManifestText(keep: string -> bool, t: Tree): string {
    ParenText(BracketedText(Run(keep, Start, Frontier(t)).out))
  }

  lemma ManifestElements(keep: string -> bool, t: Tree)
    requires ValidNames(t)
    ensures Elements(ManifestText(keep, t)) == Ok(ElementsOf(Run(keep, Start, Frontier(t)).out))
  {
    hide Run, Frontier, Elements;
    RunSound(keep, Start, t);
    var out := Run(keep, Start, Frontier(t)).out;
    ParenTextIsRender(out);
    ElementsOfRender(out);
  }

  /** Round trip: when no licence is left out, the string written has the elements of
      the string read, and the list has all its licences in order. */
  lemma ManifestRoundTrip(keep: string -> bool, t: Tree, input: string)
    requires ValidNames(t) && forall n :: n in Leaves(t) ==> keep(n)
    requires Elements(input) == Ok(ElementsOf(Frontier(t)))
    ensures Elements(ManifestText(keep, t)) == Elements(input)
    ensures Run(keep, Start, Frontier(t)).licenses == Leaves(t)
  {
    hide Run, Frontier, Elements, ValidNames;
    ManifestElements(keep, t);
    RunAll(keep, Start, t);
    assert [] + [] + Frontier(t) == Frontier(t) && [] + Leaves(t) == Leaves(t);
  }
}
