/** oe.license.manifest_licenses: the walk that writes a licence string back. */
module LicenseManifest {
  import opened LicenseTokens
  import opened LicenseTrees

  /** The walker's state with the text kept as tokens: what is written, the operators
      and opening brackets still pending, and the licences written so far. */
  datatype State = State(out: seq<Token>, pending: seq<Token>, licenses: seq<string>)

  const Start := State([], [], [])

  /** Pending operators as they are about to be written: of operators in a row only
      the last one stays; brackets all stay. */
  function Squeeze(ops: seq<Token>): seq<Token> {
    if ops == [] then []
    else
      var kept, op := Squeeze(ops[..|ops| - 1]), ops[|ops| - 1];
      if op.Open? || kept == [] || kept[|kept| - 1].Open? then kept + [op]
      else kept[|kept| - 1 := op]
  }

  /** No operator is written before the first licence. */
  function Written(ops: seq<Token>, seen: bool): seq<Token> {
    if ops == [] then []
    else (if ops[0].Open? || seen then [ops[0]] else []) + Written(ops[1..], seen)
  }

  function Flush(s: State): seq<Token> {
    Written(Squeeze(s.pending), s.licenses != [])
  }

  function Step(keep: string -> bool, s: State, t: Token): State {
    match t
    case Name(n) =>
      if keep(n) then State(s.out + Flush(s) + [Name(n)], [], s.licenses + [n]) else s
    case Operator(_) => s.(pending := s.pending + [t])
    case Open => s.(pending := s.pending + [t])
    case Close => s.(out := s.out + [Close])
  }

  function Run(keep: string -> bool, s: State, ts: seq<Token>): State
    decreases |ts|
  {
    if ts == [] then s else Run(keep, Step(keep, s, ts[0]), ts[1..])
  }

  lemma {:induction false} RunAppend(keep: string -> bool, s: State, xs: seq<Token>, ys: seq<Token>)
    ensures Run(keep, s, xs + ys) == Run(keep, Run(keep, s, xs), ys)
    decreases |xs|
  {
    if xs == [] {
      assert xs + ys == ys;
    } else {
      assert (xs + ys)[1..] == xs[1..] + ys;
      RunAppend(keep, Step(keep, s, xs[0]), xs[1..], ys);
    }
  }

  /** The walk over a tree, part by part. */
  lemma RunOfBin(keep: string -> bool, s: State, op: Op, l: Tree, r: Tree)
    ensures Run(keep, s, Frontier(Bin(op, l, r)))
            == Run(keep, Step(keep, Run(keep, s, Frontier(l)), Operator(op)), Frontier(r))
  {
    hide Step;
    RunAppend(keep, s, Frontier(l) + [Operator(op)], Frontier(r));
    RunAppend(keep, s, Frontier(l), [Operator(op)]);
    assert [Operator(op)][1..] == [];
  }

  lemma RunOfGroup(keep: string -> bool, s: State, i: Tree)
    ensures Run(keep, s, Frontier(Group(i)))
            == Step(keep, Run(keep, Step(keep, s, Open), Frontier(i)), Close)
  {
    hide Step;
    RunAppend(keep, s, [Open] + Frontier(i), [Close]);
    RunAppend(keep, s, [Open], Frontier(i));
    assert [Open][1..] == [] && [Close][1..] == [];
  }

  lemma RunOfName(keep: string -> bool, s: State, n: string)
    ensures Run(keep, s, Frontier(Lic(n))) == Step(keep, s, Name(n))
  {
    assert [Name(n)][1..] == [];
  }

  // ---------------------------------------------------------------------
  // The visitor
  // ---------------------------------------------------------------------

  /** Brackets as the source writes them while it walks. */
  function Bracketed(t: Token): string {
    match t
    case Name(n) => n
    case Operator(op) => " " + OpText(op) + " "
    case Open => "["
    case Close => "]"
  }

  function BracketedText(ts: seq<Token>): string {
    if ts == [] then "" else Bracketed(ts[0]) + BracketedText(ts[1..])
  }

  lemma {:induction false} BracketedAppend(xs: seq<Token>, ys: seq<Token>)
    ensures BracketedText(xs + ys) == BracketedText(xs) + BracketedText(ys)
  {
    hide Bracketed;
    if xs == [] {
      assert xs + ys == ys;
    } else {
      assert (xs + ys)[1..] == xs[1..] + ys;
      BracketedAppend(xs[1..], ys);
    }
  }

  lemma TextSnoc(ts: seq<Token>, t: Token)
    ensures BracketedText(ts + [t]) == BracketedText(ts) + Bracketed(t)
  {
    hide Bracketed;
    BracketedAppend(ts, [t]);
    assert [t][1..] == [];
  }

  lemma WrittenSnoc(ops: seq<Token>, op: Token, seen: bool)
    ensures Written(ops + [op], seen) == Written(ops, seen) + (if op.Open? || seen then [op] else [])
  {
    if ops != [] {
      assert (ops + [op])[1..] == ops[1..] + [op];
      WrittenSnoc(ops[1..], op, seen);
    } else {
      assert ([] + [op])[1..] == [];
    }
  }

  /** The first loop over the pending operators. */
  method SqueezeOperators(operators: seq<Token>) returns (ops: seq<Token>)
    ensures ops == Squeeze(operators)
  {
    ops := [];
    for i := 0 to |operators|
      invariant ops == Squeeze(operators[..i])
    {
      var op := operators[i];
      assert operators[..i + 1][..i] == operators[..i];
      if op.Open? {
        ops := ops + [op];
      } else if ops == [] {
        ops := ops + [op];
      } else if ops[|ops| - 1].Open? {
        ops := ops + [op];
      } else {
        ops := ops[|ops| - 1 := op];
      }
    }
    assert operators[..|operators|] == operators;
  }

  class ManifestVisitor {
    const keep: string -> bool
    var operators: seq<Token>
    var licenses: seq<string>
    var licensestr: string

    constructor (keep: string -> bool)
      ensures this.keep == keep && Shows(Start)
    {
      this.keep := keep;
      operators, licenses, licensestr := [], [], "";
    }

    ghost predicate Shows(s: State)
      reads this
    {
      licensestr == BracketedText(s.out) && operators == s.pending && licenses == s.licenses
    }

    method Visit(t: Tree, ghost s: State)
      requires Shows(s)
      modifies this
      ensures Shows(Run(keep, s, Frontier(t)))
      decreases t
    {
      match t
      case Lic(n) =>
        RunOfName(keep, s, n);
        VisitName(n, s);
      case Bin(op, l, r) =>
        RunOfBin(keep, s, op, l, r);
        Visit(l, s);
        operators := operators + [Operator(op)];
        Visit(r, Step(keep, Run(keep, s, Frontier(l)), Operator(op)));
      case Group(i) =>
        RunOfGroup(keep, s, i);
        operators := operators + [Open];
        ghost var inner := Step(keep, s, Open);
        Visit(i, inner);
        ghost var after := Run(keep, inner, Frontier(i));
        TextSnoc(after.out, Close);
        licensestr := licensestr + "]";
    }

    method VisitName(lic: string, ghost s: State)
      requires Shows(s)
      modifies this
      ensures Shows(Step(keep, s, Name(lic)))
    {
      if keep(lic) {
        var ops := SqueezeOperators(operators);
        WriteOperators(ops);
        NameText(s, lic);
        operators := [];
        licensestr := licensestr + lic;
        licenses := licenses + [lic];
      }
    }

    /** The second loop over the pending operators. */
    method WriteOperators(ops: seq<Token>)
      modifies this`licensestr
      ensures licensestr == old(licensestr) + BracketedText(Written(ops, licenses != []))
    {
      hide Bracketed;
      ghost var seen := licenses != [];
      for i := 0 to |ops|
        invariant licensestr == old(licensestr) + BracketedText(Written(ops[..i], seen))
      {
        var op := ops[i];
        assert ops[..i + 1] == ops[..i] + [op];
        WrittenSnoc(ops[..i], op, seen);
        TextSnoc(Written(ops[..i], seen), op);
        assert Written(ops[..i], seen) + [] == Written(ops[..i], seen);
        if op.Open? {
          licensestr := licensestr + Bracketed(op);
        } else if licenses != [] {
          licensestr := licensestr + Bracketed(op);
        }
      }
      assert ops[..|ops|] == ops;
    }
  }

  lemma NameText(s: State, lic: string)
    ensures BracketedText(s.out) + BracketedText(Flush(s)) + lic == BracketedText(s.out + Flush(s) + [Name(lic)])
  {
    hide BracketedText, Flush;
    BracketedAppend(s.out, Flush(s));
    TextSnoc(s.out + Flush(s), Name(lic));
  }

  /** str.replace for one character. */
  function Replace(s: string, from: char, to: char): string {
    seq(|s|, i requires 0 <= i < |s| => if s[i] == from then to else s[i])
  }

  function ParenText(s: string): string {
    Replace(Replace(s, '[', '('), ']', ')')
  }

  /** license_ok on the canonical name. */
  predicate LicenseOk(fnmatch: (string, string) -> bool, license: string, dontWant: seq<string>) {
    forall i :: 0 <= i < |dontWant| ==> !fnmatch(license, dontWant[i])
  }

  function Keep(fnmatch: (string, string) -> bool, canonical: string -> string, dontWant: seq<string>): string -> bool {
    l => LicenseOk(fnmatch, canonical(l), dontWant)
  }

  method ManifestLicenses(t: Tree, fnmatch: (string, string) -> bool, canonical: string -> string,
                          dontWant: seq<string>)
    returns (licensestr: string, licenses: seq<string>)
    ensures var s := Run(Keep(fnmatch, canonical, dontWant), Start, Frontier(t));
            licensestr == ParenText(BracketedText(s.out)) && licenses == s.licenses
  {
    var manifest := new ManifestVisitor(Keep(fnmatch, canonical, dontWant));
    manifest.Visit(t, Start);
    return ParenText(manifest.licensestr), manifest.licenses;
  }
}
