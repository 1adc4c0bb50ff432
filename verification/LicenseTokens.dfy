/** Licence strings and the elements they are cut into. */
module LicenseTokens {
  import opened PyStrings

  datatype Result<+T> = Ok(value: T) | InvalidLicense(license: string)

  predicate IsOperatorChar(c: char) {
    c in {'&', '|', '(', ')', ' '}
  }

  predicate IsLicenseChar(c: char) {
    'a' <= c <= 'z' || 'A' <= c <= 'Z' || '0' <= c <= '9' || c in {'.', '+', '_', '-'}
  }

  predicate ValidName(s: string) {
    s != "" && forall i :: 0 <= i < |s| ==> IsLicenseChar(s[i])
  }

  /** The licence pattern ends in `$`, which also accepts one final newline. */
  predicate IsLicense(s: string) {
    ValidName(s) || (s != "" && s[|s| - 1] == '\n' && ValidName(s[..|s| - 1]))
  }

  /** Splitting at operator characters, with the operators kept as pieces. */
  function Pieces(s: string): (ps: seq<string>)
    ensures |ps| > 0
  {
    if s == "" then [""]
    else
      var rest := Pieces(s[1..]);
      if IsOperatorChar(s[0]) then ["", [s[0]]] + rest else [[s[0]] + rest[0]] + rest[1..]
  }

  function NonBlank(ps: seq<string>): seq<string> {
    if ps == [] then [] else (if IsBlank(ps[0]) then [] else [ps[0]]) + NonBlank(ps[1..])
  }

  function Quoted(s: string): string {
    "\"" + s + "\""
  }

  /** The elements made of the first `k` pieces; adjacent licences get an `&`. */
  function ElementsUpTo(ps: seq<string>, k: nat): Result<seq<string>>
    requires k <= |ps|
  {
    if k == 0 then Ok([])
    else
      match ElementsUpTo(ps, k - 1)
      case InvalidLicense(l) => InvalidLicense(l)
      case Ok(es) =>
        var p := ps[k - 1];
        if IsLicense(p) then
          Ok(es + (if k > 1 && IsLicense(ps[k - 2]) then ["&"] else []) + [Quoted(p)])
        else if p != "" && IsOperatorChar(p[0]) then Ok(es + [p])
        else InvalidLicense(p)
  }

  function Elements(s: string): Result<seq<string>> {
    var ps := NonBlank(Pieces(s));
    ElementsUpTo(ps, |ps|)
  }

  lemma {:induction false} InvalidStays(ps: seq<string>, k: nat, m: nat)
    requires k <= m <= |ps| && ElementsUpTo(ps, k).InvalidLicense?
    ensures ElementsUpTo(ps, m) == ElementsUpTo(ps, k)
  {
    if k < m { InvalidStays(ps, k, m - 1); }
  }

  method GetElements(s: string) returns (r: Result<seq<string>>)
    ensures r == Elements(s)
  {
    var elements := NonBlank(Pieces(s));
    var out := [];
    for pos := 0 to |elements|
      invariant ElementsUpTo(elements, pos) == Ok(out)
    {
      var element := elements[pos];
      assert out + [] == out;
      if IsLicense(element) {
        if pos > 0 && IsLicense(elements[pos - 1]) {
          out := out + ["&"];
        }
        element := Quoted(element);
      } else if !(element != "" && IsOperatorChar(element[0])) {
        InvalidStays(elements, pos + 1, |elements|);
        return InvalidLicense(element);
      }
      out := out + [element];
    }
    r := Ok(out);
  }

  // ---------------------------------------------------------------------
  // Tokens and their texts
  // ---------------------------------------------------------------------

  datatype Op = And | Or

  datatype Token = Name(name: string) | Operator(op: Op) | Open | Close

  function OpText(op: Op): string {
    if op == And then "&" else "|"
  }

  /** A token as it stands in a licence string, and as an element. */
  function Raw(t: Token): string {
    match t
    case Name(n) => n
    case Operator(op) => OpText(op)
    case Open => "("
    case Close => ")"
  }

  function ElementOf(t: Token): string {
    if t.Name? then Quoted(t.name) else Raw(t)
  }

  function ElementsOf(ts: seq<Token>): seq<string> {
    seq(|ts|, i requires 0 <= i < |ts| => ElementOf(ts[i]))
  }

  /** The licence string of a token sequence, with operators spaced. */
  function Render(ts: seq<Token>): string {
    if ts == [] then ""
    else (if ts[0].Operator? then " " + Raw(ts[0]) + " " else Raw(ts[0])) + Render(ts[1..])
  }

  ghost predicate ValidTokens(ts: seq<Token>) {
    && (forall i :: 0 <= i < |ts| && ts[i].Name? ==> ValidName(ts[i].name))
    && (forall i :: 0 < i < |ts| ==> !(ts[i - 1].Name? && ts[i].Name?))
  }

  lemma {:induction false} PiecesAppend(a: string, c: char, b: string)
    requires IsOperatorChar(c)
    ensures Pieces(a + [c] + b) == Pieces(a) + [[c]] + Pieces(b)
  {
    hide IsOperatorChar;
    var s := a + [c] + b;
    if a == "" {
      assert s[0] == c && s[1..] == b;
      assert Pieces(a) == [""];
    } else {
      assert s[0] == a[0] && s[1..] == a[1..] + [c] + b;
      PiecesAppend(a[1..], c, b);
      PieceInFront(a[0], Pieces(a[1..]), [[c]] + Pieces(b));
      assert Pieces(s[1..]) == Pieces(a[1..]) + ([[c]] + Pieces(b));
    }
  }

  /** One more character in front of the pieces. */
  lemma PieceInFront(c: char, left: seq<string>, right: seq<string>)
    requires left != []
    ensures (left + right)[0] == left[0]
    ensures ["", [c]] + (left + right) == (["", [c]] + left) + right
    ensures [[c] + left[0]] + (left + right)[1..] == ([[c] + left[0]] + left[1..]) + right
  {}

  lemma {:induction false} NonBlankAppend(xs: seq<string>, ys: seq<string>)
    ensures NonBlank(xs + ys) == NonBlank(xs) + NonBlank(ys)
  {
    hide IsBlank;
    if xs == [] {
      assert xs + ys == ys;
    } else {
      assert (xs + ys)[1..] == xs[1..] + ys;
      NonBlankAppend(xs[1..], ys);
    }
  }

  function Cut(s: string): seq<string> {
    NonBlank(Pieces(s))
  }

  lemma CutAppend(a: string, c: char, b: string)
    requires IsOperatorChar(c)
    ensures Cut(a + [c] + b) == Cut(a) + (if c == ' ' then [] else [[c]]) + Cut(b)
  {
    hide Pieces, NonBlank, IsOperatorChar;
    PiecesAppend(a, c, b);
    NonBlankAppend(Pieces(a) + [[c]], Pieces(b));
    NonBlankAppend(Pieces(a), [[c]]);
    NonBlankOfOperator(c);
  }

  lemma NonBlankOfOperator(c: char)
    requires IsOperatorChar(c)
    ensures NonBlank([[c]]) == if c == ' ' then [] else [[c]]
  {
    assert [[c]][1..] == [];
    assert [c][0] == c;
    assert IsBlank([c]) <==> IsSpace(c);
  }

  lemma CutLeadingOperator(c: char, b: string)
    requires IsOperatorChar(c)
    ensures Cut([c] + b) == (if c == ' ' then [] else [[c]]) + Cut(b)
  {
    CutAppend("", c, b);
    assert "" + [c] + b == [c] + b;
    assert Cut("") == [];
  }

  lemma {:induction false} PiecesOfName(n: string)
    requires forall i :: 0 <= i < |n| ==> IsLicenseChar(n[i])
    ensures Pieces(n) == [n]
  {
    if n == "" {
    } else {
      PiecesOfName(n[1..]);
      assert n == [n[0]] + n[1..];
    }
  }

  lemma CutName(n: string)
    requires ValidName(n)
    ensures Cut(n) == [n]
  {
    PiecesOfName(n);
    assert IsLicenseChar(n[0]) && !IsSpace(n[0]);
    assert !IsBlank(n);
    var ps := [n];
    assert ps[1..] == [] && NonBlank(ps) == [n] + NonBlank(ps[1..]);
  }

  function Raws(ts: seq<Token>): seq<string> {
    seq(|ts|, i requires 0 <= i < |ts| => Raw(ts[i]))
  }

  /** Cutting a rendered token sequence finds the tokens again. */
  lemma {:induction false} CutRender(ts: seq<Token>)
    requires ValidTokens(ts)
    ensures Cut(Render(ts)) == Raws(ts)
  {
    hide IsLicenseChar, Cut;
    if ts == [] {
      CutOfNothing();
    } else {
      var t, rest := ts[0], ts[1..];
      assert ValidTokens(rest) by {
        assert forall i :: 0 <= i < |rest| ==> rest[i] == ts[i + 1];
      }
      CutRender(rest);
      assert Raws(ts) == [Raw(t)] + Raws(rest);
      var tail := Render(rest);
      match t
      case Name(n) =>
        CutNameThen(n, rest);
      case Operator(op) =>
        CutOperatorThen(op, tail);
      case Open => CutLeadingOperator('(', tail);
      case Close => CutLeadingOperator(')', tail);
    }
  }

  lemma CutNameThen(n: string, rest: seq<Token>)
    requires ValidName(n) && (rest != [] ==> !rest[0].Name?)
    ensures Cut(n + Render(rest)) == [n] + Cut(Render(rest))
  {
    hide Pieces, NonBlank, IsLicenseChar;
    CutName(n);
    var tail := Render(rest);
    if rest == [] {
      assert n + tail == n;
      CutOfNothing();
    } else {
      var c := RenderStartsWithOperator(rest);
      CutAppend(n, c, tail[1..]);
      CutLeadingOperator(c, tail[1..]);
      assert [c] + tail[1..] == tail;
      assert n + [c] + tail[1..] == n + tail;
    }
  }

  lemma CutOperatorThen(op: Op, tail: string)
    ensures Cut(" " + OpText(op) + " " + tail) == [OpText(op)] + Cut(tail)
  {
    hide Pieces, NonBlank;
    var o := OpText(op)[0];
    CutLeadingOperator(' ', tail);
    CutLeadingOperator(o, " " + tail);
    CutLeadingOperator(' ', [o] + (" " + tail));
    assert " " + OpText(op) + " " + tail == " " + ([o] + (" " + tail));
  }

  lemma CutOfNothing()
    ensures Cut("") == []
  {}

  lemma RenderStartsWithOperator(ts: seq<Token>) returns (c: char)
    requires ts != [] && !ts[0].Name?
    ensures Render(ts) != "" && Render(ts)[0] == c && IsOperatorChar(c)
  {
    c := Render(ts)[0];
  }

  lemma {:induction false} ElementsOfRaws(ts: seq<Token>, k: nat)
    requires ValidTokens(ts) && k <= |ts|
    ensures ElementsUpTo(Raws(ts), k) == Ok(ElementsOf(ts[..k]))
  {
    hide IsLicense, IsOperatorChar, IsLicenseChar;
    if k == 0 {
    } else {
      ElementsOfRaws(ts, k - 1);
      var es := ElementsOf(ts[..k - 1]);
      RawIsLicense(ts[k - 1]);
      if k > 1 { RawIsLicense(ts[k - 2]); }
      assert Raws(ts)[k - 1] == Raw(ts[k - 1]);
      assert es + [] == es;
      assert ElementsOf(ts[..k]) == es + [ElementOf(ts[k - 1])];
    }
  }

  lemma RawIsLicense(t: Token)
    requires t.Name? ==> ValidName(t.name)
    ensures IsLicense(Raw(t)) <==> t.Name?
    ensures !t.Name? ==> Raw(t) != "" && IsOperatorChar(Raw(t)[0])
  {
    if !t.Name? {
      assert |Raw(t)| == 1 && !IsLicenseChar(Raw(t)[0]);
    }
  }

  /** Tokenising undoes rendering. */
  lemma ElementsOfRender(ts: seq<Token>)
    requires ValidTokens(ts)
    ensures Elements(Render(ts)) == Ok(ElementsOf(ts))
  {
    CutRender(ts);
    ElementsOfRaws(ts, |ts|);
    assert ts[..|ts|] == ts;
  }

  lemma ElementOfInjective(t: Token, u: Token)
    requires ElementOf(t) == ElementOf(u)
    ensures t == u
  {
    if t.Name? && u.Name? {
      assert Quoted(t.name)[1..|t.name| + 1] == t.name && Quoted(u.name)[1..|u.name| + 1] == u.name;
    } else {
      assert ElementOf(t)[0] == ElementOf(u)[0];
    }
  }

  lemma ElementsOfInjective(ts: seq<Token>, us: seq<Token>)
    requires ElementsOf(ts) == ElementsOf(us)
    ensures ts == us
  {
    hide ElementOf;
    assert |ElementsOf(ts)| == |ts| && |ElementsOf(us)| == |us|;
    forall i | 0 <= i < |ts|
      ensures ts[i] == us[i]
    {
      assert ElementsOf(ts)[i] == ElementsOf(us)[i];
      ElementOfInjective(ts[i], us[i]);
    }
  }
}
