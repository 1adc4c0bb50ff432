/** Licence expressions: any tree that has the given tokens from left to right. */
module LicenseTrees {
  import opened LicenseTokens

  datatype Tree =
    | Lic(name: string)
    | Bin(op: Op, left: Tree, right: Tree)
    | Group(inner: Tree)  // a parenthesised expression

  /** The tokens of a tree, from left to right. */
  function Frontier(t: Tree): (ts: seq<Token>)
    ensures ts != []
  {
    match t
    case Lic(n) => [Name(n)]
    case Bin(op, l, r) => Frontier(l) + [Operator(op)] + Frontier(r)
    case Group(i) => [Open] + Frontier(i) + [Close]
  }

  /** The licences of a tree, from left to right. */
  function Leaves(t: Tree): seq<string> {
    match t
    case Lic(n) => [n]
    case Bin(_, l, r) => Leaves(l) + Leaves(r)
    case Group(i) => Leaves(i)
  }

  function Filter(p: string -> bool, xs: seq<string>): (ys: seq<string>)
    ensures |ys| <= |xs|
    ensures forall y :: y in ys <==> y in xs && p(y)
  {
    if xs == [] then [] else (if p(xs[0]) then [xs[0]] else []) + Filter(p, xs[1..])
  }

  lemma {:induction false} FilterAppend(p: string -> bool, xs: seq<string>, ys: seq<string>)
    ensures Filter(p, xs + ys) == Filter(p, xs) + Filter(p, ys)
  {
    if xs == [] {
      assert xs + ys == ys;
    } else {
      assert (xs + ys)[1..] == xs[1..] + ys;
      FilterAppend(p, xs[1..], ys);
    }
  }
}
