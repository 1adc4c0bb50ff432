/** Documents and groups that are not well formed: what json_read makes of them. */
module WebcfgEdges {
  import opened BinaryText
  import opened Options
  import opened Webcfg

  lemma {:induction false} KeysAppend(v: Vars, doc: Object, more: Object)
    ensures AfterKeys(v, doc + more) == AfterKeys(AfterKeys(v, doc), more)
    decreases |more|
  {
    if more == [] {
      assert doc + more == doc;
    } else {
      assert (doc + more)[..|doc + more| - 1] == doc + more[..|more| - 1];
      KeysAppend(v, doc, more[..|more| - 1]);
    }
  }

  /** A document that leaves a mandatory key open is read as one with the next document:
      the two together do what a single document with the members of both does. */
  lemma IncompleteJoinsNext(newer: Json -> Option<bool>, b: Bits, g: nat, docs: seq<Object>, doc: Object, next: Object)
    requires doc != [] && next != [] && !Complete(AfterKeys(Docs(newer, b, g, docs).1, doc))
    ensures Docs(newer, b, g, docs + [doc, next]) == Docs(newer, b, g, docs + [doc + next])
  {
    hide AfterKeys, Process, Complete;
    var all := docs + [doc, next];
    assert all[..|all| - 1] == docs + [doc] && (docs + [doc])[..|docs|] == docs;
    assert (docs + [doc + next])[..|docs|] == docs;
    KeysAppend(Docs(newer, b, g, docs).1, doc, next);
  }

  /** The bit position that a document gives: a number from 1 on, or True for 1. */
  ghost predicate HasPosition(doc: Object, p: nat) {
    Lookup(doc, "bitposition") == Num(p) || (Lookup(doc, "bitposition") == Bool(true) && p == 1)
  }

  lemma SingleDoc(newer: Json -> Option<bool>, b: Bits, g: nat, doc: Object)
    requires !b.failed && Complete(VarsOf(doc))
    ensures Docs(newer, b, g, [doc]).0 == Process(newer, b, g, VarsOf(doc))
  {
    hide Process, VarsOf;
    NotEmpty(doc);
    KeysFill(doc);
    assert [doc][..0] == [];
    assert Docs(newer, b, g, [doc]) == DocStep(newer, b, NoVars, g, doc);
  }

  lemma NotEmpty(doc: Object)
    requires Complete(VarsOf(doc))
    ensures doc != []
  {}

  /** A complete document makes json_read fail exactly when it is supported and has no bit
      position, or its group has no place in the list, or its version is not a number. */
  lemma DocFailsIff(newer: Json -> Option<bool>, b: Bits, g: nat, doc: Object)
    requires !b.failed && Complete(VarsOf(doc))
    ensures SupportedDocs(newer, b, g, [doc]).failed
            <==> && Lookup(doc, "support") == Bool(true)
                 && (|| (forall p: nat :: HasPosition(doc, p) ==> p == 0)
                     || g > |b.supported| || b.supported == []
                     || newer(Lookup(doc, "version")) == None)
  {
    hide BitCalc;
    SingleDoc(newer, b, g, doc);
    var v := Lookup(doc, "bitposition");
    assert AsInt(v).Some? && AsInt(v).value >= 0 ==> HasPosition(doc, AsInt(v).value) || v == Bool(false);
  }

  /** The group id 0 is taken for the last group of the file. */
  lemma GroupZeroIsLast(newer: Json -> Option<bool>, b: Bits, doc: Object)
    requires !b.failed && b.temp == NOTHING && b.supported != []
    requires WellFormed(newer, doc) && Lookup(doc, "support") == Bool(true)
    ensures SupportedDocs(newer, b, 0, [doc]).supported
            == b.supported[|b.supported| - 1 := Pow2(Lookup(doc, "bitposition").n - 1)]
  {
    hide Or, IntOf, FormatBin, AppendBit, Pow2;
    SingleDoc(newer, b, 0, doc);
    var p := Lookup(doc, "bitposition").n;
    NothingIsZero();
    OneBit(p);
  }

  lemma OneBit(p: nat)
    requires 1 <= p <= WIDTH
    ensures IntOf(AppendBit(0, FormatBin(Or(0, Pow2(p - 1)), 26))) == Pow2(p - 1)
  {
    hide IntOf, AppendBit, FormatBin, Pow2;
    PowGrows(p - 1, WIDTH);
    AppendBitPacks(0, Pow2(p - 1));
  }
}
