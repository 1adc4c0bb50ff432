/** webcfg's metadata_parser: the supported documents of each group packed into one
    number, by way of binary texts. */
module Webcfg {
  import opened BinaryText
  import opened Options

  /** A JSON value; Null is Python's None. */
  datatype Json = Null | Bool(b: bool) | Num(n: int) | Text(s: string) | Real(r: real)

  /** An object: its members in the order of the file. */
  type Object = seq<(string, Json)>

  /** The variables one document fills. */
  datatype Vars = Vars(name: Json, bitPos: Json, support: Json, version: Json)

  const NoVars := Vars(Null, Null, Null, Null)

  function Assign(v: Vars, key: string, value: Json): Vars {
    if key == "name" then v.(name := value)
    else if key == "bitposition" then v.(bitPos := value)
    else if key == "support" then v.(support := value)
    else if key == "version" then v.(version := value)
    else v
  }

  function AfterKeys(v: Vars, doc: Object): Vars {
    if doc == [] then v else Assign(AfterKeys(v, doc[..|doc| - 1]), doc[|doc| - 1].0, doc[|doc| - 1].1)
  }

  predicate Complete(v: Vars) {
    v.name != Null && v.bitPos != Null && v.support != Null && v.version != Null
  }

  /** Booleans are numbers to Python. */
  function AsInt(v: Json): Option<int> {
    match v
    case Num(n) => Some(n)
    case Bool(b) => Some(if b then 1 else 0)
    case _ => None
  }

  /** group_id - 1 as a list index: negative indices count from the end. */
  function IndexOf(g: nat, size: nat): Option<nat> {
    if g >= 1 && g - 1 < size then Some(g - 1)
    else if g == 0 && size > 0 then Some(size - 1)
    else None
  }

  /** The bits of the group so far, the numbers of all groups, and the document
      numbers of newer versions; `failed` is a Python exception. */
  datatype Bits = Bits(temp: string, supported: seq<nat>, versions: seq<(nat, Json)>, failed: bool)

  function AppendBit(g: nat, value: string): string {
    FormatBin(g, 10) + (if |value| < 2 then "" else value[2..])
  }

  const NOTHING := "0b0"

  /** bit_calc: the group text, the number of the group and that of the document. */
  function BitCalc(temp: string, bitPos: nat, g: nat): (string, nat, nat)
    requires bitPos > 0
  {
    var bit := Pow2(bitPos - 1);
    var group := FormatBin(Or(IntOf(temp), bit), 26);
    (group, IntOf(AppendBit(g, group)), IntOf(AppendBit(g, FormatBin(Or(0, bit), 26))))
  }

  /** What a complete document does; `newer` is float(version) > 1.0. */
  function Process(newer: Json -> Option<bool>, b: Bits, g: nat, v: Vars): Bits {
    if v.support != Bool(true) then b
    else
      var pos := AsInt(v.bitPos);
      if pos.None? || pos.value < 1 then b.(failed := true)
      else
        var (temp, group, single) := BitCalc(b.temp, pos.value, g);
        var at := IndexOf(g, |b.supported|);
        if at.None? then b.(temp := temp, failed := true)
        else
          var next := b.(temp := temp, supported := b.supported[at.value := group]);
          match newer(v.version)
          case None => next.(failed := true)
          case Some(yes) => if yes then next.(versions := b.versions + [(single, v.version)]) else next
  }

  /** One document: its variables may stay behind when it is not complete. */
  function DocStep(newer: Json -> Option<bool>, b: Bits, v: Vars, g: nat, doc: Object): (Bits, Vars) {
    if b.failed || doc == [] then (b, v)
    else
      var w := AfterKeys(v, doc);
      if Complete(w) then (Process(newer, b, g, w), NoVars) else (b, w)
  }

  function Docs(newer: Json -> Option<bool>, b: Bits, g: nat, docs: seq<Object>): (Bits, Vars) {
    if docs == [] then (b, NoVars)
    else
      var (c, v) := Docs(newer, b, g, docs[..|docs| - 1]);
      DocStep(newer, c, v, g, docs[|docs| - 1])
  }

  /** supported_docs: the group text starts afresh for the next group. */
  function SupportedDocs(newer: Json -> Option<bool>, b: Bits, g: nat, docs: seq<Object>): Bits {
    var c := Docs(newer, b, g, docs).0;
    if c.failed then c else c.(temp := NOTHING)
  }

  // ---------------------------------------------------------------------
  // The module's globals
  // ---------------------------------------------------------------------

  class Parser {
    var tempGroupBit: string
    var supportedBits: seq<nat>
    var supportedVersionBits: seq<(nat, Json)>
    const newer: Json -> Option<bool>

    constructor (newer: Json -> Option<bool>)
      ensures this.newer == newer && Shows(Bits(NOTHING, [], [], false))
    {
      this.newer := newer;
      tempGroupBit, supportedBits, supportedVersionBits := NOTHING, [], [];
    }

    ghost predicate Shows(b: Bits)
      reads this
    {
      tempGroupBit == b.temp && supportedBits == b.supported && supportedVersionBits == b.versions
    }

    method CalculateBit(bitPos: nat, g: nat) returns (group: nat, single: nat)
      requires bitPos > 0
      modifies this`tempGroupBit
      ensures (tempGroupBit, group, single) == BitCalc(old(tempGroupBit), bitPos, g)
    {
      var individual := NOTHING;
      var tempBit := FormatBin(Pow2(bitPos - 1), 0);
      FormatReadsBack(Pow2(bitPos - 1), 0);
      NothingIsZero();
      individual := FormatBin(Or(IntOf(individual), IntOf(tempBit)), 26);
      tempGroupBit := FormatBin(Or(IntOf(tempGroupBit), IntOf(tempBit)), 26);
      group := IntOf(AppendBit(g, tempGroupBit));
      single := IntOf(AppendBit(g, individual));
    }

    method ProcessDoc(g: nat, v: Vars, ghost b: Bits) returns (failed: bool)
      requires Shows(b) && !b.failed
      modifies this
      ensures Shows(Process(newer, b, g, v)) && failed == Process(newer, b, g, v).failed
    {
      if v.support == Bool(true) {
        var pos := AsInt(v.bitPos);
        if pos.None? || pos.value < 1 {
          return true;
        }
        var group, single := CalculateBit(pos.value, g);
        var at := IndexOf(g, |supportedBits|);
        if at.None? {
          return true;
        }
        supportedBits := supportedBits[at.value := group];
        var yes := newer(v.version);
        if yes.None? {
          return true;
        }
        if yes.value {
          supportedVersionBits := supportedVersionBits + [(single, v.version)];
        }
      }
      failed := false;
    }

    method ProcessDocs(g: nat, docs: seq<Object>, ghost b: Bits) returns (failed: bool)
      requires Shows(b) && !b.failed
      modifies this
      ensures Shows(SupportedDocs(newer, b, g, docs)) && failed == SupportedDocs(newer, b, g, docs).failed
    {
      hide Process;
      var v := NoVars;
      for count := 0 to |docs|
        invariant Shows(Docs(newer, b, g, docs[..count]).0) && !Docs(newer, b, g, docs[..count]).0.failed
        invariant v == Docs(newer, b, g, docs[..count]).1
      {
        var doc := docs[count];
        assert docs[..count + 1][..count] == docs[..count];
        ghost var before, start := Docs(newer, b, g, docs[..count]).0, v;
        for k := 0 to |doc|
          invariant v == if k == |doc| && doc != [] then DocStep(newer, before, start, g, doc).1
                         else AfterKeys(start, doc[..k])
          invariant Shows(if k == |doc| then DocStep(newer, before, start, g, doc).0 else before)
          invariant k == |doc| ==> !DocStep(newer, before, start, g, doc).0.failed
        {
          var (key, value) := doc[k];
          assert doc[..k + 1][..k] == doc[..k];
          v := Assign(v, key, value);
          if k + 1 == |doc| {
            assert doc[..k + 1] == doc;
            if Complete(v) {
              failed := ProcessDoc(g, v, before);
              if failed {
                DocsFail(newer, b, g, docs, count + 1);
                return;
              }
              v := NoVars;
            }
          }
        }
      }
      assert docs[..|docs|] == docs;
      tempGroupBit := NOTHING;
      failed := false;
    }
  }

  lemma NothingIsZero()
    ensures IntOf(NOTHING) == 0
  {
    assert NOTHING[2..] == "0" && "0"[..0] == "";
  }

  lemma {:induction false} DocsFail(newer: Json -> Option<bool>, b: Bits, g: nat, docs: seq<Object>, k: nat)
    requires k <= |docs| && Docs(newer, b, g, docs[..k]).0.failed
    ensures Docs(newer, b, g, docs).0 == Docs(newer, b, g, docs[..k]).0
    decreases |docs|
  {
    hide Process, AfterKeys;
    if k == |docs| {
      assert docs[..k] == docs;
    } else {
      assert docs[..|docs| - 1][..k] == docs[..k];
      DocsFail(newer, b, g, docs[..|docs| - 1], k);
    }
  }

  // ---------------------------------------------------------------------
  // What the numbers mean
  // ---------------------------------------------------------------------

  const WIDTH := 24

  /** The number of a group whose documents fill the low 24 bits as `mask`. */
  function Packed(g: nat, mask: nat): nat {
    g * Pow2(WIDTH) + mask
  }

  lemma AppendBitPacks(g: nat, mask: nat)
    requires mask < Pow2(WIDTH)
    ensures IntOf(AppendBit(g, FormatBin(mask, 26))) == Packed(g, mask)
  {
    hide FormatBin, Value, Pow2;
    FormatLength(mask, 26);
    FormatReadsBack(mask, 26);
    FormatReadsBack(g, 10);
    var low := FormatBin(mask, 26)[2..];
    var high := FormatBin(g, 10);
    assert AppendBit(g, FormatBin(mask, 26))[2..] == high[2..] + low;
    ValueAppend(high[2..], low);
  }

  /** Different documents of any groups have different numbers. */
  lemma NumbersInjective(g: nat, p: nat, g2: nat, p2: nat)
    requires 1 <= p <= WIDTH && 1 <= p2 <= WIDTH
    requires Packed(g, Pow2(p - 1)) == Packed(g2, Pow2(p2 - 1))
    ensures g == g2 && p == p2
  {
    hide Pow2;
    PowGrows(p - 1, WIDTH);
    PowGrows(p2 - 1, WIDTH);
    HighPart(g, Pow2(p - 1), g2, Pow2(p2 - 1));
    PowerBits(p - 1, p - 1);
    PowerBits(p2 - 1, p - 1);
  }

  lemma {:induction false} PowGrows(a: nat, b: nat)
    requires a < b
    ensures Pow2(a) < Pow2(b)
  {
    if b > a + 1 { PowGrows(a, b - 1); }
  }

  lemma HighPart(g: nat, x: nat, g2: nat, y: nat)
    requires x < Pow2(WIDTH) && y < Pow2(WIDTH) && Packed(g, x) == Packed(g2, y)
    ensures g == g2 && x == y
  {
    hide Pow2;
    var w := Pow2(WIDTH);
    if g < g2 { MulStep(g, g2, w); }
    if g2 < g { MulStep(g2, g, w); }
  }

  lemma MulStep(a: nat, b: nat, w: nat)
    requires a < b
    ensures a * w + w <= b * w
  {
    var c: nat := b - a - 1;
    assert b * w == (a + 1 + c) * w == a * w + w + c * w;
  }

  // ---------------------------------------------------------------------
  // Well-formed documents
  // ---------------------------------------------------------------------

  ghost predicate DistinctKeys(doc: Object) {
    forall i, j :: 0 <= i < j < |doc| ==> doc[i].0 != doc[j].0
  }

  /** The value of a key, or `other` where the key does not occur. */
  function Find(doc: Object, key: string, other: Json): Json {
    if doc == [] then other
    else if doc[|doc| - 1].0 == key then doc[|doc| - 1].1
    else Find(doc[..|doc| - 1], key, other)
  }

  function Lookup(doc: Object, key: string): Json {
    Find(doc, key, Null)
  }

  function VarsOf(doc: Object): Vars {
    Vars(Lookup(doc, "name"), Lookup(doc, "bitposition"), Lookup(doc, "support"), Lookup(doc, "version"))
  }

  /** Walking the keys assigns each variable the value of its key. */
  lemma {:induction false} KeysAssign(v: Vars, doc: Object)
    ensures AfterKeys(v, doc) == Vars(Find(doc, "name", v.name), Find(doc, "bitposition", v.bitPos),
                                      Find(doc, "support", v.support), Find(doc, "version", v.version))
  {
    if doc == [] {
    } else {
      KeysAssign(v, doc[..|doc| - 1]);
      assert "name" != "bitposition" && "name" != "support" && "name" != "version" by { assert |"name"| == 4; }
      assert "bitposition" != "support" && "bitposition" != "version" by { assert |"bitposition"| == 11; }
      assert "support" != "version" by { assert "support"[0] != "version"[0]; }
    }
  }

  lemma KeysFill(doc: Object)
    ensures AfterKeys(NoVars, doc) == VarsOf(doc)
  {
    KeysAssign(NoVars, doc);
  }

  lemma {:induction false} FindIsMember(doc: Object, key: string, other: Json)
    requires DistinctKeys(doc)
    ensures forall i :: 0 <= i < |doc| && doc[i].0 == key ==> Find(doc, key, other) == doc[i].1
    ensures (forall i :: 0 <= i < |doc| ==> doc[i].0 != key) ==> Find(doc, key, other) == other
  {
    if doc == [] {
    } else {
      FindIsMember(doc[..|doc| - 1], key, other);
    }
  }

  /** The same members, perhaps in another order. */
  ghost predicate SameMembers(doc: Object, doc2: Object) {
    DistinctKeys(doc) && DistinctKeys(doc2) && forall m :: m in doc <==> m in doc2
  }

  lemma FindInAnyOrder(doc: Object, doc2: Object, key: string, other: Json)
    requires SameMembers(doc, doc2)
    ensures Find(doc, key, other) == Find(doc2, key, other)
  {
    FindIsMember(doc, key, other);
    FindIsMember(doc2, key, other);
    if i :| 0 <= i < |doc| && doc[i].0 == key {
      assert doc[i] in doc2;
    } else {
      forall i | 0 <= i < |doc2|
        ensures doc2[i].0 != key
      {
        assert doc2[i] in doc;
      }
    }
  }

  /** What the documents of a group do does not depend on the order of the keys in
      each document, complete or not. */
  lemma {:induction false} KeysInAnyOrder(newer: Json -> Option<bool>, b: Bits, g: nat, docs: seq<Object>,
                                          docs2: seq<Object>)
    requires |docs| == |docs2| && forall i :: 0 <= i < |docs| ==> SameMembers(docs[i], docs2[i])
    ensures Docs(newer, b, g, docs) == Docs(newer, b, g, docs2)
    ensures SupportedDocs(newer, b, g, docs) == SupportedDocs(newer, b, g, docs2)
    decreases |docs|
  {
    hide Process, Find, AfterKeys;
    if docs == [] {
    } else {
      var init, init2 := docs[..|docs| - 1], docs2[..|docs| - 1];
      var doc, doc2 := docs[|docs| - 1], docs2[|docs| - 1];
      KeysInAnyOrder(newer, b, g, init, init2);
      assert SameMembers(doc, doc2);
      var v := Docs(newer, b, g, init).1;
      KeysAssign(v, doc);
      KeysAssign(v, doc2);
      FindInAnyOrder(doc, doc2, "name", v.name);
      FindInAnyOrder(doc, doc2, "bitposition", v.bitPos);
      FindInAnyOrder(doc, doc2, "support", v.support);
      FindInAnyOrder(doc, doc2, "version", v.version);
      assert doc == [] <==> doc2 == [] by {
        if doc != [] { assert doc[0] in doc2; }
        if doc2 != [] { assert doc2[0] in doc; }
      }
    }
  }

  /** All four mandatory keys, a bit position from 1 to 24, and a version that reads as
      a number. */
  predicate WellFormed(newer: Json -> Option<bool>, doc: Object) {
    && Complete(VarsOf(doc))
    && Lookup(doc, "bitposition").Num? && 1 <= Lookup(doc, "bitposition").n <= WIDTH
    && newer(Lookup(doc, "version")).Some?
  }

  predicate Supported(doc: Object) {
    Lookup(doc, "support") == Bool(true)
  }

  /** Some supported document has the bit `k`. */
  ghost predicate InMask(docs: seq<Object>, k: nat) {
    exists i :: 0 <= i < |docs| && Supported(docs[i]) && Lookup(docs[i], "bitposition") == Num(k + 1)
  }

  /** `mask` is the union of the bits of the supported documents. */
  ghost predicate IsMask(docs: seq<Object>, mask: nat) {
    forall k: nat :: HasBit(mask, k) <==> InMask(docs, k)
  }

  lemma InMaskSnoc(docs: seq<Object>, doc: Object, k: nat)
    ensures InMask(docs + [doc], k) <==> InMask(docs, k) || (Supported(doc) && Lookup(doc, "bitposition") == Num(k + 1))
  {
    var all := docs + [doc];
    assert forall i :: 0 <= i < |docs| ==> all[i] == docs[i];
    assert all[|docs|] == doc;
  }

  lemma MaskIsLow(newer: Json -> Option<bool>, docs: seq<Object>, mask: nat)
    requires IsMask(docs, mask) && forall d :: d in docs ==> WellFormed(newer, d)
    ensures mask < Pow2(WIDTH)
  {
    forall k: nat | k >= WIDTH
      ensures !HasBit(mask, k)
    {
      forall i | 0 <= i < |docs|
        ensures Lookup(docs[i], "bitposition") != Num(k + 1)
      {
        assert docs[i] in docs;
      }
    }
    LowBitsOnly(mask, WIDTH);
  }

  /** The state after some documents of group `g`. */
  ghost predicate DocsRight(b: Bits, g: nat, docs: seq<Object>, c: Bits)
    requires 1 <= g <= |b.supported|
  {
    && !c.failed
    && IsMask(docs, IntOf(c.temp))
    && |c.supported| == |b.supported|
    && (forall i :: 0 <= i < |c.supported| && i != g - 1 ==> c.supported[i] == b.supported[i])
    && c.supported[g - 1] == (if exists i :: 0 <= i < |docs| && Supported(docs[i]) then Packed(g, IntOf(c.temp))
                              else b.supported[g - 1])
  }

  lemma {:induction false} DocsAreRight(newer: Json -> Option<bool>, b: Bits, g: nat, docs: seq<Object>)
    requires !b.failed && b.temp == NOTHING && 1 <= g <= |b.supported|
    requires forall d :: d in docs ==> WellFormed(newer, d)
    ensures var (c, v) := Docs(newer, b, g, docs); v == NoVars && DocsRight(b, g, docs, c)
    decreases |docs|
  {
    hide Lookup, AfterKeys, WellFormed, Process, VarsOf, Packed, HasBit;
    if docs == [] {
      NothingIsZero();
      forall k: nat
        ensures !HasBit(0, k)
      {
        NoBits(k);
      }
    } else {
      var init, doc := docs[..|docs| - 1], docs[|docs| - 1];
      assert docs == init + [doc] && doc in docs;
      DocsAreRight(newer, b, g, init);
      KeysFill(doc);
      var c := Docs(newer, b, g, init).0;
      NonEmptyDoc(newer, doc);
      OneDocRight(newer, b, g, init, doc, c);
    }
  }

  lemma NonEmptyDoc(newer: Json -> Option<bool>, doc: Object)
    requires WellFormed(newer, doc)
    ensures doc != [] && Complete(VarsOf(doc))
  {}

  lemma OneDocRight(newer: Json -> Option<bool>, b: Bits, g: nat, init: seq<Object>, doc: Object, c: Bits)
    requires 1 <= g <= |b.supported| && DocsRight(b, g, init, c)
    requires forall d :: d in init + [doc] ==> WellFormed(newer, d)
    ensures DocsRight(b, g, init + [doc], Process(newer, c, g, VarsOf(doc)))
  {
    hide Lookup, AfterKeys, Packed, HasBit, FormatBin, Pow2, Value, Or;
    assert doc in init + [doc];
    var docs := init + [doc];
    var e := Process(newer, c, g, VarsOf(doc));
    assert docs[|init|] == doc && forall i :: 0 <= i < |init| ==> docs[i] == init[i];
    if !Supported(doc) {
      forall k: nat
        ensures HasBit(IntOf(e.temp), k) <==> InMask(docs, k)
      {
        InMaskSnoc(init, doc, k);
      }
    } else {
      var p := Lookup(doc, "bitposition").n;
      var mask := Or(IntOf(c.temp), Pow2(p - 1));
      forall k: nat
        ensures HasBit(mask, k) <==> InMask(docs, k)
      {
        InMaskSnoc(init, doc, k);
        OrBits(IntOf(c.temp), Pow2(p - 1), k);
        PowerBits(p - 1, k);
      }
      FormatReadsBack(mask, 26);
      MaskIsLow(newer, docs, mask);
      AppendBitPacks(g, mask);
    }
  }

  /** The entry of a supported document with a version above 1.0: the document's own number. */
  function NewVersion(newer: Json -> Option<bool>, g: nat, doc: Object): seq<(nat, Json)>
    requires WellFormed(newer, doc)
  {
    if Supported(doc) && newer(Lookup(doc, "version")) == Some(true)
    then [(Packed(g, Pow2(Lookup(doc, "bitposition").n - 1)), Lookup(doc, "version"))]
    else []
  }

  function NewVersions(newer: Json -> Option<bool>, g: nat, docs: seq<Object>): seq<(nat, Json)>
    requires forall d :: d in docs ==> WellFormed(newer, d)
  {
    if docs == [] then []
    else NewVersions(newer, g, docs[..|docs| - 1]) + NewVersion(newer, g, docs[|docs| - 1])
  }

  lemma {:induction false} VersionsAreNew(newer: Json -> Option<bool>, b: Bits, g: nat, docs: seq<Object>)
    requires !b.failed && b.temp == NOTHING && 1 <= g <= |b.supported|
    requires forall d :: d in docs ==> WellFormed(newer, d)
    ensures Docs(newer, b, g, docs).0.versions == b.versions + NewVersions(newer, g, docs)
    ensures SupportedDocs(newer, b, g, docs).versions == b.versions + NewVersions(newer, g, docs)
    decreases |docs|
  {
    if docs == [] {
    } else {
      hide Process, AfterKeys, WellFormed, VarsOf, NewVersion, DocsRight;
      var init, doc := docs[..|docs| - 1], docs[|docs| - 1];
      assert doc in docs;
      VersionsAreNew(newer, b, g, init);
      DocsAreRight(newer, b, g, init);
      DocsRightParts(b, g, init, Docs(newer, b, g, init).0);
      KeysFill(doc);
      NonEmptyDoc(newer, doc);
      OneVersion(newer, Docs(newer, b, g, init).0, g, doc);
      assert DocStep(newer, Docs(newer, b, g, init).0, NoVars, g, doc).0
             == Process(newer, Docs(newer, b, g, init).0, g, VarsOf(doc));
    }
  }

  lemma DocsRightParts(b: Bits, g: nat, docs: seq<Object>, c: Bits)
    requires 1 <= g <= |b.supported| && DocsRight(b, g, docs, c)
    ensures !c.failed && |c.supported| == |b.supported|
  {}

  lemma OneVersion(newer: Json -> Option<bool>, b: Bits, g: nat, doc: Object)
    requires !b.failed && 1 <= g <= |b.supported| && WellFormed(newer, doc)
    ensures Process(newer, b, g, VarsOf(doc)).versions == b.versions + NewVersion(newer, g, doc)
  {
    hide Lookup, FormatBin, AppendBit, Pow2, IntOf, Packed;
    if Supported(doc) {
      var p := Lookup(doc, "bitposition").n;
      PowGrows(p - 1, WIDTH);
      AppendBitPacks(g, Pow2(p - 1));
    }
  }

  /** One group: its number is unchanged when nothing is supported, and otherwise the
      group id above 24 bits that are the union of the supported bit positions. No
      other number changes. */
  lemma GroupIsPacked(newer: Json -> Option<bool>, b: Bits, g: nat, docs: seq<Object>)
    requires !b.failed && b.temp == NOTHING && 1 <= g <= |b.supported|
    requires forall d :: d in docs ==> WellFormed(newer, d)
    ensures var c := SupportedDocs(newer, b, g, docs);
            && !c.failed && c.temp == NOTHING && |c.supported| == |b.supported|
            && (forall i :: 0 <= i < |c.supported| && i != g - 1 ==> c.supported[i] == b.supported[i])
            && (if exists i :: 0 <= i < |docs| && Supported(docs[i])
                then exists mask: nat ::
                       mask < Pow2(WIDTH) && IsMask(docs, mask) && c.supported[g - 1] == Packed(g, mask)
                else c.supported[g - 1] == b.supported[g - 1])
  {
    hide Lookup, WellFormed, Docs, Packed, Pow2, IsMask;
    DocsAreRight(newer, b, g, docs);
    var c := Docs(newer, b, g, docs).0;
    MaskIsLow(newer, docs, IntOf(c.temp));
  }

  // ---------------------------------------------------------------------
  // All groups
  // ---------------------------------------------------------------------

  /** A group with its id and documents. */
  datatype Group = Group(id: nat, docs: seq<Object>)

  function GroupsFrom(newer: Json -> Option<bool>, b: Bits, groups: seq<Group>): Bits {
    if groups == [] then b
    else
      var c := GroupsFrom(newer, b, groups[..|groups| - 1]);
      if c.failed then c else SupportedDocs(newer, c, groups[|groups| - 1].id, groups[|groups| - 1].docs)
  }

  /** The number that belongs to a group. */
  ghost predicate GroupNumber(docs: seq<Object>, g: nat, n: nat) {
    if exists i :: 0 <= i < |docs| && Supported(docs[i])
    then exists mask: nat :: mask < Pow2(WIDTH) && IsMask(docs, mask) && n == Packed(g, mask)
    else n == 0
  }

  /** A group has exactly one such number, whatever the order of its documents and of
      their keys: it depends on the set of supported bit positions alone. */
  lemma GroupNumberUnique(docs: seq<Object>, docs2: seq<Object>, g: nat, n: nat, n2: nat)
    requires GroupNumber(docs, g, n) && GroupNumber(docs2, g, n2)
    requires forall k: nat :: InMask(docs, k) <==> InMask(docs2, k)
    requires (exists i :: 0 <= i < |docs| && Supported(docs[i]))
             <==> (exists i :: 0 <= i < |docs2| && Supported(docs2[i]))
    ensures n == n2
  {
    hide Packed, Pow2, Lookup, HasBit;
    if exists i :: 0 <= i < |docs| && Supported(docs[i]) {
      var m: nat :| m < Pow2(WIDTH) && IsMask(docs, m) && n == Packed(g, m);
      var m2: nat :| m2 < Pow2(WIDTH) && IsMask(docs2, m2) && n2 == Packed(g, m2);
      SameBitsSameNumber(m, m2);
    }
  }

  /** Distinct ids in range of the list, whose entries are still 0. */
  ghost predicate Ready(b: Bits, groups: seq<Group>) {
    && (forall i :: 0 <= i < |groups| ==> 1 <= groups[i].id <= |b.supported| && b.supported[groups[i].id - 1] == 0)
    && (forall i, j :: 0 <= i < j < |groups| ==> groups[i].id != groups[j].id)
  }

  ghost predicate AllWellFormed(newer: Json -> Option<bool>, groups: seq<Group>) {
    forall i :: 0 <= i < |groups| ==> forall d :: d in groups[i].docs ==> WellFormed(newer, d)
  }

  ghost predicate NoGroup(groups: seq<Group>, id: nat) {
    forall i :: 0 <= i < |groups| ==> groups[i].id != id
  }

  /** `c` has the number of every group, and is otherwise `b`. */
  ghost predicate Filled(b: Bits, groups: seq<Group>, c: Bits) {
    && !c.failed && c.temp == NOTHING && |c.supported| == |b.supported|
    && (forall i :: 0 <= i < |groups| ==> 1 <= groups[i].id <= |c.supported|
                                           && GroupNumber(groups[i].docs, groups[i].id, c.supported[groups[i].id - 1]))
    && (forall k :: 0 <= k < |c.supported| && NoGroup(groups, k + 1) ==> c.supported[k] == b.supported[k])
  }

  /** With distinct group ids in range, every group has its own number at the end. */
  lemma {:induction false} GroupsArePacked(newer: Json -> Option<bool>, b: Bits, groups: seq<Group>)
    requires !b.failed && b.temp == NOTHING
    requires Ready(b, groups) && AllWellFormed(newer, groups)
    ensures Filled(b, groups, GroupsFrom(newer, b, groups))
    decreases |groups|
  {
    if groups == [] {
    } else {
      hide Filled, Ready, AllWellFormed, GroupsFrom;
      var init, last := groups[..|groups| - 1], groups[|groups| - 1];
      assert groups == init + [last];
      ReadyPrefix(newer, b, init, last);
      GroupsArePacked(newer, b, init);
      FilledNotFailed(b, init, GroupsFrom(newer, b, init));
      GroupStep(newer, b, init, last, GroupsFrom(newer, b, init));
      GroupsFromSnoc(newer, b, init, last);
    }
  }

  lemma FilledNotFailed(b: Bits, groups: seq<Group>, c: Bits)
    requires Filled(b, groups, c)
    ensures !c.failed
  {}

  lemma GroupsFromSnoc(newer: Json -> Option<bool>, b: Bits, init: seq<Group>, last: Group)
    requires !GroupsFrom(newer, b, init).failed
    ensures GroupsFrom(newer, b, init + [last]) == SupportedDocs(newer, GroupsFrom(newer, b, init), last.id, last.docs)
  {
    hide SupportedDocs;
    assert (init + [last])[..|init|] == init;
  }

  lemma ReadyPrefix(newer: Json -> Option<bool>, b: Bits, init: seq<Group>, last: Group)
    requires Ready(b, init + [last]) && AllWellFormed(newer, init + [last])
    ensures Ready(b, init) && AllWellFormed(newer, init)
    ensures forall d :: d in last.docs ==> WellFormed(newer, d)
    ensures 1 <= last.id <= |b.supported| && b.supported[last.id - 1] == 0 && NoGroup(init, last.id)
  {
    hide WellFormed;
    var groups := init + [last];
    assert groups[|init|] == last;
    assert forall i :: 0 <= i < |init| ==> groups[i] == init[i];
  }

  lemma GroupStep(newer: Json -> Option<bool>, b: Bits, init: seq<Group>, last: Group, c: Bits)
    requires Filled(b, init, c)
    requires Ready(b, init + [last]) && AllWellFormed(newer, init + [last])
    ensures Filled(b, init + [last], SupportedDocs(newer, c, last.id, last.docs))
  {
    hide WellFormed, SupportedDocs, GroupNumber, Supported, Packed, IsMask, Ready, AllWellFormed, NoGroup;
    ReadyPrefix(newer, b, init, last);
    assert c.supported[last.id - 1] == 0;
    GroupIsPacked(newer, c, last.id, last.docs);
    var e := SupportedDocs(newer, c, last.id, last.docs);
    LastGroupNumber(last.docs, last.id, e.supported[last.id - 1]);
    FilledSnoc(b, init, last, c, e);
  }

  lemma FilledSnoc(b: Bits, init: seq<Group>, last: Group, c: Bits, e: Bits)
    requires Filled(b, init, c) && Ready(b, init + [last])
    requires !e.failed && e.temp == NOTHING && |e.supported| == |c.supported|
    requires forall i :: 0 <= i < |e.supported| && i != last.id - 1 ==> e.supported[i] == c.supported[i]
    requires 1 <= last.id <= |e.supported| && GroupNumber(last.docs, last.id, e.supported[last.id - 1])
    ensures Filled(b, init + [last], e)
  {
    hide GroupNumber;
    var groups := init + [last];
    assert groups[|init|] == last;
    forall i | 0 <= i < |groups|
      ensures 1 <= groups[i].id <= |e.supported|
              && GroupNumber(groups[i].docs, groups[i].id, e.supported[groups[i].id - 1])
    {
      if i < |init| { assert groups[i] == init[i]; }
    }
    forall k | 0 <= k < |e.supported| && NoGroup(groups, k + 1)
      ensures e.supported[k] == b.supported[k]
    {
      assert groups[|init|].id != k + 1;
      assert NoGroup(init, k + 1) by {
        assert forall i :: 0 <= i < |init| ==> groups[i] == init[i];
      }
    }
  }

  lemma LastGroupNumber(docs: seq<Object>, g: nat, n: nat)
    requires if exists i :: 0 <= i < |docs| && Supported(docs[i])
             then exists mask: nat :: mask < Pow2(WIDTH) && IsMask(docs, mask) && n == Packed(g, mask)
             else n == 0
    ensures GroupNumber(docs, g, n)
  {}

  // ---------------------------------------------------------------------
  // The groups as they stand in the file
  // ---------------------------------------------------------------------

  /** A member of a group object. */
  datatype Member = GroupId(g: nat) | SubDocs(docs: seq<Object>) | OtherMember

  /** The loop state of json_read: what was seen of the current group. */
  datatype Reading = Reading(bits: Bits, id: Option<nat>, docs: Option<seq<Object>>)

  function MemberStep(newer: Json -> Option<bool>, r: Reading, m: Member): Reading {
    if r.bits.failed then r
    else
      var id := if m.GroupId? then Some(m.g) else r.id;
      var docs := if m.SubDocs? then Some(m.docs) else r.docs;
      if id.Some? && docs.Some? then Reading(SupportedDocs(newer, r.bits, id.value, docs.value), None, None)
      else Reading(r.bits, id, docs)
  }

  function Members(newer: Json -> Option<bool>, r: Reading, ms: seq<Member>): Reading
    decreases |ms|
  {
    if ms == [] then r else Members(newer, MemberStep(newer, r, ms[0]), ms[1..])
  }

  function ReadGroups(newer: Json -> Option<bool>, r: Reading, groups: seq<seq<Member>>): Reading {
    if groups == [] then r
    else Members(newer, ReadGroups(newer, r, groups[..|groups| - 1]), groups[|groups| - 1])
  }

  function Start(size: nat): Bits {
    Bits(NOTHING, seq(size, _ => 0), [], false)
  }

  lemma {:induction false} FailedMembers(newer: Json -> Option<bool>, r: Reading, ms: seq<Member>)
    requires r.bits.failed
    ensures Members(newer, r, ms) == r
  {
    hide SupportedDocs;
    if ms == [] {
    } else {
      FailedMembers(newer, r, ms[1..]);
    }
  }

  lemma {:induction false} FailedGroups(newer: Json -> Option<bool>, r: Reading, groups: seq<seq<Member>>, k: nat)
    requires k <= |groups| && ReadGroups(newer, r, groups[..k]).bits.failed
    ensures ReadGroups(newer, r, groups).bits == ReadGroups(newer, r, groups[..k]).bits
    decreases |groups|
  {
    hide Members;
    if k == |groups| {
      assert groups[..k] == groups;
    } else {
      var init := groups[..|groups| - 1];
      assert init[..k] == groups[..k];
      FailedGroups(newer, r, init, k);
      FailedMembers(newer, ReadGroups(newer, r, init), groups[|groups| - 1]);
    }
  }

  method JsonRead(parser: Parser, groups: seq<seq<Member>>) returns (failed: bool)
    modifies parser
    ensures var b := ReadGroups(parser.newer, Reading(Bits(old(parser.tempGroupBit), seq(|groups|, _ => 0),
            old(parser.supportedVersionBits), false), None, None), groups).bits;
            parser.Shows(b) && failed == b.failed
  {
    hide SupportedDocs;
    var id: Option<nat>, docs: Option<seq<Object>> := None, None;
    parser.supportedBits := seq(|groups|, _ => 0);
    ghost var start := Reading(Bits(parser.tempGroupBit, parser.supportedBits, parser.supportedVersionBits, false),
      None, None);
    ghost var now := start;
    for count := 0 to |groups|
      invariant now == ReadGroups(parser.newer, start, groups[..count]) && !now.bits.failed
      invariant parser.Shows(now.bits) && id == now.id && docs == now.docs
    {
      assert groups[..count + 1][..count] == groups[..count];
      var members := groups[count];
      ghost var all := Members(parser.newer, now, members);
      for k := 0 to |members|
        invariant Members(parser.newer, now, members[k..]) == all && !now.bits.failed
        invariant parser.Shows(now.bits) && id == now.id && docs == now.docs
      {
        var m := members[k];
        assert members[k..][0] == m && members[k..][1..] == members[k + 1..];
        ghost var next := MemberStep(parser.newer, now, m);
        match m {
          case GroupId(g) => id := Some(g);
          case SubDocs(ds) => docs := Some(ds);
          case OtherMember =>
        }
        if id.Some? && docs.Some? {
          failed := parser.ProcessDocs(id.value, docs.value, now.bits);
          if failed {
            FailedMembers(parser.newer, next, members[k + 1..]);
            FailedGroups(parser.newer, start, groups, count + 1);
            return;
          }
          id, docs := None, None;
        }
        now := next;
      }
    }
    assert groups[..|groups|] == groups;
    failed := false;
  }

  /** The id and the documents of a group object, wherever they stand. */
  function Relevant(ms: seq<Member>): seq<Member> {
    if ms == [] then [] else (if ms[0].OtherMember? then [] else [ms[0]]) + Relevant(ms[1..])
  }

  ghost predicate Holds(ms: seq<Member>, group: Group) {
    || Relevant(ms) == [GroupId(group.id), SubDocs(group.docs)]
    || Relevant(ms) == [SubDocs(group.docs), GroupId(group.id)]
  }

  lemma {:induction false} OnlyRelevant(newer: Json -> Option<bool>, r: Reading, ms: seq<Member>)
    requires r.bits.failed || r.id.None? || r.docs.None?
    ensures Members(newer, r, ms) == Members(newer, r, Relevant(ms))
    decreases |ms|
  {
    hide SupportedDocs;
    if ms == [] {
    } else {
      OnlyRelevant(newer, MemberStep(newer, r, ms[0]), ms[1..]);
      if !ms[0].OtherMember? {
        assert ([ms[0]] + Relevant(ms[1..]))[1..] == Relevant(ms[1..]);
      } else {
        assert MemberStep(newer, r, ms[0]) == r;
        assert [] + Relevant(ms[1..]) == Relevant(ms[1..]);
      }
    }
  }

  lemma TwoMembers(newer: Json -> Option<bool>, r: Reading, m: Member, n: Member)
    ensures Members(newer, r, [m, n]) == MemberStep(newer, MemberStep(newer, r, m), n)
  {
    hide MemberStep;
    var next := MemberStep(newer, r, m);
    assert [m, n][1..] == [n] && [n][1..] == [];
    assert Members(newer, next, [n]) == Members(newer, MemberStep(newer, next, n), []);
  }

  /** A group object is handled as its group, in whatever order its members stand. */
  lemma OneGroup(newer: Json -> Option<bool>, b: Bits, ms: seq<Member>, group: Group)
    requires Holds(ms, group) && !b.failed
    ensures Members(newer, Reading(b, None, None), ms)
            == Reading(SupportedDocs(newer, b, group.id, group.docs), None, None)
  {
    hide SupportedDocs;
    OnlyRelevant(newer, Reading(b, None, None), ms);
    TwoMembers(newer, Reading(b, None, None), GroupId(group.id), SubDocs(group.docs));
    TwoMembers(newer, Reading(b, None, None), SubDocs(group.docs), GroupId(group.id));
  }

  lemma {:induction false} GroupsAsGroups(newer: Json -> Option<bool>, b: Bits, groups: seq<seq<Member>>,
                                          gs: seq<Group>)
    requires |groups| == |gs| && !b.failed && !GroupsFrom(newer, b, gs).failed
    requires forall i :: 0 <= i < |gs| ==> Holds(groups[i], gs[i])
    ensures ReadGroups(newer, Reading(b, None, None), groups) == Reading(GroupsFrom(newer, b, gs), None, None)
    decreases |gs|
  {
    hide SupportedDocs, Members, Holds;
    if gs == [] {
    } else {
      var init := gs[..|gs| - 1];
      GroupsAsGroups(newer, b, groups[..|gs| - 1], init);
      OneGroup(newer, GroupsFrom(newer, b, init), groups[|gs| - 1], gs[|gs| - 1]);
    }
  }

  /** Main result: a file whose groups have distinct ids in range and well-formed
      documents is read without failure and gives every group its own number. */
  lemma FileIsPacked(newer: Json -> Option<bool>, groups: seq<seq<Member>>, gs: seq<Group>)
    requires |groups| == |gs| && forall i :: 0 <= i < |gs| ==> Holds(groups[i], gs[i])
    requires forall i :: 0 <= i < |gs| ==> 1 <= gs[i].id <= |gs|
    requires forall i, j :: 0 <= i < j < |gs| ==> gs[i].id != gs[j].id
    requires AllWellFormed(newer, gs)
    ensures var b := ReadGroups(newer, Reading(Start(|gs|), None, None), groups).bits;
            && !b.failed && |b.supported| == |gs|
            && forall i :: 0 <= i < |gs| ==> GroupNumber(gs[i].docs, gs[i].id, b.supported[gs[i].id - 1])
  {
    hide WellFormed, Holds, GroupNumber, GroupsFrom, ReadGroups, AllWellFormed;
    GroupsArePacked(newer, Start(|gs|), gs);
    GroupsAsGroups(newer, Start(|gs|), groups, gs);
  }
}
