/** cve_check's version order: releases without their trailing zeros, then the patch
    letter or number, then the pre-release. */
module Versions {
  import opened Options
  import opened Sorting

  /** What the version pattern found. */
  datatype Parsed = Parsed(release: seq<nat>, patchL: string, preL: Option<string>, preV: Option<string>)

  /** The floats of the key, in their order. */
  datatype Pre = MinusInfinity | Number(n: nat) | Infinity

  datatype Key = Key(release: seq<nat>, patch: string, pre: Pre)

  function Reversed(s: seq<nat>): seq<nat> {
    if s == [] then [] else Reversed(s[1..]) + [s[0]]
  }

  /** itertools.dropwhile of zeros. */
  function DropZeros(s: seq<nat>): seq<nat> {
    if s != [] && s[0] == 0 then DropZeros(s[1..]) else s
  }

  /** The release without the zeros at its end. */
  function Strip(r: seq<nat>): seq<nat> {
    Reversed(DropZeros(Reversed(r)))
  }

  function UpperChar(c: char): char {
    if 'a' <= c <= 'z' then c - 'a' + 'A' else c
  }

  function Upper(s: string): string {
    seq(|s|, i requires 0 <= i < |s| => UpperChar(s[i]))
  }

  predicate AllDigits(s: string) {
    forall i :: 0 <= i < |s| ==> '0' <= s[i] <= '9'
  }

  function ToNat(digits: string): nat
    requires AllDigits(digits)
  {
    if digits == "" then 0
    else ToNat(digits[..|digits| - 1]) * 10 + (digits[|digits| - 1] as int - '0' as int)
  }

  predicate WellParsed(v: Parsed) {
    v.preV.Some? ==> AllDigits(v.preV.value)
  }

  /** _cmpkey */
  function CmpKey(v: Parsed): Key
    requires WellParsed(v)
  {
    Key(Strip(v.release), Upper(v.patchL),
        if v.preL.None? && v.preV.None? then Infinity
        else if v.preV.Some? && v.preV.value != "" then Number(ToNat(v.preV.value)) else MinusInfinity)
  }

  /** Python's `>` of tuples. */
  predicate TupleGreater(a: seq<nat>, b: seq<nat>) {
    a != [] && (b == [] || a[0] > b[0] || (a[0] == b[0] && TupleGreater(a[1..], b[1..])))
  }

  predicate PreGreater(p: Pre, q: Pre) {
    match (p, q)
    case (MinusInfinity, _) => false
    case (_, MinusInfinity) => true
    case (_, Infinity) => false
    case (Infinity, _) => true
    case (Number(m), Number(n)) => m > n
  }

  /** The first components that differ decide. */
  predicate KeyGreater(x: Key, y: Key) {
    if x.release != y.release then TupleGreater(x.release, y.release)
    else if x.patch != y.patch then !LexLeq(x.patch, y.patch)
    else PreGreater(x.pre, y.pre)
  }

  /** Version.__eq__ and Version.__gt__. */
  predicate Equal(v: Parsed, w: Parsed)
    requires WellParsed(v) && WellParsed(w)
  {
    CmpKey(v) == CmpKey(w)
  }

  predicate Greater(v: Parsed, w: Parsed)
    requires WellParsed(v) && WellParsed(w)
  {
    KeyGreater(CmpKey(v), CmpKey(w))
  }

  /** The other comparisons, as functools.total_ordering derives them. */
  predicate Less(v: Parsed, w: Parsed)
    requires WellParsed(v) && WellParsed(w)
  {
    !Greater(v, w) && !Equal(v, w)
  }

  predicate LessOrEqual(v: Parsed, w: Parsed)
    requires WellParsed(v) && WellParsed(w)
  {
    !Greater(v, w)
  }

  // ---------------------------------------------------------------------
  // Releases as infinite sequences
  // ---------------------------------------------------------------------

  /** The release followed by zeros without end. */
  function At(r: seq<nat>, k: nat): nat {
    if k < |r| then r[k] else 0
  }

  ghost predicate SamePadded(a: seq<nat>, b: seq<nat>) {
    forall k: nat :: At(a, k) == At(b, k)
  }

  /** The first place where the padded sequences differ decides. */
  ghost predicate PaddedGreater(a: seq<nat>, b: seq<nat>) {
    exists k: nat :: At(a, k) > At(b, k) && forall i: nat :: i < k ==> At(a, i) == At(b, i)
  }

  lemma {:induction false} ReversedSnoc(s: seq<nat>, x: nat)
    ensures Reversed(s + [x]) == [x] + Reversed(s)
  {
    if s == [] {
      assert [x][1..] == [] && Reversed([x]) == Reversed([]) + [x];
    } else {
      assert (s + [x])[1..] == s[1..] + [x];
      ReversedSnoc(s[1..], x);
    }
  }

  lemma {:induction false} ReversedTwice(s: seq<nat>)
    ensures Reversed(Reversed(s)) == s
  {
    if s == [] {
    } else {
      ReversedTwice(s[1..]);
      ReversedSnoc(Reversed(s[1..]), s[0]);
    }
  }

  /** Stripping cuts off the zeros at the end, and nothing else. */
  lemma {:induction false} StripCuts(r: seq<nat>)
    ensures Strip(r) == if r != [] && r[|r| - 1] == 0 then Strip(r[..|r| - 1]) else r
  {
    if r != [] {
      var init, last := r[..|r| - 1], r[|r| - 1];
      assert r == init + [last];
      ReversedSnoc(init, last);
      assert Reversed(r)[1..] == Reversed(init);
    }
    ReversedTwice(r);
  }

  lemma {:induction false} StripPads(r: seq<nat>)
    ensures SamePadded(Strip(r), r)
    ensures Strip(r) != [] ==> Strip(r)[|Strip(r)| - 1] != 0
  {
    hide Strip;
    StripCuts(r);
    if r != [] && r[|r| - 1] == 0 {
      var init := r[..|r| - 1];
      StripPads(init);
      forall k: nat
        ensures At(Strip(r), k) == At(r, k)
      {
        assert At(init, k) == At(r, k);
      }
    }
  }

  /** Without zeros at the end, the padded sequence determines the release. */
  lemma {:induction false} PaddedDetermines(a: seq<nat>, b: seq<nat>)
    requires a != [] ==> a[|a| - 1] != 0
    requires b != [] ==> b[|b| - 1] != 0
    requires SamePadded(a, b)
    ensures a == b
  {
    if a != [] { assert At(a, |a| - 1) == At(b, |a| - 1); }
    if b != [] { assert At(a, |b| - 1) == At(b, |b| - 1); }
    forall k | 0 <= k < |a|
      ensures a[k] == b[k]
    {
      assert At(a, k) == At(b, k);
    }
  }

  /** On tuples without zeros at the end, Python's order is the order of the padded sequences. */
  lemma {:induction false} TupleIsPadded(a: seq<nat>, b: seq<nat>)
    requires a != [] ==> a[|a| - 1] != 0
    requires b != [] ==> b[|b| - 1] != 0
    ensures TupleGreater(a, b) <==> PaddedGreater(a, b)
  {
    if a == [] {
      assert forall k: nat :: At(a, k) <= At(b, k);
    } else if b == [] {
      FirstNonZero(a, 0);
    } else if a[0] != b[0] {
      assert At(a, 0) == a[0] && At(b, 0) == b[0];
    } else {
      TupleIsPadded(a[1..], b[1..]);
      PaddedTail(a, b);
    }
  }

  lemma {:induction false} FirstNonZero(a: seq<nat>, k: nat)
    requires a != [] && a[|a| - 1] != 0 && k < |a|
    requires forall i: nat :: i < k ==> At(a, i) == 0
    ensures PaddedGreater(a, [])
    decreases |a| - k
  {
    if At(a, k) == 0 {
      FirstNonZero(a, k + 1);
    } else {
      assert At(a, k) > At([], k);
    }
  }

  lemma PaddedTail(a: seq<nat>, b: seq<nat>)
    requires a != [] && b != [] && a[0] == b[0]
    ensures PaddedGreater(a, b) <==> PaddedGreater(a[1..], b[1..])
  {
    assert forall k: nat :: At(a[1..], k) == At(a, k + 1) && At(b[1..], k) == At(b, k + 1);
    if k: nat :| At(a, k) > At(b, k) && forall i: nat :: i < k ==> At(a, i) == At(b, i) {
      assert At(a[1..], k - 1) > At(b[1..], k - 1);
      forall i: nat | i < k - 1
        ensures At(a[1..], i) == At(b[1..], i)
      {
        assert At(a, i + 1) == At(b, i + 1);
      }
    }
    if k: nat :| At(a[1..], k) > At(b[1..], k) && forall i: nat :: i < k ==> At(a[1..], i) == At(b[1..], i) {
      assert At(a, k + 1) > At(b, k + 1);
      forall i: nat | i < k + 1
        ensures At(a, i) == At(b, i)
      {
        if i > 0 { assert At(a[1..], i - 1) == At(b[1..], i - 1); }
      }
    }
  }

  /** Main result: comparing the stripped releases compares the releases as infinite
      sequences with zeros at the end. */
  lemma StrippedIsPadded(a: seq<nat>, b: seq<nat>)
    ensures Strip(a) == Strip(b) <==> SamePadded(a, b)
    ensures TupleGreater(Strip(a), Strip(b)) <==> PaddedGreater(a, b)
  {
    hide Strip, TupleGreater;
    StripPads(a);
    StripPads(b);
    TupleIsPadded(Strip(a), Strip(b));
    if SamePadded(a, b) {
      forall k: nat
        ensures At(Strip(a), k) == At(Strip(b), k)
      {
        assert At(a, k) == At(b, k);
      }
      PaddedDetermines(Strip(a), Strip(b));
    }
    forall k: nat
      ensures At(Strip(a), k) == At(a, k) && At(Strip(b), k) == At(b, k)
    {}
  }

  // ---------------------------------------------------------------------
  // The order of versions
  // ---------------------------------------------------------------------

  lemma {:induction false} TupleTrichotomy(a: seq<nat>, b: seq<nat>)
    ensures a == b <==> !TupleGreater(a, b) && !TupleGreater(b, a)
    ensures !(TupleGreater(a, b) && TupleGreater(b, a))
  {
    if a != [] && b != [] {
      TupleTrichotomy(a[1..], b[1..]);
      assert a == [a[0]] + a[1..] && b == [b[0]] + b[1..];
    }
  }

  lemma {:induction false} TupleTransitive(a: seq<nat>, b: seq<nat>, c: seq<nat>)
    requires TupleGreater(a, b) && TupleGreater(b, c)
    ensures TupleGreater(a, c)
  {
    if c != [] && a[0] == b[0] == c[0] { TupleTransitive(a[1..], b[1..], c[1..]); }
  }

  /** Of two keys, one is greater or they are equal. */
  lemma KeyTrichotomy(x: Key, y: Key)
    ensures x == y <==> !KeyGreater(x, y) && !KeyGreater(y, x)
    ensures !(KeyGreater(x, y) && KeyGreater(y, x))
  {
    TupleTrichotomy(x.release, y.release);
    LexTotal(x.patch, y.patch);
    if LexLeq(x.patch, y.patch) && LexLeq(y.patch, x.patch) { LexAntisymmetric(x.patch, y.patch); }
  }

  lemma KeyTransitive(x: Key, y: Key, z: Key)
    requires KeyGreater(x, y) && KeyGreater(y, z)
    ensures KeyGreater(x, z)
  {
    hide TupleGreater, LexLeq;
    TupleTrichotomy(x.release, y.release);
    TupleTrichotomy(y.release, z.release);
    TupleTrichotomy(x.release, z.release);
    if x.release != y.release && y.release != z.release { TupleTransitive(x.release, y.release, z.release); }
    PatchTransitive(x.patch, y.patch, z.patch);
  }

  lemma PatchTransitive(a: string, b: string, c: string)
    ensures !LexLeq(a, b) && !LexLeq(b, c) ==> !LexLeq(a, c)
    ensures !LexLeq(a, b) ==> a != b
    ensures LexLeq(a, a)
    ensures a != b ==> !LexLeq(a, b) || !LexLeq(b, a)
  {
    LexTotal(a, b);
    LexTotal(b, c);
    LexTotal(a, a);
    if !LexLeq(b, c) && LexLeq(a, c) {
      LexTransitive(a, c, b);
    }
    if LexLeq(a, b) && LexLeq(b, a) { LexAntisymmetric(a, b); }
  }

  /** Main result: the comparisons are a total preorder, in which `==` is the equivalence
      and the derived `<` is the converse of `>`. */
  lemma TotalPreorder(u: Parsed, v: Parsed, w: Parsed)
    requires WellParsed(u) && WellParsed(v) && WellParsed(w)
    ensures LessOrEqual(v, w) || LessOrEqual(w, v)
    ensures LessOrEqual(v, w) && LessOrEqual(w, v) <==> Equal(v, w)
    ensures LessOrEqual(u, v) && LessOrEqual(v, w) ==> LessOrEqual(u, w)
    ensures Less(v, w) <==> Greater(w, v)
  {
    hide CmpKey, KeyGreater;
    var x, y, z := CmpKey(u), CmpKey(v), CmpKey(w);
    KeyTrichotomy(y, z);
    KeyTrichotomy(x, y);
    KeyTrichotomy(x, z);
    if KeyGreater(x, z) && KeyGreater(z, y) { KeyTransitive(x, z, y); }
  }

  /** Main result: what decides between two versions, said without keys. Releases count
      as padded with zeros, the letter case of the patch does not count, a pre-release is
      before the final release, and the label of a pre-release never counts. */
  lemma GreaterMeans(v: Parsed, w: Parsed)
    requires WellParsed(v) && WellParsed(w)
    ensures Greater(v, w)
            <==> || PaddedGreater(v.release, w.release)
                 || (SamePadded(v.release, w.release)
                     && (|| !Alphabetical(Upper(v.patchL), Upper(w.patchL))
                         || (Upper(v.patchL) == Upper(w.patchL) && PreAfter(v, w))))
    ensures Equal(v, w)
            <==> SamePadded(v.release, w.release) && Upper(v.patchL) == Upper(w.patchL)
                 && !PreAfter(v, w) && !PreAfter(w, v)
  {
    hide TupleGreater, Upper, LexLeq, Alphabetical, PaddedGreater, SamePadded, Strip, ToNat;
    LexIsAlphabetical(Upper(v.patchL), Upper(w.patchL));
    StrippedIsPadded(v.release, w.release);
    TupleTrichotomy(Strip(v.release), Strip(w.release));
    PatchTransitive(Upper(v.patchL), Upper(w.patchL), Upper(v.patchL));
  }

  predicate IsFinal(v: Parsed) {
    v.preL.None? && v.preV.None?
  }

  /** The number of a pre-release; a missing number is before 0. */
  function PreNumber(v: Parsed): int
    requires WellParsed(v)
  {
    if v.preV.Some? && v.preV.value != "" then ToNat(v.preV.value) else -1
  }

  predicate PreAfter(v: Parsed, w: Parsed)
    requires WellParsed(v) && WellParsed(w)
  {
    !IsFinal(w) && (IsFinal(v) || PreNumber(v) > PreNumber(w))
  }

  /** With equal release and patch, any pre-release is before the final release. */
  lemma PreReleaseBeforeFinal(v: Parsed, w: Parsed)
    requires WellParsed(v) && WellParsed(w) && IsFinal(v) && !IsFinal(w)
    requires SamePadded(v.release, w.release) && Upper(v.patchL) == Upper(w.patchL)
    ensures Greater(v, w) && Less(w, v)
  {
    hide Greater, Equal, SamePadded, Upper;
    GreaterMeans(v, w);
    TotalPreorder(v, w, v);
  }

  /** Labels never count: an alpha and a release candidate with the same number are equal. */
  lemma LabelsDoNotCount(v: Parsed, tag: string)
    requires WellParsed(v) && v.preL.Some?
    ensures Equal(v, v.(preL := Some(tag)))
  {}
}
