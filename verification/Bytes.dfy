/** Byte sequences: cutting, overwriting, numbers in either byte order. */
module Bytes {

  type byte = x: int | 0 <= x < 256

  /** What reading `n` bytes at `off` gives; less at the end of the file. */
  function Slice(data: seq<byte>, off: nat, n: nat): (s: seq<byte>)
    ensures off + n <= |data| ==> |s| == n && s == data[off..off + n]
  {
    if off >= |data| then []
    else if off + n <= |data| then data[off..off + n]
    else data[off..]
  }

  function Zeros(n: nat): (s: seq<byte>)
    ensures |s| == n && forall i :: 0 <= i < n ==> s[i] == 0
  {
    seq(n, _ => 0)
  }

  /** Writing `bs` at `off`: a gap is filled with zeros, and the file may grow. */
  function Patch(data: seq<byte>, off: nat, bs: seq<byte>): seq<byte> {
    if bs == [] then data
    else if off >= |data| then data + Zeros(off - |data|) + bs
    else if off + |bs| <= |data| then data[..off] + bs + data[off + |bs|..]
    else data[..off] + bs
  }

  lemma PatchInside(data: seq<byte>, off: nat, bs: seq<byte>)
    requires off + |bs| <= |data|
    ensures var p := Patch(data, off, bs);
            && |p| == |data|
            && (forall k :: 0 <= k < |data| && !(off <= k < off + |bs|) ==> p[k] == data[k])
            && Slice(p, off, |bs|) == bs
  {}

  /** Both files look the same from `off` on for `n` bytes. */
  ghost predicate AgreeOn(d: seq<byte>, e: seq<byte>, off: nat, n: nat) {
    |d| == |e| && forall k :: off <= k < off + n && k < |d| ==> d[k] == e[k]
  }

  lemma AgreeSlices(d: seq<byte>, e: seq<byte>, off: nat, n: nat)
    requires AgreeOn(d, e, off, n)
    ensures Slice(d, off, n) == Slice(e, off, n)
  {}

  /** A number, least significant byte first. */
  function Little(bs: seq<byte>): nat {
    if bs == [] then 0 else bs[0] + 256 * Little(bs[1..])
  }

  function Big(bs: seq<byte>): nat {
    if bs == [] then 0 else 256 * Big(bs[..|bs| - 1]) + bs[|bs| - 1]
  }

  function Num(bs: seq<byte>, little: bool): nat {
    if little then Little(bs) else Big(bs)
  }

  /** `n` in `w` bytes, least significant first. */
  function PackLittle(n: nat, w: nat): (bs: seq<byte>)
    ensures |bs| == w
  {
    if w == 0 then [] else [n % 256] + PackLittle(n / 256, w - 1)
  }

  function Capacity(w: nat): nat {
    if w == 0 then 1 else 256 * Capacity(w - 1)
  }

  lemma {:induction false} PackRoundTrip(n: nat, w: nat)
    requires n < Capacity(w)
    ensures Little(PackLittle(n, w)) == n
  {
    if w == 0 {
    } else {
      assert n / 256 < Capacity(w - 1);
      PackRoundTrip(n / 256, w - 1);
      assert PackLittle(n, w)[1..] == PackLittle(n / 256, w - 1);
    }
  }

  function StripZeros(bs: seq<byte>): (s: seq<byte>)
    ensures s <= bs && (s == [] || s[|s| - 1] != 0)
    ensures forall k :: |s| <= k < |bs| ==> bs[k] == 0
  {
    if bs != [] && bs[|bs| - 1] == 0 then StripZeros(bs[..|bs| - 1]) else bs
  }

  /** Zeros up to `n` bytes; nothing when there are that many already. */
  function PadTo(bs: seq<byte>, n: nat): (s: seq<byte>)
    ensures |bs| <= n ==> |s| == n
    ensures bs <= s
  {
    if |bs| < n then bs + Zeros(n - |bs|) else bs
  }

  /** The index of the first zero at or after `from`, if there is one. */
  function FindZero(bs: seq<byte>, from: nat): (i: int)
    ensures i == -1 || (from <= i < |bs| && bs[i] == 0)
    ensures forall k :: from <= k < (if i == -1 then |bs| else i) ==> bs[k] != 0
    decreases |bs| - from
  {
    if from >= |bs| then -1 else if bs[from] == 0 then from else FindZero(bs, from + 1)
  }

  /** `bs[from : bs.find(0, from)]`; without a zero Python stops before the last byte. */
  function CString(bs: seq<byte>, from: nat): seq<byte> {
    var end := FindZero(bs, from);
    var stop := if end == -1 then |bs| - 1 else end;
    if from < stop then bs[from..stop] else []
  }

  function Ascii(s: string): seq<byte> {
    seq(|s|, i requires 0 <= i < |s| => (s[i] as int) % 256)
  }
}
