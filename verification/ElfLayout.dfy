/** The headers of the System V ABI, chapters 4 and 5, written field by field, and what
    the script reads out of them. */
module ElfLayout {
  import opened Bytes
  import opened Options
  import opened Relocation
  import opened RelocationFrame

  /** A field and its width in bytes. */
  datatype FieldValue = FieldValue(value: nat, width: nat)

  function PackBig(n: nat, w: nat): (bs: seq<byte>)
    ensures |bs| == w
  {
    if w == 0 then [] else PackBig(n / 256, w - 1) + [n % 256]
  }

  /** A number in the byte order of the file. */
  function Packed(f: FieldValue, little: bool): (bs: seq<byte>)
    ensures |bs| == f.width
  {
    if little then PackLittle(f.value, f.width) else PackBig(f.value, f.width)
  }

  function Layout(fs: seq<FieldValue>, little: bool): seq<byte> {
    if fs == [] then [] else Packed(fs[0], little) + Layout(fs[1..], little)
  }

  /** Where field `k` starts. */
  function Offset(fs: seq<FieldValue>, k: nat): nat
    requires k <= |fs|
  {
    if k == 0 then 0 else Offset(fs, k - 1) + fs[k - 1].width
  }

  ghost predicate Fits(fs: seq<FieldValue>) {
    forall k :: 0 <= k < |fs| ==> fs[k].value < Capacity(fs[k].width)
  }

  lemma {:induction false} BigRoundTrip(n: nat, w: nat)
    requires n < Capacity(w)
    ensures Big(PackBig(n, w)) == n
  {
    if w == 0 {
    } else {
      assert n / 256 < Capacity(w - 1);
      BigRoundTrip(n / 256, w - 1);
      assert PackBig(n, w)[..w - 1] == PackBig(n / 256, w - 1);
    }
  }

  lemma PackedReadsBack(f: FieldValue, little: bool)
    requires f.value < Capacity(f.width)
    ensures Num(Packed(f, little), little) == f.value
  {
    if little { PackRoundTrip(f.value, f.width); } else { BigRoundTrip(f.value, f.width); }
  }

  lemma {:induction false} OffsetTail(fs: seq<FieldValue>, k: nat)
    requires 0 < k <= |fs|
    ensures Offset(fs, k) == fs[0].width + Offset(fs[1..], k - 1)
  {
    if k == 1 {
    } else {
      OffsetTail(fs, k - 1);
      assert fs[1..][k - 2] == fs[k - 1];
    }
  }

  /** Every field can be read at its place. */
  lemma {:induction false} FieldReadsBack(before: seq<byte>, fs: seq<FieldValue>, after: seq<byte>, k: nat,
                                          little: bool)
    requires Fits(fs) && k < |fs|
    ensures var data := before + Layout(fs, little) + after;
            Field(data, |before| + Offset(fs, k), fs[k].width, little) == fs[k].value
    decreases k
  {
    hide Packed, Num, Capacity;
    var data := before + Layout(fs, little) + after;
    var first, rest := Packed(fs[0], little), Layout(fs[1..], little);
    if k == 0 {
      PackedReadsBack(fs[0], little);
      assert data == before + first + (rest + after);
      assert data[|before|..|before| + |first|] == first;
    } else {
      FieldReadsBack(before + first, fs[1..], after, k - 1, little);
      OffsetTail(fs, k);
      assert data == (before + first) + rest + after;
    }
  }

  lemma OffsetStep(fs: seq<FieldValue>, k: nat)
    requires k < |fs|
    ensures Offset(fs, k + 1) == Offset(fs, k) + fs[k].width
  {}

  // ---------------------------------------------------------------------
  // The file header
  // ---------------------------------------------------------------------

  datatype FileHeader = FileHeader(
    etype: nat, machine: nat, version: nat, entry: nat, phoff: nat, shoff: nat, flags: nat, ehsize: nat,
    phentsize: nat, phnum: nat, shentsize: nat, shnum: nat, shstrndx: nat)

  /** The fields behind the identification; addresses take 4 or 8 bytes. */
  function HeaderFields(e: FileHeader, a: nat): seq<FieldValue> {
    [FieldValue(e.etype, 2), FieldValue(e.machine, 2), FieldValue(e.version, 4), FieldValue(e.entry, a),
     FieldValue(e.phoff, a), FieldValue(e.shoff, a), FieldValue(e.flags, 4), FieldValue(e.ehsize, 2),
     FieldValue(e.phentsize, 2), FieldValue(e.phnum, 2), FieldValue(e.shentsize, 2), FieldValue(e.shnum, 2),
     FieldValue(e.shstrndx, 2)]
  }

  lemma HeaderOffsets(e: FileHeader, a: nat)
    ensures var fs := HeaderFields(e, a);
            && Offset(fs, 4) == 8 + a && Offset(fs, 5) == 8 + 2 * a
            && Offset(fs, 8) == 14 + 3 * a && Offset(fs, 9) == 16 + 3 * a && Offset(fs, 10) == 18 + 3 * a
            && Offset(fs, 11) == 20 + 3 * a && Offset(fs, 12) == 22 + 3 * a
  {
    hide Offset;
    var fs := HeaderFields(e, a);
    assert Offset(fs, 0) == 0 by { NoOffset(fs); }
    OffsetStep(fs, 0);
    OffsetStep(fs, 1);
    OffsetStep(fs, 2);
    OffsetStep(fs, 3);
    OffsetStep(fs, 4);
    OffsetStep(fs, 5);
    OffsetStep(fs, 6);
    OffsetStep(fs, 7);
    OffsetStep(fs, 8);
    OffsetStep(fs, 9);
    OffsetStep(fs, 10);
    OffsetStep(fs, 11);
  }

  lemma NoOffset(fs: seq<FieldValue>)
    ensures Offset(fs, 0) == 0
  {}

  /** A header written as the ABI lays it out is read field by field. */
  lemma HeaderReadsBack(ident: seq<byte>, e: FileHeader, bits: nat, little: bool, after: seq<byte>)
    requires |ident| == 16 && ident[0] == 0x7f && bits in {32, 64} && ident[4] == bits / 32
    requires ident[5] == if little then 1 else 2
    requires Fits(HeaderFields(e, bits / 8))
    requires |ident + Layout(HeaderFields(e, bits / 8), little) + after| >= 64
    ensures var data := ident + Layout(HeaderFields(e, bits / 8), little) + after;
            && ArchOf(data) == bits
            && HeaderOf(data)
               == Header(bits, little, e.phoff, e.shoff, e.phentsize, e.phnum, e.shentsize, e.shnum, e.shstrndx)
  {
    hide Field, Layout, Offset, Fits;
    var fs := HeaderFields(e, bits / 8);
    HeaderOffsets(e, bits / 8);
    FieldReadsBack(ident, fs, after, 4, little);
    FieldReadsBack(ident, fs, after, 5, little);
    FieldReadsBack(ident, fs, after, 8, little);
    FieldReadsBack(ident, fs, after, 9, little);
    FieldReadsBack(ident, fs, after, 10, little);
    FieldReadsBack(ident, fs, after, 11, little);
    FieldReadsBack(ident, fs, after, 12, little);
    var data := ident + Layout(fs, little) + after;
    assert data[0] == ident[0] && data[4] == ident[4] && data[5] == ident[5];
  }

  /** The script leaves a file alone exactly when its first byte is not 0x7f or its class
      is neither 1 nor 2. */
  lemma LeftAloneIff(data: seq<byte>)
    requires |data| >= 64
    ensures ArchOf(data) != 0 <==> data[0] == 0x7f && (data[4] == 1 || data[4] == 2)
    ensures ArchOf(data) != 0 ==> ArchOf(data) == 32 * data[4]
  {}

  // ---------------------------------------------------------------------
  // Program headers and section headers
  // ---------------------------------------------------------------------

  datatype ProgramHeader = ProgramHeader(
    ptype: nat, flags: nat, offset: nat, vaddr: nat, paddr: nat, filesz: nat, memsz: nat, align: nat)

  function ProgramFields(p: ProgramHeader, bits: nat): seq<FieldValue> {
    if bits == 32 then
      [FieldValue(p.ptype, 4), FieldValue(p.offset, 4), FieldValue(p.vaddr, 4), FieldValue(p.paddr, 4),
       FieldValue(p.filesz, 4), FieldValue(p.memsz, 4), FieldValue(p.flags, 4), FieldValue(p.align, 4)]
    else
      [FieldValue(p.ptype, 4), FieldValue(p.flags, 4), FieldValue(p.offset, 8), FieldValue(p.vaddr, 8),
       FieldValue(p.paddr, 8), FieldValue(p.filesz, 8), FieldValue(p.memsz, 8), FieldValue(p.align, 8)]
  }

  lemma EightOffsets(fs: seq<FieldValue>)
    requires |fs| == 8
    ensures Offset(fs, 1) == fs[0].width && Offset(fs, 2) == Offset(fs, 1) + fs[1].width
    ensures Offset(fs, 4) == Offset(fs, 2) + fs[2].width + fs[3].width
    ensures Offset(fs, 5) == Offset(fs, 4) + fs[4].width
    ensures Offset(fs, 8) == Offset(fs, 5) + fs[5].width + fs[6].width + fs[7].width
  {
    hide Offset;
    NoOffset(fs);
    OffsetStep(fs, 0);
    OffsetStep(fs, 1);
    OffsetStep(fs, 2);
    OffsetStep(fs, 3);
    OffsetStep(fs, 4);
    OffsetStep(fs, 5);
    OffsetStep(fs, 6);
    OffsetStep(fs, 7);
  }

  lemma {:induction false} LayoutSize(fs: seq<FieldValue>, little: bool)
    ensures |Layout(fs, little)| == Offset(fs, |fs|)
  {
    if fs == [] {
    } else {
      LayoutSize(fs[1..], little);
      OffsetTail(fs, |fs|);
    }
  }

  lemma SegmentReadsBack(p: ProgramHeader, h: Header)
    requires h.bits in {32, 64} && Fits(ProgramFields(p, h.bits))
    ensures SegmentOf(Layout(ProgramFields(p, h.bits), h.little), h) == Some(Segment(p.ptype, p.offset, p.filesz))
  {
    hide Field, Layout, Offset, Fits;
    var fs := ProgramFields(p, h.bits);
    EightOffsets(fs);
    NoOffset(fs);
    LayoutSize(fs, h.little);
    var bs := Layout(fs, h.little);
    assert [] + bs + [] == bs;
    FieldReadsBack([], fs, [], 0, h.little);
    FieldReadsBack([], fs, [], 1, h.little);
    FieldReadsBack([], fs, [], 2, h.little);
    FieldReadsBack([], fs, [], 4, h.little);
    FieldReadsBack([], fs, [], 5, h.little);
  }

  datatype SectionHeader = SectionHeader(
    name: nat, stype: nat, flags: nat, addr: nat, offset: nat, size: nat, link: nat, info: nat, align: nat,
    entsize: nat)

  function SectionFields(s: SectionHeader, a: nat): seq<FieldValue> {
    [FieldValue(s.name, 4), FieldValue(s.stype, 4), FieldValue(s.flags, a), FieldValue(s.addr, a),
     FieldValue(s.offset, a), FieldValue(s.size, a), FieldValue(s.link, 4), FieldValue(s.info, 4),
     FieldValue(s.align, a), FieldValue(s.entsize, a)]
  }

  lemma SectionOffsets(s: SectionHeader, a: nat)
    ensures var fs := SectionFields(s, a);
            && Offset(fs, 0) == 0 && Offset(fs, 1) == 4 && Offset(fs, 4) == 8 + 2 * a && Offset(fs, 5) == 8 + 3 * a
            && Offset(fs, 10) == 16 + 6 * a
  {
    hide Offset;
    var fs := SectionFields(s, a);
    NoOffset(fs);
    OffsetStep(fs, 0);
    OffsetStep(fs, 1);
    OffsetStep(fs, 2);
    OffsetStep(fs, 3);
    OffsetStep(fs, 4);
    OffsetStep(fs, 5);
    OffsetStep(fs, 6);
    OffsetStep(fs, 7);
    OffsetStep(fs, 8);
    OffsetStep(fs, 9);
  }

  lemma SectionReadsBack(s: SectionHeader, h: Header)
    requires h.bits in {32, 64} && Fits(SectionFields(s, h.bits / 8))
    ensures SectionOf(Layout(SectionFields(s, h.bits / 8), h.little), h)
            == Some(Section(s.name, s.stype, s.offset, s.size))
  {
    hide Field, Layout, Offset, Fits;
    var fs := SectionFields(s, h.bits / 8);
    SectionOffsets(s, h.bits / 8);
    LayoutSize(fs, h.little);
    var bs := Layout(fs, h.little);
    assert [] + bs + [] == bs;
    FieldReadsBack([], fs, [], 0, h.little);
    FieldReadsBack([], fs, [], 1, h.little);
    FieldReadsBack([], fs, [], 4, h.little);
    FieldReadsBack([], fs, [], 5, h.little);
  }

  // ---------------------------------------------------------------------
  // Section names
  // ---------------------------------------------------------------------

  /** A name in the table is read up to its zero. */
  lemma NameReads(before: seq<byte>, name: seq<byte>, after: seq<byte>)
    requires 0 !in name
    ensures CString(before + name + [0] + after, |before|) == name
  {
    var names := before + name + [0] + after;
    assert names[|before| + |name|] == 0;
    assert forall k :: |before| <= k < |before| + |name| ==> names[k] == name[k - |before|];
    assert names[|before|..|before| + |name|] == name;
  }

  /** Only sections of program data with one of four names are handled, each by its name. */
  lemma KindByName(d: seq<byte>, h: Header, before: seq<byte>, name: string, after: seq<byte>, i: nat, s: Section)
    requires SectionAt(d, h, i) == Some(s) && s.name == |before| && 0 !in Ascii(name)
    requires forall k :: 0 <= k < |name| ==> name[k] as int < 256
    ensures KindOf(d, h, before + Ascii(name) + [0] + after, i)
            == if s.stype != 1 then Other
               else if name == ".sysdirs" then Sysdirs
               else if name == ".sysdirslen" then SysdirsLen
               else if name == ".ldsocache" then Cache
               else if name == ".gccrelocprefix" then Blocks
               else Other
  {
    hide CString, SectionAt;
    NameReads(before, Ascii(name), after);
    SameAscii(name, ".sysdirs");
    SameAscii(name, ".sysdirslen");
    SameAscii(name, ".ldsocache");
    SameAscii(name, ".gccrelocprefix");
  }

  lemma SameAscii(s: string, t: string)
    requires forall k :: 0 <= k < |s| ==> s[k] as int < 256
    ensures (forall k :: 0 <= k < |t| ==> t[k] as int < 256) ==> (Ascii(s) == Ascii(t) <==> s == t)
  {
    if Ascii(s) == Ascii(t) {
      assert |s| == |t|;
      forall k | 0 <= k < |s|
        ensures (t[k] as int < 256) ==> s[k] == t[k]
      {
        assert Ascii(s)[k] == Ascii(t)[k];
      }
    }
  }
}
