/** What a relocation that completes leaves alone, and what it writes. The layout of
    the file is assumed to keep the ranges that are written apart from each other and
    away from the headers; then every pass leaves the bytes that later passes read as
    they were, and the bytes outside the written ranges are those of the original. The
    loop over the sections is the heart of it: sections done hold what they should,
    and sections still to come are untouched. */
module RelocationFrame {
  import opened Bytes
  import opened Options
  import opened Relocation

  datatype Kind = Other | Sysdirs | SysdirsLen | Cache | Blocks

  /** What section `i` of the original file is to the script. */
  function KindOf(d0: seq<byte>, h: Header, names: seq<byte>, i: nat): Kind {
    match SectionAt(d0, h, i)
    case None => Other
    case Some(s) =>
      var name := CString(names, s.name);
      if s.stype != 1 then Other
      else if name == Ascii(".sysdirs") then Sysdirs
      else if name == Ascii(".sysdirslen") then SysdirsLen
      else if name == Ascii(".ldsocache") then Cache
      else if name == Ascii(".gccrelocprefix") then Blocks
      else Other
  }

  /** The interpreter segment: the first of its type. */
  function InterpSegment(d: seq<byte>, h: Header, i: nat): Option<Segment>
    decreases h.phnum - i
  {
    if i >= h.phnum then None
    else
      match SegmentAt(d, h, i)
      case None => None
      case Some(p) => if p.ptype == 3 then Some(p) else InterpSegment(d, h, i + 1)
  }

  predicate In(k: nat, off: nat, n: nat) {
    off <= k < off + n
  }

  /** Bytes the script reads to find its way: headers and section names. */
  ghost predicate Guarded(d0: seq<byte>, h: Header, k: nat) {
    || k < 64
    || (exists i :: 0 <= i < h.phnum && In(k, Entry(h.phoff, i, h.phentsize), h.phentsize))
    || (exists i :: 0 <= i < h.shnum && In(k, Entry(h.shoff, i, h.shentsize), h.shentsize))
    || In(k, Entry(h.shoff, h.shstrndx, h.shentsize), h.shentsize)
    || (SectionAt(d0, h, h.shstrndx).Some?
        && In(k, SectionAt(d0, h, h.shstrndx).value.offset, SectionAt(d0, h, h.shstrndx).value.size))
  }

  ghost predicate Apart(off: nat, n: nat, off2: nat, n2: nat) {
    forall k: nat :: !(In(k, off, n) && In(k, off2, n2))
  }

  ghost predicate Unguarded(d0: seq<byte>, h: Header, off: nat, n: nat) {
    forall k: nat :: In(k, off, n) ==> !Guarded(d0, h, k)
  }

  function SectOff(d0: seq<byte>, h: Header, i: nat): nat {
    match SectionAt(d0, h, i) { case Some(s) => s.offset case None => 0 }
  }

  function SectSize(d0: seq<byte>, h: Header, i: nat): nat {
    match SectionAt(d0, h, i) { case Some(s) => s.size case None => 0 }
  }

  /** The sections the script may write lie in the file, away from the headers, from
      each other and from the interpreter. */
  ghost predicate WellLaid(d0: seq<byte>, h: Header, names: seq<byte>) {
    && (forall i :: 0 <= i < h.shnum && KindOf(d0, h, names, i) != Other ==>
          && SectOff(d0, h, i) + SectSize(d0, h, i) <= |d0|
          && Unguarded(d0, h, SectOff(d0, h, i), SectSize(d0, h, i)))
    && (forall i, j :: 0 <= i < j < h.shnum && KindOf(d0, h, names, i) != Other && KindOf(d0, h, names, j) != Other ==>
          Apart(SectOff(d0, h, i), SectSize(d0, h, i), SectOff(d0, h, j), SectSize(d0, h, j)))
    && (InterpSegment(d0, h, 0).Some? ==>
          var p := InterpSegment(d0, h, 0).value;
          && p.offset + p.filesz <= |d0| && Unguarded(d0, h, p.offset, p.filesz)
          && forall i :: 0 <= i < h.shnum && KindOf(d0, h, names, i) != Other ==>
               Apart(SectOff(d0, h, i), SectSize(d0, h, i), p.offset, p.filesz))
  }

  /** Same length, and the same bytes wherever the script looks for its way. */
  ghost predicate SameWay(d0: seq<byte>, h: Header, d: seq<byte>) {
    |d| == |d0| && forall k: nat :: k < |d0| && Guarded(d0, h, k) ==> d[k] == d0[k]
  }

  lemma WaySection(d0: seq<byte>, h: Header, d: seq<byte>, i: nat)
    requires SameWay(d0, h, d) && (i < h.shnum || i == h.shstrndx)
    ensures SectionAt(d, h, i) == SectionAt(d0, h, i)
  {
    hide SectionOf, Entry;
    var at := Entry(h.shoff, i, h.shentsize);
    forall k: nat | at <= k < at + h.shentsize && k < |d0|
      ensures d[k] == d0[k]
    {
      assert In(k, at, h.shentsize);
      assert Guarded(d0, h, k);
    }
    AgreeSlices(d, d0, at, h.shentsize);
  }

  lemma WaySegment(d0: seq<byte>, h: Header, d: seq<byte>, i: nat)
    requires SameWay(d0, h, d) && i < h.phnum
    ensures SegmentAt(d, h, i) == SegmentAt(d0, h, i)
  {
    hide SegmentOf, Entry;
    var at := Entry(h.phoff, i, h.phentsize);
    forall k: nat | at <= k < at + h.phentsize && k < |d0|
      ensures d[k] == d0[k]
    {
      assert In(k, at, h.phentsize);
      assert Guarded(d0, h, k);
    }
    AgreeSlices(d, d0, at, h.phentsize);
  }

  lemma WayNames(d0: seq<byte>, h: Header, d: seq<byte>)
    requires SameWay(d0, h, d)
    ensures NameTable(d, h) == NameTable(d0, h)
  {
    hide SectionOf, Entry;
    WaySection(d0, h, d, h.shstrndx);
    if SectionAt(d0, h, h.shstrndx).Some? {
      var s := SectionAt(d0, h, h.shstrndx).value;
      forall k: nat | s.offset <= k < s.offset + s.size && k < |d0|
        ensures d[k] == d0[k]
      {
        assert Guarded(d0, h, k);
      }
      AgreeSlices(d, d0, s.offset, s.size);
    }
  }

  lemma WayHeader(d0: seq<byte>, h: Header, d: seq<byte>)
    requires SameWay(d0, h, d) && |d0| >= 64
    ensures ArchOf(d) == ArchOf(d0) && HeaderOf(d) == HeaderOf(d0)
  {
    hide Num;
    assert forall k: nat :: k < 64 ==> Guarded(d0, h, k);
    AgreeSlices(d, d0, 0, 64);
    HeaderIsInFront(d);
    HeaderIsInFront(d0);
  }

  // ---------------------------------------------------------------------
  // One write
  // ---------------------------------------------------------------------

  /** Nothing outside the range changed. */
  ghost predicate OnlyIn(d: seq<byte>, e: seq<byte>, off: nat, n: nat) {
    |e| == |d| && forall k: nat :: k < |d| && !In(k, off, n) ==> e[k] == d[k]
  }

  lemma {:induction false} BlocksWritten(d: seq<byte>, off: nat, prefix: seq<byte>, m: nat)
    requires off + BLOCK * m <= |d| && RelocateBlocks(d, off, prefix, m).verdict == Fine
    ensures var e := RelocateBlocks(d, off, prefix, m).data;
            && OnlyIn(d, e, off, BLOCK * m)
            && forall b :: 0 <= b < m ==> BlockDone(d, e, BlockAt(off, b), prefix)
  {
    hide Relocated, Slice, Patch;
    if m == 0 {
    } else {
      var before := RelocateBlocks(d, off, prefix, m - 1);
      BlocksWritten(d, off, prefix, m - 1);
      var at := off + BLOCK * (m - 1);
      var e := RelocateBlocks(d, off, prefix, m).data;
      AgreeSlices(before.data, d, at, BLOCK);
      var bs := Relocated(Slice(before.data, at, BLOCK), prefix, BLOCK).value;
      PatchInside(before.data, at, bs);
      forall b | 0 <= b < m
        ensures BlockDone(d, e, BlockAt(off, b), prefix)
      {
        if b < m - 1 {
          assert BlockDone(d, before.data, BlockAt(off, b), prefix);
          AgreeSlices(e, before.data, BlockAt(off, b), BLOCK);
        }
      }
    }
  }

  /** The block at `at` became its substituted text, padded with zeros. */
  ghost predicate BlockDone(d: seq<byte>, e: seq<byte>, at: nat, prefix: seq<byte>) {
    Relocated(Slice(d, at, BLOCK), prefix, BLOCK) == Some(Slice(e, at, BLOCK))
  }

  function BlockAt(off: nat, b: nat): nat {
    off + BLOCK * b
  }

  /** The bytes of a section that lie in whole blocks. */
  function WholeBlocks(size: nat): (n: nat)
    ensures n <= size
  {
    BLOCK * (size / BLOCK)
  }

  /** What is in section `i` after the scan. */
  ghost predicate SectionDone(d0: seq<byte>, h: Header, names: seq<byte>, prefix: seq<byte>, e: seq<byte>, i: nat) {
    var off, size := SectOff(d0, h, i), SectSize(d0, h, i);
    match KindOf(d0, h, names, i)
    case Cache => Relocated(Slice(d0, off, size), prefix, size) == Some(Slice(e, off, size))
    case Blocks =>
      && (forall b :: 0 <= b < size / BLOCK ==> BlockDone(d0, e, BlockAt(off, b), prefix))
      && |e| == |d0|
      && (forall k: nat :: k < |d0| && In(k, off + WholeBlocks(size), size - WholeBlocks(size)) ==> e[k] == d0[k])
    case _ => true
  }

  lemma DoneStays(d0: seq<byte>, h: Header, names: seq<byte>, prefix: seq<byte>, e: seq<byte>, f: seq<byte>, i: nat)
    requires SectionDone(d0, h, names, prefix, e, i) && KindOf(d0, h, names, i) in {Cache, Blocks}
    requires AgreeOn(e, f, SectOff(d0, h, i), SectSize(d0, h, i))
    ensures SectionDone(d0, h, names, prefix, f, i)
  {
    hide KindOf, SectOff, SectSize, Relocated, Slice;
    var off, size := SectOff(d0, h, i), SectSize(d0, h, i);
    AgreeSlices(e, f, off, size);
    if KindOf(d0, h, names, i) == Blocks {
      forall b | 0 <= b < size / BLOCK
        ensures BlockDone(d0, f, BlockAt(off, b), prefix)
      {
        BlockFits(size, b);
        assert BlockDone(d0, e, BlockAt(off, b), prefix);
        AgreeSlices(e, f, BlockAt(off, b), BLOCK);
      }
      BlockFits(size, 0);
    }
  }

  lemma BlockFits(size: nat, b: nat)
    ensures b < size / BLOCK ==> BLOCK * b + BLOCK <= WholeBlocks(size)
    ensures WholeBlocks(size) == BLOCK * (size / BLOCK) <= size
  {}

  // ---------------------------------------------------------------------
  // The scan over the sections
  // ---------------------------------------------------------------------

  /** The last .sysdirs, and the last .sysdirslen, among the first `n` sections. */
  function LastOf(d0: seq<byte>, h: Header, names: seq<byte>, kind: Kind, n: nat): Option<nat> {
    if n == 0 then None
    else if KindOf(d0, h, names, n - 1) == kind then Some(n - 1)
    else LastOf(d0, h, names, kind, n - 1)
  }

  lemma {:induction false} LastIs(d0: seq<byte>, h: Header, names: seq<byte>, kind: Kind, n: nat)
    ensures LastOf(d0, h, names, kind, n).Some? ==>
              LastOf(d0, h, names, kind, n).value < n && KindOf(d0, h, names, LastOf(d0, h, names, kind, n).value)
                == kind
  {
    hide KindOf;
    if n == 0 {
    } else {
      LastIs(d0, h, names, kind, n - 1);
    }
  }

  ghost predicate Touched(d0: seq<byte>, h: Header, names: seq<byte>, n: nat, k: nat) {
    exists i :: 0 <= i < n && KindOf(d0, h, names, i) in {Cache, Blocks} && In(k, SectOff(d0, h, i), SectSize(d0, h, i))
  }

  ghost predicate ScanGood(d0: seq<byte>, h: Header, names: seq<byte>, prefix: seq<byte>, base: seq<byte>, n: nat,
                           scan: Scan) {
    var e := scan.out.data;
    && |e| == |base|
    && (forall k: nat :: k < |base| && !Touched(d0, h, names, n, k) ==> e[k] == base[k])
    && (forall i :: 0 <= i < n ==> SectionDone(d0, h, names, prefix, e, i))
    && (scan.sysdirs == match LastOf(d0, h, names, Sysdirs, n)
                        case None => None
                        case Some(i) =>
                          var off, size := SectOff(d0, h, i), SectSize(d0, h, i);
                          Some((Slice(d0, off, size), off, size)))
    && (scan.lens == match LastOf(d0, h, names, SysdirsLen, n)
                     case None => None
                     case Some(i) => Some(SectOff(d0, h, i)))
  }

  /** The start of the scan: like the original outside the interpreter. */
  ghost predicate GoodBase(d0: seq<byte>, h: Header, names: seq<byte>, base: seq<byte>) {
    && SameWay(d0, h, base)
    && forall i :: 0 <= i < h.shnum && KindOf(d0, h, names, i) != Other ==>
         AgreeOn(base, d0, SectOff(d0, h, i), SectSize(d0, h, i))
  }

  lemma TouchedMore(d0: seq<byte>, h: Header, names: seq<byte>, n: nat, k: nat)
    ensures Touched(d0, h, names, n, k) ==> Touched(d0, h, names, n + 1, k)
    ensures KindOf(d0, h, names, n) in {Cache, Blocks} && In(k, SectOff(d0, h, n), SectSize(d0, h, n))
            ==> Touched(d0, h, names, n + 1, k)
    ensures Touched(d0, h, names, n + 1, k) ==>
              (Touched(d0, h, names, n, k)
               || (KindOf(d0, h, names, n) in {Cache, Blocks} && In(k, SectOff(d0, h, n), SectSize(d0, h, n))))
  {
    hide KindOf, SectOff, SectSize;
  }

  lemma TouchedIsUnguarded(d0: seq<byte>, h: Header, names: seq<byte>, n: nat, k: nat)
    requires WellLaid(d0, h, names) && n <= h.shnum && Touched(d0, h, names, n, k)
    ensures !Guarded(d0, h, k)
  {
    hide KindOf, SectOff, SectSize, Guarded;
    var i :| 0 <= i < n && KindOf(d0, h, names, i) in {Cache, Blocks} && In(k, SectOff(d0, h, i), SectSize(d0, h, i));
    assert Unguarded(d0, h, SectOff(d0, h, i), SectSize(d0, h, i));
  }

  /** Before section `n` is handled its bytes are still the original ones. */
  lemma SectionFresh(d0: seq<byte>, h: Header, names: seq<byte>, prefix: seq<byte>, base: seq<byte>, n: nat, scan: Scan)
    requires WellLaid(d0, h, names) && GoodBase(d0, h, names, base) && n < h.shnum
    requires ScanGood(d0, h, names, prefix, base, n, scan) && KindOf(d0, h, names, n) != Other
    ensures AgreeOn(scan.out.data, d0, SectOff(d0, h, n), SectSize(d0, h, n))
  {
    hide KindOf, SectOff, SectSize, Guarded, SectionDone, LastOf, Slice;
    var off, size := SectOff(d0, h, n), SectSize(d0, h, n);
    forall k: nat | off <= k < off + size && k < |d0|
      ensures scan.out.data[k] == d0[k]
    {
      assert In(k, off, size);
      forall i | 0 <= i < n && KindOf(d0, h, names, i) in {Cache, Blocks}
        ensures !In(k, SectOff(d0, h, i), SectSize(d0, h, i))
      {
        assert Apart(SectOff(d0, h, i), SectSize(d0, h, i), off, size);
      }
    }
  }

  lemma ScanKeepsWay(d0: seq<byte>, h: Header, names: seq<byte>, prefix: seq<byte>, base: seq<byte>, n: nat, scan: Scan)
    requires WellLaid(d0, h, names) && GoodBase(d0, h, names, base) && n <= h.shnum
    requires ScanGood(d0, h, names, prefix, base, n, scan)
    ensures SameWay(d0, h, scan.out.data)
  {
    hide KindOf, SectOff, SectSize, Guarded, SectionDone, LastOf, Slice, WellLaid;
    forall k: nat | k < |d0| && Guarded(d0, h, k)
      ensures scan.out.data[k] == d0[k]
    {
      if Touched(d0, h, names, n, k) {
        TouchedIsUnguarded(d0, h, names, n, k);
        assert false;
      }
    }
  }

  /** What handling section `n` does to the file. */
  lemma StepWrites(d0: seq<byte>, h: Header, names: seq<byte>, prefix: seq<byte>, n: nat, scan: Scan, s: Section)
    requires SectionAt(d0, h, n) == Some(s)
    requires KindOf(d0, h, names, n) in {Cache, Blocks} ==>
               AgreeOn(scan.out.data, d0, s.offset, s.size) && s.offset + s.size <= |d0|
    requires scan.out.verdict == Fine && SectionStep(scan, s, CString(names, s.name), prefix).out.verdict == Fine
    ensures var next := SectionStep(scan, s, CString(names, s.name), prefix);
            && (if KindOf(d0, h, names, n) in {Cache, Blocks}
                then OnlyIn(scan.out.data, next.out.data, s.offset, s.size)
                else next.out.data == scan.out.data)
            && (KindOf(d0, h, names, n) in {Cache, Blocks} ==> SectionDone(d0, h, names, prefix, next.out.data, n))
  {
    hide Slice, Patch, CString, Ascii, Relocated, SectionAt;
    var e := scan.out.data;
    AgreeBoth(e, d0, s.offset, s.size);
    match KindOf(d0, h, names, n)
    case Cache =>
      var bs := Relocated(Slice(e, s.offset, s.size), prefix, s.size).value;
      PatchInside(e, s.offset, bs);
    case Blocks =>
      BlockFits(s.size, 0);
      var m := s.size / BLOCK;
      BlocksWritten(e, s.offset, prefix, m);
      var f := RelocateBlocks(e, s.offset, prefix, m).data;
      forall b | 0 <= b < m
        ensures BlockDone(d0, f, BlockAt(s.offset, b), prefix)
      {
        BlockFits(s.size, b);
        assert BlockDone(e, f, BlockAt(s.offset, b), prefix);
        AgreeSlices(e, d0, BlockAt(s.offset, b), BLOCK);
      }
    case _ =>
  }

  lemma AgreeBoth(e: seq<byte>, d0: seq<byte>, off: nat, n: nat)
    ensures AgreeOn(e, d0, off, n) ==> Slice(e, off, n) == Slice(d0, off, n)
  {
    if AgreeOn(e, d0, off, n) { AgreeSlices(e, d0, off, n); }
  }

  lemma {:induction false} ScanIsGood(d0: seq<byte>, h: Header, names: seq<byte>, prefix: seq<byte>, base: seq<byte>,
                                      n: nat)
    requires WellLaid(d0, h, names) && GoodBase(d0, h, names, base) && n <= h.shnum
    requires ScanSections(base, h, names, prefix, n).out.verdict == Fine
    ensures ScanGood(d0, h, names, prefix, base, n, ScanSections(base, h, names, prefix, n))
  {
    hide KindOf, SectOff, SectSize, Guarded, SectionDone, Slice, WellLaid, GoodBase, SectionStep, SectionAt, Touched,
         CString;
    if n > 0 {
      var scan := ScanSections(base, h, names, prefix, n - 1);
      ScanIsGood(d0, h, names, prefix, base, n - 1);
      ScanKeepsWay(d0, h, names, prefix, base, n - 1, scan);
      WaySection(d0, h, scan.out.data, n - 1);
      var s := SectionAt(d0, h, n - 1).value;
      OneMoreSection(d0, h, names, prefix, base, n - 1, scan, s);
    } else {
      assert forall k :: !Touched(d0, h, names, 0, k) by { NothingTouched(d0, h, names); }
    }
  }

  lemma NothingTouched(d0: seq<byte>, h: Header, names: seq<byte>)
    ensures forall k :: !Touched(d0, h, names, 0, k)
  {}

  lemma OneMoreSection(d0: seq<byte>, h: Header, names: seq<byte>, prefix: seq<byte>, base: seq<byte>, n: nat,
                       scan: Scan, s: Section)
    requires WellLaid(d0, h, names) && GoodBase(d0, h, names, base) && n < h.shnum
    requires ScanGood(d0, h, names, prefix, base, n, scan) && scan.out.verdict == Fine
    requires SectionAt(d0, h, n) == Some(s)
    requires SectionStep(scan, s, CString(names, s.name), prefix).out.verdict == Fine
    ensures ScanGood(d0, h, names, prefix, base, n + 1, SectionStep(scan, s, CString(names, s.name), prefix))
  {
    hide Guarded, SectionDone, Slice, Touched, CString, SectionAt, SectionStep, WellLaid, KindOf;
    var next := SectionStep(scan, s, CString(names, s.name), prefix);
    var kind := KindOf(d0, h, names, n);
    assert SectOff(d0, h, n) == s.offset && SectSize(d0, h, n) == s.size;
    if kind != Other {
      SectionFresh(d0, h, names, prefix, base, n, scan);
      LaidInFile(d0, h, names, n);
      AgreeSlices(scan.out.data, d0, s.offset, s.size);
    }
    StepWrites(d0, h, names, prefix, n, scan, s);
    StepNotes(d0, h, names, prefix, n, scan, s);
    forall k: nat | k < |base| && !Touched(d0, h, names, n + 1, k)
      ensures next.out.data[k] == base[k]
    {
      TouchedMore(d0, h, names, n, k);
    }
    forall i | 0 <= i < n + 1
      ensures SectionDone(d0, h, names, prefix, next.out.data, i)
    {
      if i < n {
        EarlierStays(d0, h, names, prefix, scan.out.data, next.out.data, i, n);
      } else if kind !in {Cache, Blocks} {
        OtherIsDone(d0, h, names, prefix, next.out.data, i);
      }
    }
  }

  lemma OtherIsDone(d0: seq<byte>, h: Header, names: seq<byte>, prefix: seq<byte>, e: seq<byte>, i: nat)
    requires KindOf(d0, h, names, i) !in {Cache, Blocks}
    ensures SectionDone(d0, h, names, prefix, e, i)
  {}

  lemma LaidInFile(d0: seq<byte>, h: Header, names: seq<byte>, i: nat)
    requires WellLaid(d0, h, names) && i < h.shnum && KindOf(d0, h, names, i) != Other
    ensures SectOff(d0, h, i) + SectSize(d0, h, i) <= |d0|
  {}

  lemma LaidApart(d0: seq<byte>, h: Header, names: seq<byte>, i: nat, j: nat)
    requires WellLaid(d0, h, names) && i < h.shnum && j < h.shnum && i != j
    requires KindOf(d0, h, names, i) != Other && KindOf(d0, h, names, j) != Other
    ensures forall k: nat ::
              !(In(k, SectOff(d0, h, i), SectSize(d0, h, i)) && In(k, SectOff(d0, h, j), SectSize(d0, h, j)))
  {
    hide KindOf, SectOff, SectSize, Guarded;
    if i < j {
      assert Apart(SectOff(d0, h, i), SectSize(d0, h, i), SectOff(d0, h, j), SectSize(d0, h, j));
    } else {
      assert Apart(SectOff(d0, h, j), SectSize(d0, h, j), SectOff(d0, h, i), SectSize(d0, h, i));
    }
  }

  /** A write confined to section `j` leaves what is in section `i`. */
  lemma EarlierStays(d0: seq<byte>, h: Header, names: seq<byte>, prefix: seq<byte>, e: seq<byte>, f: seq<byte>,
                     i: nat, j: nat)
    requires WellLaid(d0, h, names) && i < h.shnum && j < h.shnum && i != j
    requires SectionDone(d0, h, names, prefix, e, i) && |e| == |d0|
    requires e == f || (KindOf(d0, h, names, j) != Other && OnlyIn(e, f, SectOff(d0, h, j), SectSize(d0, h, j)))
    ensures SectionDone(d0, h, names, prefix, f, i)
  {
    hide KindOf, SectOff, SectSize, Guarded, SectionDone, WellLaid;
    if KindOf(d0, h, names, i) !in {Cache, Blocks} {
      OtherIsDone(d0, h, names, prefix, f, i);
    } else if e != f {
      LaidApart(d0, h, names, i, j);
      var off, size := SectOff(d0, h, i), SectSize(d0, h, i);
      forall k: nat | off <= k < off + size && k < |e|
        ensures e[k] == f[k]
      {
        assert In(k, off, size);
      }
      DoneStays(d0, h, names, prefix, e, f, i);
    }
  }

  /** What the scan remembers of section `n`. */
  lemma StepNotes(d0: seq<byte>, h: Header, names: seq<byte>, prefix: seq<byte>, n: nat, scan: Scan, s: Section)
    requires SectionAt(d0, h, n) == Some(s)
    requires KindOf(d0, h, names, n) != Other ==> Slice(scan.out.data, s.offset, s.size) == Slice(d0, s.offset, s.size)
    ensures var next := SectionStep(scan, s, CString(names, s.name), prefix);
            && next.sysdirs == (if KindOf(d0, h, names, n) == Sysdirs
                                then Some((Slice(d0, s.offset, s.size), s.offset, s.size)) else scan.sysdirs)
            && next.lens == (if KindOf(d0, h, names, n) == SysdirsLen then Some(s.offset) else scan.lens)
  {
    hide Slice, CString, Ascii, SectionAt;
  }
}
