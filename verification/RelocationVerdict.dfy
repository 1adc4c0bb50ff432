/** When a relocation completes, and how it ends otherwise. */
module RelocationVerdict {
  import opened Bytes
  import opened Options
  import opened Relocation
  import opened RelocationFrame
  import opened RelocationMeaning
  import opened RelocationTheorems

  /** Every program header up to the one of the interpreter can be read. */
  ghost predicate SegmentsReadable(d0: seq<byte>, h: Header, i: nat)
    decreases h.phnum - i
  {
    i < h.phnum ==>
      SegmentAt(d0, h, i).Some? && (SegmentAt(d0, h, i).value.ptype != 3 ==> SegmentsReadable(d0, h, i + 1))
  }

  /** The text with the prefix for every marker fits into its place, with a zero behind it. */
  ghost predicate Fits(was: seq<byte>, prefix: seq<byte>) {
    exists now :: HoldsText(was, prefix, now)
  }

  /** The new text of a section, or of each of its blocks, fits. */
  ghost predicate TextFits(d0: seq<byte>, h: Header, names: seq<byte>, prefix: seq<byte>, i: nat) {
    var off, size := SectOff(d0, h, i), SectSize(d0, h, i);
    && (KindOf(d0, h, names, i) == Cache ==> Fits(Slice(d0, off, size), prefix))
    && (KindOf(d0, h, names, i) == Blocks ==>
          forall b: nat :: b < size / BLOCK ==> Fits(Slice(d0, BlockAt(off, b), BLOCK), prefix))
  }

  /** Search paths come with a section for their lengths, which takes every length. */
  ghost predicate LengthsHaveRoom(d0: seq<byte>, h: Header, names: seq<byte>, prefix: seq<byte>) {
    forall i: nat :: LastOf(d0, h, names, Sysdirs, h.shnum) == Some(i) ==>
      && LastOf(d0, h, names, SysdirsLen, h.shnum).Some?
      && LengthsPack(PathsAt(d0, h, i), prefix, WordSize(h))
  }

  lemma {:induction false} InterpReadsIff(d: seq<byte>, h: Header, dl: seq<byte>, i: nat)
    ensures InterpFrom(d, h, dl, i).verdict != StructError <==> SegmentsReadable(d, h, i)
    decreases h.phnum - i
  {
    hide SegmentAt, Reinterpret;
    if i < h.phnum && SegmentAt(d, h, i).Some? {
      if SegmentAt(d, h, i).value.ptype != 3 {
        InterpReadsIff(d, h, dl, i + 1);
      } else {
        ReinterpretEnds(d, SegmentAt(d, h, i).value, dl);
      }
    }
  }

  lemma ReinterpretEnds(d: seq<byte>, p: Segment, dl: seq<byte>)
    ensures Reinterpret(d, p, dl).verdict
            == if |dl| >= p.filesz > 0 && !IsSystemLib(Slice(d, p.offset, 11)) then TooLong else Fine
  {}

  lemma {:induction false} BlocksFineIff(d: seq<byte>, off: nat, prefix: seq<byte>, m: nat)
    requires off + BLOCK * m <= |d|
    ensures RelocateBlocks(d, off, prefix, m).verdict == Fine
            <==> forall b: nat :: b < m ==> Relocated(Slice(d, BlockAt(off, b), BLOCK), prefix, BLOCK).Some?
  {
    hide Relocated, Slice, Patch;
    if m > 0 {
      BlocksFineIff(d, off, prefix, m - 1);
      var before := RelocateBlocks(d, off, prefix, m - 1);
      if before.verdict == Fine {
        BlocksWritten(d, off, prefix, m - 1);
        AgreeSlices(before.data, d, off + BLOCK * (m - 1), BLOCK);
        assert BlockAt(off, m - 1) == off + BLOCK * (m - 1);
      }
    }
  }

  lemma FitsIff(was: seq<byte>, prefix: seq<byte>)
    ensures Relocated(was, prefix, |was|).Some? <==> Fits(was, prefix)
  {
    hide Relocated, HoldsText;
    RelocatedHolds(was, prefix);
    if Relocated(was, prefix, |was|).Some? {
      assert HoldsText(was, prefix, Relocated(was, prefix, |was|).value);
    }
  }

  /** One section is handled without an error exactly when its text fits. */
  lemma StepFineIff(d0: seq<byte>, h: Header, names: seq<byte>, prefix: seq<byte>, n: nat, scan: Scan, s: Section)
    requires SectionAt(d0, h, n) == Some(s) && scan.out.verdict == Fine && |scan.out.data| == |d0|
    requires KindOf(d0, h, names, n) != Other ==>
               AgreeOn(scan.out.data, d0, s.offset, s.size) && s.offset + s.size <= |d0|
    ensures SectionStep(scan, s, CString(names, s.name), prefix).out.verdict == Fine
            <==> TextFits(d0, h, names, prefix, n)
  {
    hide Slice, CString, Ascii, Relocated, SectionAt, Fits;
    var e := scan.out.data;
    AgreeBoth(e, d0, s.offset, s.size);
    match KindOf(d0, h, names, n)
    case Cache =>
      var was := Slice(d0, s.offset, s.size);
      assert Slice(e, s.offset, s.size) == was && |was| == s.size;
      FitsIff(was, prefix);
    case Blocks =>
      BlockFits(s.size, 0);
      BlocksFineIff(e, s.offset, prefix, s.size / BLOCK);
      BlocksFit(d0, e, s.offset, s.size, prefix);
    case _ =>
  }

  lemma BlocksFit(d0: seq<byte>, e: seq<byte>, off: nat, size: nat, prefix: seq<byte>)
    requires off + size <= |d0| == |e| && AgreeOn(e, d0, off, size)
    ensures forall b: nat :: b < size / BLOCK ==>
              (Relocated(Slice(e, BlockAt(off, b), BLOCK), prefix, BLOCK).Some?
               <==> Fits(Slice(d0, BlockAt(off, b), BLOCK), prefix))
  {
    hide Slice, Relocated, Fits;
    forall b: nat | b < size / BLOCK
      ensures Relocated(Slice(e, BlockAt(off, b), BLOCK), prefix, BLOCK).Some?
              <==> Fits(Slice(d0, BlockAt(off, b), BLOCK), prefix)
    {
      BlockFits(size, b);
      assert BlockAt(off, b) + BLOCK <= off + size;
      AgreeSlices(e, d0, BlockAt(off, b), BLOCK);
      FitsIff(Slice(d0, BlockAt(off, b), BLOCK), prefix);
    }
  }

  lemma {:induction false} ScanFineIff(d0: seq<byte>, h: Header, names: seq<byte>, prefix: seq<byte>, base: seq<byte>,
                                       n: nat)
    requires WellLaid(d0, h, names) && GoodBase(d0, h, names, base) && n <= h.shnum && |base| == |d0|
    ensures ScanSections(base, h, names, prefix, n).out.verdict == Fine
            <==> forall i: nat :: i < n ==> SectionAt(d0, h, i).Some? && TextFits(d0, h, names, prefix, i)
  {
    hide KindOf, SectOff, SectSize, SectionDone, Slice, WellLaid, GoodBase, SectionStep, SectionAt, Touched, CString,
         TextFits, ScanGood;
    if n > 0 {
      ScanFineIff(d0, h, names, prefix, base, n - 1);
      var scan := ScanSections(base, h, names, prefix, n - 1);
      if scan.out.verdict == Fine {
        ScanIsGood(d0, h, names, prefix, base, n - 1);
        ScanKeepsWay(d0, h, names, prefix, base, n - 1, scan);
        WaySection(d0, h, scan.out.data, n - 1);
        if SectionAt(d0, h, n - 1).Some? {
          SectionStands(d0, h, names, prefix, base, n - 1, scan);
          StepFineIff(d0, h, names, prefix, n - 1, scan, SectionAt(d0, h, n - 1).value);
        }
      }
    }
  }

  /** The section that comes next is in the file and as it was. */
  lemma SectionStands(d0: seq<byte>, h: Header, names: seq<byte>, prefix: seq<byte>, base: seq<byte>, n: nat,
                      scan: Scan)
    requires WellLaid(d0, h, names) && GoodBase(d0, h, names, base) && n < h.shnum && |base| == |d0|
    requires ScanGood(d0, h, names, prefix, base, n, scan) && SectionAt(d0, h, n).Some?
    ensures |scan.out.data| == |d0|
    ensures KindOf(d0, h, names, n) != Other ==>
              var s := SectionAt(d0, h, n).value;
              AgreeOn(scan.out.data, d0, s.offset, s.size) && s.offset + s.size <= |d0|
  {
    hide KindOf, SectionDone, Slice, WellLaid, GoodBase, SectionAt, Touched;
    if KindOf(d0, h, names, n) != Other {
      SectionFresh(d0, h, names, prefix, base, n, scan);
      LaidInFile(d0, h, names, n);
    }
  }

  /** After a scan without error, writing back fails only for the lengths. */
  lemma WriteFineIff(d0: seq<byte>, h: Header, names: seq<byte>, prefix: seq<byte>, base: seq<byte>, scan: Scan)
    requires ScanGood(d0, h, names, prefix, base, h.shnum, scan) && scan.out.verdict == Fine
    ensures WriteSysdirs(scan, h, prefix).verdict == Fine <==> LengthsHaveRoom(d0, h, names, prefix)
  {
    hide KindOf, SectOff, SectSize, SectionDone, Touched, Slice, LengthsPack, SysPaths, Patch, NewText, NewLengths,
         LastOf;
  }

  /** Main result: the exact condition under which the relocation of a well laid out file
      completes, and under which it says that the new path of the loader is too long. */
  lemma CompletesIff(d0: seq<byte>, prefix: seq<byte>, dl: seq<byte>, names: seq<byte>)
    requires |d0| >= 64 && ArchOf(d0) != 0 && NameTable(d0, HeaderOf(d0)) == Some(names)
    requires WellLaid(d0, HeaderOf(d0), names) && SysdirsFit(d0, HeaderOf(d0), names, prefix)
    ensures var h, verdict := HeaderOf(d0), RelocateFile(d0, prefix, dl).verdict;
            && (verdict in {Fine, TooLong} <==>
                  && SegmentsReadable(d0, h, 0) && LengthsHaveRoom(d0, h, names, prefix)
                  && forall i: nat :: i < h.shnum ==> SectionAt(d0, h, i).Some? && TextFits(d0, h, names, prefix, i))
            && (verdict in {Fine, TooLong} ==>
                  (verdict == TooLong <==>
                     InterpSegment(d0, h, 0).Some?
                     && var p := InterpSegment(d0, h, 0).value;
                        |dl| >= p.filesz > 0 && !exists l :: l in LOADERS && Ascii(l) <= Slice(d0, p.offset, 11)))
  {
    hide WellLaid, SysdirsFit, ArchOf, HeaderOf, ScanSections, WriteSysdirs, InterpFrom, SectionsDone, GoodBase,
         ScanGood, Written, NewInterp, InterpSegment, Slice, NameTable, SectionAt, TextFits, LengthsHaveRoom,
         SegmentsReadable;
    var h := HeaderOf(d0);
    var first := InterpFrom(d0, h, dl, 0);
    InterpReadsIff(d0, h, dl, 0);
    if first.verdict != StructError {
      InterpGivesGoodBase(d0, h, names, dl);
      BaseKeepsNames(d0, h, names, first.data);
      SameLength(d0, h, names, first.data);
      var scan := ScanSections(first.data, h, names, prefix, h.shnum);
      ScanFineIff(d0, h, names, prefix, first.data, h.shnum);
      ScanNeverTooLong(first.data, h, names, prefix, h.shnum);
      WriteNeverTooLong(scan, h, prefix);
      if scan.out.verdict == Fine {
        ScanIsGood(d0, h, names, prefix, first.data, h.shnum);
        WriteFineIff(d0, h, names, prefix, first.data, scan);
        if WriteSysdirs(scan, h, prefix).verdict == Fine {
          ScannedSections(d0, h, names, prefix, first.data, scan);
          DoneKeepsLength(d0, h, names, prefix, WriteSysdirs(scan, h, prefix).data);
        }
      } else {
        FailedScanEnds(scan, h, prefix);
      }
      InterpEnds(d0, h, dl);
    }
  }

  lemma FailedScanEnds(scan: Scan, h: Header, prefix: seq<byte>)
    requires scan.out.verdict != Fine
    ensures WriteSysdirs(scan, h, prefix) == scan.out
  {}

  lemma DoneKeepsLength(d0: seq<byte>, h: Header, names: seq<byte>, prefix: seq<byte>, e: seq<byte>)
    requires SectionsDone(d0, h, names, prefix, e)
    ensures |e| == |d0|
  {}

  lemma SameLength(d0: seq<byte>, h: Header, names: seq<byte>, base: seq<byte>)
    requires GoodBase(d0, h, names, base)
    ensures |base| == |d0|
  {}

  lemma InterpEnds(d0: seq<byte>, h: Header, dl: seq<byte>)
    requires InterpFrom(d0, h, dl, 0).verdict != StructError
    ensures InterpFrom(d0, h, dl, 0).verdict
            == if InterpSegment(d0, h, 0).Some?
                  && var p := InterpSegment(d0, h, 0).value;
                     |dl| >= p.filesz > 0 && !exists l :: l in LOADERS && Ascii(l) <= Slice(d0, p.offset, 11)
               then TooLong else Fine
  {
    hide InterpFrom, Reinterpret, InterpSegment, Slice;
    InterpIsReinterpret(d0, h, dl, 0);
    if InterpSegment(d0, h, 0).Some? {
      var p := InterpSegment(d0, h, 0).value;
      ReinterpretEnds(d0, p, dl);
      LoadersAre(Slice(d0, p.offset, 11));
    }
  }

  lemma LoadersAre(start: seq<byte>)
    ensures IsSystemLib(start) <==> exists l :: l in LOADERS && Ascii(l) <= start
  {
    hide Ascii;
    if IsSystemLib(start) {
      assert "/lib/" in LOADERS && "/lib64/" in LOADERS && "/lib32/" in LOADERS;
      assert "/usr/lib32/" in LOADERS && "/usr/lib64/" in LOADERS;
    }
  }
}
