/** relocate_sdk.py does not check that the new search paths fit into their section. When
    they do not, the run completes as if they did, and the bytes behind the section are
    overwritten with the rest of the paths. */
module RelocationOverflow {
  import opened Bytes
  import opened Options
  import opened Relocation
  import opened RelocationFrame
  import opened RelocationTheorems
  import opened Replacing
  import opened Splitting

  lemma PatchLength(data: seq<byte>, off: nat, bs: seq<byte>)
    ensures |Patch(data, off, bs)| == if bs == [] || off + |bs| <= |data| then |data| else off + |bs|
  {}

  /** Writing the search paths back: only a write past the end of the file shows, by the
      size of the file. */
  lemma OverflowingWrite(scan: Scan, h: Header, prefix: seq<byte>)
    requires scan.out.verdict == Fine && scan.sysdirs.Some? && scan.lens.Some?
    requires LengthsPack(SysPaths(scan.sysdirs.value.0), prefix, WordSize(h))
    ensures var (before, off, size) := scan.sysdirs.value;
            var text := NewText(SysPaths(before), prefix);
            var lengths := NewLengths(SysPaths(before), prefix, WordSize(h));
            var d, e := scan.out.data, WriteSysdirs(scan, h, prefix);
            && e.verdict == Fine
            && (|e.data| == |d| <==> ((text == [] && size == 0) || off + |PadTo(text, size)| <= |d|)
                                     && (lengths == [] || scan.lens.value + |lengths| <= |d|))
            && (|text| > size && off + |text| <= |d| && scan.lens.value + |lengths| <= |d|
                && (scan.lens.value + |lengths| <= off || off + |text| <= scan.lens.value)
                ==> Slice(e.data, off + size, |text| - size) == text[size..])
  {
    hide NewText, NewLengths, SysPaths, LengthsPack, Patch;
    var (before, off, size) := scan.sysdirs.value;
    var text := NewText(SysPaths(before), prefix);
    var lengths := NewLengths(SysPaths(before), prefix, WordSize(h));
    var d := scan.out.data;
    var bs := PadTo(text, size);
    var mid := Patch(d, off, bs);
    var e := Patch(mid, scan.lens.value, lengths);
    PatchLength(d, off, bs);
    PatchLength(mid, scan.lens.value, lengths);
    assert e == WriteSysdirs(scan, h, prefix).data;
    if |text| > size && off + |text| <= |d| && scan.lens.value + |lengths| <= |d| {
      PatchInside(d, off, text);
      PatchInside(mid, scan.lens.value, lengths);
      assert Slice(mid, off, |text|)[size..] == Slice(mid, off + size, |text| - size);
    }
  }

  lemma {:induction false} TwoPatches(f: seq<byte>, off: nat, text: seq<byte>, off2: nat, lengths: seq<byte>)
    requires off + |text| <= |f| && off2 + |lengths| <= |f|
    ensures var e := Patch(Patch(f, off, text), off2, lengths);
            && |e| == |f|
            && forall k: nat :: k < |f| ==>
                 e[k] == if In(k, off2, |lengths|) then lengths[k - off2]
                         else if In(k, off, |text|) then text[k - off] else f[k]
  {
    PatchInside(f, off, text);
    PatchInside(Patch(f, off, text), off2, lengths);
    PatchBytes(f, off, text);
    PatchBytes(Patch(f, off, text), off2, lengths);
  }

  lemma PatchBytes(f: seq<byte>, off: nat, bs: seq<byte>)
    requires off + |bs| <= |f|
    ensures forall k: nat :: In(k, off, |bs|) ==> Patch(f, off, bs)[k] == bs[k - off]
  {}

  /** The passes before the search paths are written go through. */
  predicate GoesThrough(d0: seq<byte>, h: Header, names: seq<byte>, prefix: seq<byte>, dl: seq<byte>) {
    var first := InterpFrom(d0, h, dl, 0);
    first.verdict != StructError && ScanSections(first.data, h, names, prefix, h.shnum).out.verdict == Fine
  }

  /** The new search paths are too long for section `i`, but end in the file. */
  ghost predicate Overflows(d0: seq<byte>, h: Header, names: seq<byte>, prefix: seq<byte>, i: nat, j: nat) {
    && HasSysdirs(d0, h, names, i, j)
    && SectSize(d0, h, i) < |NewText(PathsAt(d0, h, i), prefix)|
    && SectOff(d0, h, i) + |NewText(PathsAt(d0, h, i), prefix)| <= |d0|
    && |NewLengths(PathsAt(d0, h, i), prefix, WordSize(h))| <= SectSize(d0, h, j)
  }

  /** What the file holds after the scan `f` is overwritten with the search paths. */
  ghost predicate Overwritten(d0: seq<byte>, h: Header, prefix: seq<byte>, f: seq<byte>, e: seq<byte>, i: nat, j: nat) {
    var off, off2 := SectOff(d0, h, i), SectOff(d0, h, j);
    var text, lengths := NewText(PathsAt(d0, h, i), prefix), NewLengths(PathsAt(d0, h, i), prefix, WordSize(h));
    && |e| == |f| == |d0|
    && forall k: nat :: k < |d0| ==>
         e[k] == if In(k, off2, |lengths|) then lengths[k - off2]
                 else if In(k, off, |text|) then text[k - off] else f[k]
  }

  lemma OverflowWrites(d0: seq<byte>, h: Header, names: seq<byte>, prefix: seq<byte>, base: seq<byte>, scan: Scan,
                       i: nat, j: nat)
    requires WellLaid(d0, h, names) && Overflows(d0, h, names, prefix, i, j) && |base| == |d0|
    requires ScanGood(d0, h, names, prefix, base, h.shnum, scan) && scan.out.verdict == Fine
    ensures WriteSysdirs(scan, h, prefix).verdict == Fine <==> LengthsPack(PathsAt(d0, h, i), prefix, WordSize(h))
    ensures WriteSysdirs(scan, h, prefix).verdict in {Fine, StructError}
    ensures WriteSysdirs(scan, h, prefix).verdict == Fine ==>
              Overwritten(d0, h, prefix, scan.out.data, WriteSysdirs(scan, h, prefix).data, i, j)
  {
    hide KindOf, SectOff, SectSize, Guarded, SectionDone, WellLaid, Touched, Patch, Slice, NewText, NewLengths,
         SysPaths, LengthsPack, LastOf;
    LastIs(d0, h, names, SysdirsLen, h.shnum);
    LaidInFile(d0, h, names, j);
    var text, lengths := NewText(PathsAt(d0, h, i), prefix), NewLengths(PathsAt(d0, h, i), prefix, WordSize(h));
    TwoPatches(scan.out.data, SectOff(d0, h, i), text, SectOff(d0, h, j), lengths);
    assert PadTo(text, SectSize(d0, h, i)) == text;
  }

  /** Outside what the script may write, the scan leaves the original. */
  lemma ScanKeepsFrame(d0: seq<byte>, h: Header, names: seq<byte>, prefix: seq<byte>, base: seq<byte>, scan: Scan)
    requires FrameKept(d0, h, names, base) && ScanGood(d0, h, names, prefix, base, h.shnum, scan)
    ensures FrameKept(d0, h, names, scan.out.data)
  {
    hide KindOf, SectOff, SectSize, SectionDone, Touched, Written, LastOf, Slice;
    forall k: nat | k < |d0| && !Written(d0, h, names, k)
      ensures scan.out.data[k] == d0[k]
    {
      if Touched(d0, h, names, h.shnum, k) { TouchedIsWritten(d0, h, names, k); }
    }
  }

  /** The frame holds exactly when the rest of the paths is what stood behind the section. */
  lemma FrameIffSameBytes(d0: seq<byte>, h: Header, names: seq<byte>, prefix: seq<byte>, f: seq<byte>, e: seq<byte>,
                          i: nat, j: nat)
    requires WellLaid(d0, h, names) && Overflows(d0, h, names, prefix, i, j)
    requires FrameKept(d0, h, names, f) && Overwritten(d0, h, prefix, f, e, i, j)
    ensures var off, size := SectOff(d0, h, i), SectSize(d0, h, i);
            var text := NewText(PathsAt(d0, h, i), prefix);
            FrameKept(d0, h, names, e) <==>
            forall k: nat :: In(k, off + size, |text| - size) && !Written(d0, h, names, k) ==> text[k - off] == d0[k]
  {
    hide KindOf, SectOff, SectSize, Guarded, WellLaid, NewText, NewLengths, PathsAt, Written, LastOf;
    LastIs(d0, h, names, Sysdirs, h.shnum);
    LastIs(d0, h, names, SysdirsLen, h.shnum);
    var off, size, text := SectOff(d0, h, i), SectSize(d0, h, i), NewText(PathsAt(d0, h, i), prefix);
    var off2, lengths := SectOff(d0, h, j), NewLengths(PathsAt(d0, h, i), prefix, WordSize(h));
    forall k: nat | k < |d0| && !Written(d0, h, names, k)
      ensures e[k] == if In(k, off + size, |text| - size) then text[k - off] else d0[k]
    {
      if In(k, off2, |lengths|) { InSectionIsWritten(d0, h, names, j, k); }
      if In(k, off, size) { InSectionIsWritten(d0, h, names, i, k); }
    }
  }

  /** Overflow: search paths that are too long for their section do not change how the run
      ends. The bytes behind the section become the rest of the paths, unless the lengths
      are written over them, and the frame is kept if and only if those bytes were that
      text before, wherever no other range is written. */
  lemma SysdirsOverflow(d0: seq<byte>, prefix: seq<byte>, dl: seq<byte>, names: seq<byte>, i: nat, j: nat)
    requires |d0| >= 64 && ArchOf(d0) != 0 && NameTable(d0, HeaderOf(d0)) == Some(names)
    requires WellLaid(d0, HeaderOf(d0), names) && Overflows(d0, HeaderOf(d0), names, prefix, i, j)
    ensures var h, r := HeaderOf(d0), RelocateFile(d0, prefix, dl);
            && (r.verdict in {Fine, TooLong} <==>
                  GoesThrough(d0, h, names, prefix, dl) && LengthsPack(PathsAt(d0, h, i), prefix, WordSize(h)))
            && (r.verdict in {Fine, TooLong} ==>
                  var off, size, off2 := SectOff(d0, h, i), SectSize(d0, h, i), SectOff(d0, h, j);
                  var text, lengths := NewText(PathsAt(d0, h, i), prefix),
                      NewLengths(PathsAt(d0, h, i), prefix, WordSize(h));
                  && r.verdict == InterpFrom(d0, h, dl, 0).verdict && |r.data| == |d0|
                  && (forall k: nat :: In(k, off + size, |text| - size) ==>
                        r.data[k] == if In(k, off2, |lengths|) then lengths[k - off2] else text[k - off])
                  && (FrameKept(d0, h, names, r.data) <==>
                      forall k: nat :: In(k, off + size, |text| - size) && !Written(d0, h, names, k)
                        ==> text[k - off] == d0[k]))
  {
    hide WellLaid, ArchOf, HeaderOf, ScanSections, WriteSysdirs, InterpFrom, GoodBase, ScanGood, Written, NameTable,
         HasSysdirs, SectOff, SectSize, NewText, NewLengths, PathsAt, LengthsPack, FrameKept;
    var h := HeaderOf(d0);
    var first := InterpFrom(d0, h, dl, 0);
    if first.verdict != StructError {
      InterpVerdict(d0, h, dl, 0);
      InterpGivesGoodBase(d0, h, names, dl);
      GoodBaseLength(d0, h, names, first.data);
      BaseKeepsNames(d0, h, names, first.data);
      var scan := ScanSections(first.data, h, names, prefix, h.shnum);
      ScanNeverTooLong(first.data, h, names, prefix, h.shnum);
      StoppedScan(scan, h, prefix);
      if scan.out.verdict == Fine {
        ScanIsGood(d0, h, names, prefix, first.data, h.shnum);
        OverflowWrites(d0, h, names, prefix, first.data, scan, i, j);
        var e := WriteSysdirs(scan, h, prefix);
        if e.verdict == Fine {
          ScanKeepsFrame(d0, h, names, prefix, first.data, scan);
          FrameIffSameBytes(d0, h, names, prefix, scan.out.data, e.data, i, j);
        }
      }
    }
  }

  lemma {:induction false} InterpVerdict(d: seq<byte>, h: Header, dl: seq<byte>, i: nat)
    ensures InterpFrom(d, h, dl, i).verdict in {Fine, TooLong, StructError}
    decreases h.phnum - i
  {
    hide SegmentAt, IsSystemLib, Patch;
    if i < h.phnum { InterpVerdict(d, h, dl, i + 1); }
  }

  lemma GoodBaseLength(d0: seq<byte>, h: Header, names: seq<byte>, base: seq<byte>)
    requires GoodBase(d0, h, names, base)
    requires forall k: nat :: k < |d0| && !Written(d0, h, names, k) ==> base[k] == d0[k]
    ensures FrameKept(d0, h, names, base) && |base| == |d0|
  {
    hide Written, Guarded, KindOf;
  }

  /** A scan that stopped decides how the run ends. */
  lemma StoppedScan(scan: Scan, h: Header, prefix: seq<byte>)
    requires scan.out.verdict != TooLong
    ensures scan.out.verdict != Fine ==> WriteSysdirs(scan, h, prefix) == scan.out
  {}

  // ---------------------------------------------------------------------
  // A small case
  // ---------------------------------------------------------------------

  /** A search path section that is nothing but the marker, `behind` it, and room for one
      length at the end. */
  function SmallScan(behind: seq<byte>): Scan {
    Scan(Out(MARKER + [0] + behind + Zeros(4), Fine), Some((MARKER + [0], 0, |MARKER| + 1)),
      Some(|MARKER| + 1 + |behind|))
  }

  predicate Plain(c: char) {
    0 < c as int < 256
  }

  lemma AsciiHasNoZero(s: string)
    requires forall i :: 0 <= i < |s| ==> Plain(s[i])
    ensures 0 !in Ascii(s)
  {}

  lemma MarkerIsPlain()
    ensures var s := "##DEFAULT_INSTALL_DIR##"; forall i :: 0 <= i < |s| ==> Plain(s[i])
  {
    var s := "##DEFAULT_INSTALL_DIR##";
    forall i | 0 <= i < |s|
      ensures Plain(s[i])
    {
      if i < 12 { FirstHalf(i); } else { SecondHalf(i); }
    }
  }

  lemma FirstHalf(i: nat)
    requires i < 12
    ensures Plain("##DEFAULT_INSTALL_DIR##"[i])
  {}

  lemma SecondHalf(i: nat)
    requires 12 <= i < 23
    ensures Plain("##DEFAULT_INSTALL_DIR##"[i])
  {}

  lemma MarkerHasNoZero()
    ensures 0 !in MARKER
  {
    hide Ascii, Plain;
    MarkerIsPlain();
    AsciiHasNoZero("##DEFAULT_INSTALL_DIR##");
  }

  lemma MarkerBecomesPrefix(prefix: seq<byte>)
    ensures Subst(MARKER, prefix) == prefix
  {
    MarkerNonEmpty();
    var none: seq<byte> := [];
    assert MARKER[|MARKER|..] == none && Replace(none, MARKER, prefix) == [];
  }

  lemma MarkerPaths()
    ensures SysPaths(MARKER + [0]) == [MARKER]
  {
    MarkerHasNoZero();
    SplitFree(MARKER, 0);
    assert MARKER + [0] + [] == MARKER + [0];
    SplitAppend(MARKER, [], 0);
    var none: seq<byte> := [];
    assert Split(none, 0) == [none];
    var parts := [MARKER] + [none];
    assert parts[1..] == [none] && Leading([none]) == [];
    MarkerNonEmpty();
  }

  /** Every prefix that is longer than the marker overwrites what is behind the section. */
  lemma LongPrefixOverflows(prefix: seq<byte>, behind: seq<byte>, h: Header)
    requires |prefix| == |MARKER| + |behind| < Capacity(4) && h.bits == 32
    ensures var e := WriteSysdirs(SmallScan(behind), h, prefix);
            && e.verdict == Fine && |e.data| == |SmallScan(behind).out.data|
            && e.data[..|prefix| + 1] == prefix + [0]
  {
    hide Replace, Split, SysPaths, Patch;
    MarkerPaths();
    MarkerBecomesPrefix(prefix);
    var scan := SmallScan(behind);
    assert [MARKER][1..] == [];
    var none: seq<seq<byte>> := [];
    assert NewText(none, prefix) == [] && NewLengths(none, prefix, 4) == [];
    var text, lengths := NewText([MARKER], prefix), NewLengths([MARKER], prefix, 4);
    assert text == prefix + [0];
    assert |lengths| == 4;
    TwoPatches(scan.out.data, 0, text, |text|, lengths);
  }
}
