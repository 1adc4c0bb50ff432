/** The main results about relocate_sdk.py for search paths that fit: the frame of a
    run that completes, the way back from the relocated search paths, and the headers
    that read as before. */
module RelocationTheorems {
  import opened Bytes
  import opened Options
  import opened Relocation
  import opened RelocationFrame

  /** The interpreter pass, seen through the first segment of its type. */
  lemma {:induction false} InterpIsReinterpret(d: seq<byte>, h: Header, dl: seq<byte>, i: nat)
    requires InterpFrom(d, h, dl, i).verdict != StructError
    ensures InterpFrom(d, h, dl, i)
            == if InterpSegment(d, h, i).None? then Out(d, Fine) else Reinterpret(d, InterpSegment(d, h, i).value, dl)
    decreases h.phnum - i
  {
    hide SegmentAt, Reinterpret;
    if i < h.phnum && SegmentAt(d, h, i).Some? && SegmentAt(d, h, i).value.ptype != 3 {
      InterpIsReinterpret(d, h, dl, i + 1);
    }
  }

  /** The bytes of the interpreter segment afterwards. */
  function NewInterp(d0: seq<byte>, p: Segment, dl: seq<byte>): seq<byte> {
    if IsSystemLib(Slice(d0, p.offset, 11)) || |dl| >= p.filesz then Slice(d0, p.offset, p.filesz)
    else PadTo(dl, p.filesz)
  }

  lemma ReinterpretWrites(d0: seq<byte>, p: Segment, dl: seq<byte>)
    requires p.offset + p.filesz <= |d0|
    ensures var e := Reinterpret(d0, p, dl).data;
            OnlyIn(d0, e, p.offset, p.filesz) && Slice(e, p.offset, p.filesz) == NewInterp(d0, p, dl)
  {
    hide IsSystemLib;
    if |dl| < p.filesz { PatchInside(d0, p.offset, PadTo(dl, p.filesz)); }
  }

  /** Bytes inside what the script may write. */
  ghost predicate Written(d0: seq<byte>, h: Header, names: seq<byte>, k: nat) {
    || (InterpSegment(d0, h, 0).Some?
        && In(k, InterpSegment(d0, h, 0).value.offset, InterpSegment(d0, h, 0).value.filesz))
    || (exists i ::
          0 <= i < h.shnum && KindOf(d0, h, names, i) != Other && In(k, SectOff(d0, h, i), SectSize(d0, h, i)))
  }

  /** After the interpreter pass the sections and the headers are still original. */
  lemma InterpGivesGoodBase(d0: seq<byte>, h: Header, names: seq<byte>, dl: seq<byte>)
    requires WellLaid(d0, h, names) && InterpFrom(d0, h, dl, 0).verdict != StructError
    ensures var e := InterpFrom(d0, h, dl, 0).data;
            GoodBase(d0, h, names, e) && forall k: nat :: k < |d0| && !Written(d0, h, names, k) ==> e[k] == d0[k]
    ensures InterpSegment(d0, h, 0).Some? ==>
              var p := InterpSegment(d0, h, 0).value;
              Slice(InterpFrom(d0, h, dl, 0).data, p.offset, p.filesz) == NewInterp(d0, p, dl)
  {
    hide KindOf, SectOff, SectSize, Guarded, Slice, InterpFrom, Reinterpret, NewInterp, InterpSegment;
    InterpIsReinterpret(d0, h, dl, 0);
    var e := InterpFrom(d0, h, dl, 0).data;
    if InterpSegment(d0, h, 0).Some? {
      var p := InterpSegment(d0, h, 0).value;
      ReinterpretWrites(d0, p, dl);
      forall k: nat | k < |d0| && Guarded(d0, h, k)
        ensures e[k] == d0[k]
      {
        assert !In(k, p.offset, p.filesz);
      }
      forall i | 0 <= i < h.shnum && KindOf(d0, h, names, i) != Other
        ensures AgreeOn(e, d0, SectOff(d0, h, i), SectSize(d0, h, i))
      {
        assert Apart(SectOff(d0, h, i), SectSize(d0, h, i), p.offset, p.filesz);
        forall k | SectOff(d0, h, i) <= k < SectOff(d0, h, i) + SectSize(d0, h, i) && k < |d0|
          ensures e[k] == d0[k]
        {
          assert In(k, SectOff(d0, h, i), SectSize(d0, h, i));
        }
      }
    }
  }

  // ---------------------------------------------------------------------
  // The search paths
  // ---------------------------------------------------------------------

  /** The search path sections that count: the last of each kind. */
  ghost predicate HasSysdirs(d0: seq<byte>, h: Header, names: seq<byte>, i: nat, j: nat) {
    LastOf(d0, h, names, Sysdirs, h.shnum) == Some(i) && LastOf(d0, h, names, SysdirsLen, h.shnum) == Some(j)
  }

  function PathsAt(d0: seq<byte>, h: Header, i: nat): seq<seq<byte>> {
    SysPaths(Slice(d0, SectOff(d0, h, i), SectSize(d0, h, i)))
  }

  /** The new search paths and their lengths fit into their sections; the source does
      not check this. */
  ghost predicate SysdirsFit(d0: seq<byte>, h: Header, names: seq<byte>, prefix: seq<byte>) {
    forall i: nat, j: nat :: HasSysdirs(d0, h, names, i, j) ==>
      && |NewText(PathsAt(d0, h, i), prefix)| <= SectSize(d0, h, i)
      && |NewLengths(PathsAt(d0, h, i), prefix, WordSize(h))| <= SectSize(d0, h, j)
  }

  /** What the search path sections hold afterwards. */
  ghost predicate SysdirsDone(d0: seq<byte>, h: Header, prefix: seq<byte>, e: seq<byte>, i: nat, j: nat) {
    var lengths := NewLengths(PathsAt(d0, h, i), prefix, WordSize(h));
    && Slice(e, SectOff(d0, h, i), SectSize(d0, h, i)) == PadTo(NewText(PathsAt(d0, h, i), prefix), SectSize(d0, h, i))
    && Slice(e, SectOff(d0, h, j), |lengths|) == lengths
    && LengthsPack(PathsAt(d0, h, i), prefix, WordSize(h))
  }

  lemma OnlyInMore(d: seq<byte>, e: seq<byte>, off: nat, n: nat, m: nat)
    requires OnlyIn(d, e, off, n) && n <= m
    ensures OnlyIn(d, e, off, m)
  {
    assert forall k: nat :: In(k, off, n) ==> In(k, off, m);
  }

  /** Writing the search paths back touches only their two sections. */
  lemma WriteBackWrites(d0: seq<byte>, h: Header, names: seq<byte>, prefix: seq<byte>, base: seq<byte>, scan: Scan,
                        i: nat, j: nat)
    returns (mid: seq<byte>)
    requires WellLaid(d0, h, names) && SysdirsFit(d0, h, names, prefix) && HasSysdirs(d0, h, names, i, j)
    requires ScanGood(d0, h, names, prefix, base, h.shnum, scan) && |base| == |d0|
    requires WriteSysdirs(scan, h, prefix).verdict == Fine && scan.out.verdict == Fine
    requires i < h.shnum && j < h.shnum && KindOf(d0, h, names, i) == Sysdirs && KindOf(d0, h, names, j) == SysdirsLen
    ensures var e := WriteSysdirs(scan, h, prefix).data;
            && OnlyIn(scan.out.data, mid, SectOff(d0, h, i), SectSize(d0, h, i))
            && OnlyIn(mid, e, SectOff(d0, h, j), SectSize(d0, h, j))
            && SysdirsDone(d0, h, prefix, e, i, j)
  {
    hide KindOf, SectOff, SectSize, Guarded, SectionDone, WellLaid, Touched, Patch, Slice, LastOf, NewText,
         NewLengths, SysPaths, LengthsPack;
    var e := WriteSysdirs(scan, h, prefix).data;
    var text, lengths := NewText(PathsAt(d0, h, i), prefix), NewLengths(PathsAt(d0, h, i), prefix, WordSize(h));
    var off, size := SectOff(d0, h, i), SectSize(d0, h, i);
    LaidInFile(d0, h, names, i);
    LaidInFile(d0, h, names, j);
    LaidApart(d0, h, names, i, j);
    mid := Patch(scan.out.data, off, PadTo(text, size));
    PatchInside(scan.out.data, off, PadTo(text, size));
    PatchInside(mid, SectOff(d0, h, j), lengths);
    assert OnlyIn(mid, e, SectOff(d0, h, j), |lengths|);
    OnlyInMore(mid, e, SectOff(d0, h, j), |lengths|, SectSize(d0, h, j));
    forall k | off <= k < off + size && k < |mid|
      ensures mid[k] == e[k]
    {
      assert In(k, off, size);
    }
    AgreeSlices(mid, e, off, size);
  }

  // ---------------------------------------------------------------------
  // The frame of a completing run
  // ---------------------------------------------------------------------

  /** Bytes outside what the script may write are those of the original. */
  ghost predicate FrameKept(d0: seq<byte>, h: Header, names: seq<byte>, e: seq<byte>) {
    |e| == |d0| && forall k: nat :: k < |d0| && !Written(d0, h, names, k) ==> e[k] == d0[k]
  }

  /** Everything that can be said of the sections after the run. */
  ghost predicate SectionsDone(d0: seq<byte>, h: Header, names: seq<byte>, prefix: seq<byte>, e: seq<byte>) {
    && SameWay(d0, h, e) && FrameKept(d0, h, names, e)
    && (forall i :: 0 <= i < h.shnum ==> SectionDone(d0, h, names, prefix, e, i))
    && (forall i: nat, j: nat :: HasSysdirs(d0, h, names, i, j) ==> SysdirsDone(d0, h, prefix, e, i, j))
  }

  lemma TouchedIsWritten(d0: seq<byte>, h: Header, names: seq<byte>, k: nat)
    requires Touched(d0, h, names, h.shnum, k)
    ensures Written(d0, h, names, k)
  {
    hide KindOf, SectOff, SectSize, InterpSegment;
    var i :| 0 <= i < h.shnum && KindOf(d0, h, names, i) in {Cache, Blocks}
        && In(k, SectOff(d0, h, i), SectSize(d0, h, i));
    assert KindOf(d0, h, names, i) != Other;
  }

  lemma InSectionIsWritten(d0: seq<byte>, h: Header, names: seq<byte>, i: nat, k: nat)
    requires i < h.shnum && KindOf(d0, h, names, i) != Other && In(k, SectOff(d0, h, i), SectSize(d0, h, i))
    requires WellLaid(d0, h, names)
    ensures Written(d0, h, names, k) && !Guarded(d0, h, k)
  {
    hide KindOf, SectOff, SectSize, InterpSegment, Guarded;
    assert Unguarded(d0, h, SectOff(d0, h, i), SectSize(d0, h, i));
  }

  lemma ScannedSections(d0: seq<byte>, h: Header, names: seq<byte>, prefix: seq<byte>, base: seq<byte>, scan: Scan)
    requires WellLaid(d0, h, names) && GoodBase(d0, h, names, base) && SysdirsFit(d0, h, names, prefix)
    requires forall k: nat :: k < |d0| && !Written(d0, h, names, k) ==> base[k] == d0[k]
    requires ScanGood(d0, h, names, prefix, base, h.shnum, scan) && scan.out.verdict == Fine
    requires WriteSysdirs(scan, h, prefix).verdict == Fine
    ensures SectionsDone(d0, h, names, prefix, WriteSysdirs(scan, h, prefix).data)
  {
    hide KindOf, SectOff, SectSize, Guarded, SectionDone, WellLaid, Touched, Slice, Written, LengthsPack, SysdirsDone,
         Patch, NewText, NewLengths;
    var f, e := scan.out.data, WriteSysdirs(scan, h, prefix).data;
    ScanKeepsWay(d0, h, names, prefix, base, h.shnum, scan);
    forall k: nat | k < |d0| && !Written(d0, h, names, k)
      ensures f[k] == d0[k]
    {
      if Touched(d0, h, names, h.shnum, k) { TouchedIsWritten(d0, h, names, k); }
    }
    LastIs(d0, h, names, Sysdirs, h.shnum);
    LastIs(d0, h, names, SysdirsLen, h.shnum);
    if scan.sysdirs.Some? {
      var i, j := LastOf(d0, h, names, Sysdirs, h.shnum).value, LastOf(d0, h, names, SysdirsLen, h.shnum).value;
      var mid := WriteBackWrites(d0, h, names, prefix, base, scan, i, j);
      SectionWrite(d0, h, names, prefix, f, mid, i);
      SectionWrite(d0, h, names, prefix, mid, e, j);
    }
  }

  /** A write confined to a search path section keeps the rest. */
  lemma SectionWrite(d0: seq<byte>, h: Header, names: seq<byte>, prefix: seq<byte>, f: seq<byte>, e: seq<byte>, j: nat)
    requires WellLaid(d0, h, names) && j < h.shnum && KindOf(d0, h, names, j) in {Sysdirs, SysdirsLen}
    requires SameWay(d0, h, f) && OnlyIn(f, e, SectOff(d0, h, j), SectSize(d0, h, j))
    requires forall k: nat :: k < |d0| && !Written(d0, h, names, k) ==> f[k] == d0[k]
    requires forall i :: 0 <= i < h.shnum ==> SectionDone(d0, h, names, prefix, f, i)
    ensures SameWay(d0, h, e)
    ensures forall k: nat :: k < |d0| && !Written(d0, h, names, k) ==> e[k] == d0[k]
    ensures forall i :: 0 <= i < h.shnum ==> SectionDone(d0, h, names, prefix, e, i)
  {
    hide KindOf, SectOff, SectSize, Guarded, SectionDone, WellLaid, Written;
    forall k: nat | k < |d0| && (Guarded(d0, h, k) || !Written(d0, h, names, k))
      ensures e[k] == f[k]
    {
      if In(k, SectOff(d0, h, j), SectSize(d0, h, j)) { InSectionIsWritten(d0, h, names, j, k); }
    }
    forall i | 0 <= i < h.shnum
      ensures SectionDone(d0, h, names, prefix, e, i)
    {
      if i == j {
        OtherIsDone(d0, h, names, prefix, e, i);
      } else {
        EarlierStays(d0, h, names, prefix, f, e, i, j);
      }
    }
  }

  /** A relocation that completes on a well laid out file keeps the length and every
      byte outside the interpreter segment and the four kinds of sections; the
      sections, the interpreter and the search paths hold what they should. */
  lemma RelocationCompletes(d0: seq<byte>, prefix: seq<byte>, dl: seq<byte>, names: seq<byte>)
    requires |d0| >= 64 && ArchOf(d0) != 0 && NameTable(d0, HeaderOf(d0)) == Some(names)
    requires WellLaid(d0, HeaderOf(d0), names) && SysdirsFit(d0, HeaderOf(d0), names, prefix)
    requires RelocateFile(d0, prefix, dl).verdict in {Fine, TooLong}
    ensures var h, e := HeaderOf(d0), RelocateFile(d0, prefix, dl).data;
            && SectionsDone(d0, h, names, prefix, e)
            && (InterpSegment(d0, h, 0).Some? ==>
                  var p := InterpSegment(d0, h, 0).value;
                  Slice(e, p.offset, p.filesz) == NewInterp(d0, p, dl))
  {
    hide WellLaid, SysdirsFit, ArchOf, HeaderOf, ScanSections, WriteSysdirs, InterpFrom, SectionsDone, GoodBase,
         ScanGood, Written, NewInterp, InterpSegment, Slice, NameTable;
    var h := HeaderOf(d0);
    var first := InterpFrom(d0, h, dl, 0);
    InterpGivesGoodBase(d0, h, names, dl);
    BaseKeepsNames(d0, h, names, first.data);
    var scan := ScanSections(first.data, h, names, prefix, h.shnum);
    ScanNeverTooLong(first.data, h, names, prefix, h.shnum);
    WriteNeverTooLong(scan, h, prefix);
    FailedScanFails(scan, h, prefix);
    ScanIsGood(d0, h, names, prefix, first.data, h.shnum);
    ScannedSections(d0, h, names, prefix, first.data, scan);
    var e := WriteSysdirs(scan, h, prefix).data;
    if InterpSegment(d0, h, 0).Some? {
      InterpStays(d0, h, names, prefix, first.data, scan);
    }
  }

  lemma BaseKeepsNames(d0: seq<byte>, h: Header, names: seq<byte>, base: seq<byte>)
    requires GoodBase(d0, h, names, base)
    ensures NameTable(base, h) == NameTable(d0, h)
  {
    hide Guarded, NameTable, KindOf;
    WayNames(d0, h, base);
  }

  lemma {:induction false} ScanNeverTooLong(data: seq<byte>, h: Header, names: seq<byte>, prefix: seq<byte>, n: nat)
    ensures ScanSections(data, h, names, prefix, n).out.verdict != TooLong
  {
    hide CString, Ascii, SectionAt, Relocated;
    if n == 0 {
    } else {
      ScanNeverTooLong(data, h, names, prefix, n - 1);
      var scan := ScanSections(data, h, names, prefix, n - 1);
      if scan.out.verdict == Fine && SectionAt(scan.out.data, h, n - 1).Some? {
        var s := SectionAt(scan.out.data, h, n - 1).value;
        BlocksNeverTooLong(scan.out.data, s.offset, prefix, s.size / BLOCK);
      }
    }
  }

  lemma {:induction false} BlocksNeverTooLong(data: seq<byte>, off: nat, prefix: seq<byte>, n: nat)
    ensures RelocateBlocks(data, off, prefix, n).verdict in {Fine, Exited}
  {
    hide Relocated, Patch;
    if n == 0 {
    } else {
      BlocksNeverTooLong(data, off, prefix, n - 1);
    }
  }

  lemma WriteNeverTooLong(scan: Scan, h: Header, prefix: seq<byte>)
    requires scan.out.verdict != TooLong
    ensures WriteSysdirs(scan, h, prefix).verdict != TooLong
  {}

  lemma FailedScanFails(scan: Scan, h: Header, prefix: seq<byte>)
    requires WriteSysdirs(scan, h, prefix).verdict == Fine
    ensures scan.out.verdict == Fine
  {}

  /** The later passes leave the interpreter segment as it is. */
  lemma InterpStays(d0: seq<byte>, h: Header, names: seq<byte>, prefix: seq<byte>, base: seq<byte>, scan: Scan)
    requires WellLaid(d0, h, names) && GoodBase(d0, h, names, base) && SysdirsFit(d0, h, names, prefix)
    requires ScanGood(d0, h, names, prefix, base, h.shnum, scan) && scan.out.verdict == Fine
    requires WriteSysdirs(scan, h, prefix).verdict == Fine && InterpSegment(d0, h, 0).Some?
    ensures var p := InterpSegment(d0, h, 0).value;
            Slice(WriteSysdirs(scan, h, prefix).data, p.offset, p.filesz) == Slice(base, p.offset, p.filesz)
  {
    hide KindOf, SectOff, SectSize, Guarded, SectionDone, Slice, LengthsPack, SysdirsDone, Patch, NewText, NewLengths,
         InterpSegment, WellLaid;
    var p := InterpSegment(d0, h, 0).value;
    var f, e := scan.out.data, WriteSysdirs(scan, h, prefix).data;
    LastIs(d0, h, names, Sysdirs, h.shnum);
    LastIs(d0, h, names, SysdirsLen, h.shnum);
    var mid := f;
    var i, j := 0, 0;
    if scan.sysdirs.Some? {
      i, j := LastOf(d0, h, names, Sysdirs, h.shnum).value, LastOf(d0, h, names, SysdirsLen, h.shnum).value;
      mid := WriteBackWrites(d0, h, names, prefix, base, scan, i, j);
    }
    forall k: nat | p.offset <= k < p.offset + p.filesz && k < |base|
      ensures e[k] == base[k]
    {
      NotInSections(d0, h, names, k);
    }
    AgreeSlices(e, base, p.offset, p.filesz);
  }

  lemma NotInSections(d0: seq<byte>, h: Header, names: seq<byte>, k: nat)
    requires WellLaid(d0, h, names) && InterpSegment(d0, h, 0).Some?
    requires In(k, InterpSegment(d0, h, 0).value.offset, InterpSegment(d0, h, 0).value.filesz)
    ensures forall i ::
              0 <= i < h.shnum && KindOf(d0, h, names, i) != Other ==> !In(k, SectOff(d0, h, i), SectSize(d0, h, i))
    ensures !Touched(d0, h, names, h.shnum, k)
  {
    hide KindOf, SectOff, SectSize, Guarded, InterpSegment;
    var p := InterpSegment(d0, h, 0).value;
    forall i | 0 <= i < h.shnum && KindOf(d0, h, names, i) != Other
      ensures !In(k, SectOff(d0, h, i), SectSize(d0, h, i))
    {
      assert Apart(SectOff(d0, h, i), SectSize(d0, h, i), p.offset, p.filesz);
    }
  }

  /** The headers of the relocated file read as those of the original. */
  lemma HeadersReparse(d0: seq<byte>, names: seq<byte>, prefix: seq<byte>, e: seq<byte>)
    requires |d0| >= 64 && SectionsDone(d0, HeaderOf(d0), names, prefix, e)
    ensures |e| == |d0| && ArchOf(e) == ArchOf(d0) && HeaderOf(e) == HeaderOf(d0)
    ensures NameTable(e, HeaderOf(d0)) == NameTable(d0, HeaderOf(d0))
    ensures forall i :: 0 <= i < HeaderOf(d0).phnum ==> SegmentAt(e, HeaderOf(d0), i) == SegmentAt(d0, HeaderOf(d0), i)
    ensures forall i :: 0 <= i < HeaderOf(d0).shnum ==> SectionAt(e, HeaderOf(d0), i) == SectionAt(d0, HeaderOf(d0), i)
  {
    hide HeaderOf, ArchOf, SegmentAt, SectionAt, NameTable, Guarded, SectionDone, Written, SysdirsDone;
    var h := HeaderOf(d0);
    WayHeader(d0, h, e);
    WayNames(d0, h, e);
    forall i | 0 <= i < h.phnum
      ensures SegmentAt(e, h, i) == SegmentAt(d0, h, i)
    {
      WaySegment(d0, h, e, i);
    }
    forall i | 0 <= i < h.shnum
      ensures SectionAt(e, h, i) == SectionAt(d0, h, i)
    {
      WaySection(d0, h, e, i);
    }
  }

  // ---------------------------------------------------------------------
  // Cutting the search paths again
  // ---------------------------------------------------------------------

  /** `n` lengths of `w` bytes each. */
  function ReadLengths(bs: seq<byte>, w: nat, n: nat): seq<nat>
    requires w * n <= |bs|
  {
    if n == 0 then [] else CutLengths(bs, w, n)
  }

  function CutLengths(bs: seq<byte>, w: nat, n: nat): seq<nat>
    requires n > 0 && w * n <= |bs|
    decreases n
  {
    assert w * n == w + w * (n - 1);
    [Little(bs[..w])] + if n == 1 then [] else CutLengths(bs[w..], w, n - 1)
  }

  /** Take a path of each length, skipping the zero after it. */
  function CutPaths(text: seq<byte>, lengths: seq<nat>): seq<seq<byte>> {
    if lengths == [] then []
    else if |text| <= lengths[0] then []
    else [text[..lengths[0]]] + CutPaths(text[lengths[0] + 1..], lengths[1..])
  }

  function Substituted(paths: seq<seq<byte>>, prefix: seq<byte>): seq<seq<byte>> {
    seq(|paths|, i requires 0 <= i < |paths| => Subst(paths[i], prefix))
  }

  function LengthsOf(paths: seq<seq<byte>>, prefix: seq<byte>): seq<nat> {
    seq(|paths|, i requires 0 <= i < |paths| => |Subst(paths[i], prefix)|)
  }

  lemma {:induction false} NewLengthsSize(paths: seq<seq<byte>>, prefix: seq<byte>, w: nat)
    ensures |NewLengths(paths, prefix, w)| == w * |paths|
  {
    hide Subst;
    if paths == [] {
    } else {
      NewLengthsSize(paths[1..], prefix, w);
      assert w * |paths| == w + w * (|paths| - 1);
    }
  }

  lemma {:induction false} LengthsReadBack(paths: seq<seq<byte>>, prefix: seq<byte>, w: nat)
    requires LengthsPack(paths, prefix, w)
    ensures |NewLengths(paths, prefix, w)| == w * |paths|
    ensures ReadLengths(NewLengths(paths, prefix, w), w, |paths|) == LengthsOf(paths, prefix)
  {
    hide Subst, Capacity, PackLittle, Little;
    NewLengthsSize(paths, prefix, w);
    if paths == [] {
    } else {
      var rest := paths[1..];
      assert forall p :: p in rest ==> p in paths;
      LengthsReadBack(rest, prefix, w);
      var head := PackLittle(|Subst(paths[0], prefix)|, w);
      var all := NewLengths(paths, prefix, w);
      assert all[..w] == head && all[w..] == NewLengths(rest, prefix, w);
      assert paths[0] in paths;
      PackRoundTrip(|Subst(paths[0], prefix)|, w);
      assert LengthsOf(paths, prefix) == [|Subst(paths[0], prefix)|] + LengthsOf(rest, prefix);
    }
  }

  lemma {:induction false} TextCutsBack(paths: seq<seq<byte>>, prefix: seq<byte>, padding: seq<byte>)
    ensures CutPaths(NewText(paths, prefix) + padding, LengthsOf(paths, prefix)) == Substituted(paths, prefix)
  {
    hide Subst;
    if paths == [] {
    } else {
      var rest, head := paths[1..], Subst(paths[0], prefix);
      TextCutsBack(rest, prefix, padding);
      var text := NewText(paths, prefix) + padding;
      assert text == head + [0] + (NewText(rest, prefix) + padding);
      assert text[..|head|] == head && text[|head| + 1..] == NewText(rest, prefix) + padding;
      assert LengthsOf(paths, prefix)[1..] == LengthsOf(rest, prefix);
      assert Substituted(paths, prefix) == [head] + Substituted(rest, prefix);
    }
  }

  /** Cutting the new search path bytes with the lengths written beside them gives
      the old paths, up to the first empty one, each with its prefix substituted. */
  lemma SysdirsCutBack(d0: seq<byte>, h: Header, prefix: seq<byte>, e: seq<byte>, i: nat, j: nat)
    requires SysdirsDone(d0, h, prefix, e, i, j)
    ensures var paths := PathsAt(d0, h, i);
            var text := Slice(e, SectOff(d0, h, i), SectSize(d0, h, i));
            var lengths := Slice(e, SectOff(d0, h, j), WordSize(h) * |paths|);
            && |lengths| == WordSize(h) * |paths|
            && CutPaths(text, ReadLengths(lengths, WordSize(h), |paths|)) == Substituted(paths, prefix)
  {
    hide Slice, SectOff, SectSize, NewText, NewLengths, PathsAt, WordSize, LengthsPack, CutPaths, LengthsOf,
         ReadLengths;
    var paths := PathsAt(d0, h, i);
    LengthsReadBack(paths, prefix, WordSize(h));
    var text := PadTo(NewText(paths, prefix), SectSize(d0, h, i));
    assert text == NewText(paths, prefix) + text[|NewText(paths, prefix)|..];
    TextCutsBack(paths, prefix, text[|NewText(paths, prefix)|..]);
  }
}
