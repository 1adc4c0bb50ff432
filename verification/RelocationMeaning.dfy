/** What the relocated sections hold, said by the pieces between the markers. */
module RelocationMeaning {
  import opened Bytes
  import opened Options
  import opened Relocation
  import opened RelocationFrame
  import opened RelocationTheorems
  import opened Replacing
  import opened Splitting

  /** `text` is `was` with the prefix for every marker: the same pieces glued anew. */
  ghost predicate IsSubstituted(was: seq<byte>, prefix: seq<byte>, text: seq<byte>) {
    exists parts :: Leftmost(parts, MARKER) && was == Glue(parts, MARKER) && text == Glue(parts, prefix)
  }

  lemma SubstIs(was: seq<byte>, prefix: seq<byte>)
    ensures forall text :: IsSubstituted(was, prefix, text) <==> text == Subst(was, prefix)
  {
    MarkerNonEmpty();
    forall text | IsSubstituted(was, prefix, text)
      ensures text == Subst(was, prefix)
    {
      var parts :| Leftmost(parts, MARKER) && was == Glue(parts, MARKER) && text == Glue(parts, prefix);
      ReplaceGlues(parts, MARKER, prefix);
    }
    var parts := PiecesExist(was, MARKER);
    ReplaceGlues(parts, MARKER, prefix);
    assert IsSubstituted(was, prefix, Subst(was, prefix));
  }

  /** In particular, what stands around one marker stays, whatever it is. */
  lemma AroundOneMarker(before: seq<byte>, after: seq<byte>, prefix: seq<byte>)
    requires NoStart(before + MARKER + after, |before|, MARKER) && NoStart(after, |after|, MARKER)
    ensures Subst(before + MARKER + after, prefix) == before + prefix + after
  {
    hide Replace;
    MarkerNonEmpty();
    assert before + MARKER + after == before + (MARKER + after);
    ReplaceAfter(before, MARKER + after, MARKER, prefix);
    ReplaceFirst(after, MARKER, prefix);
    NothingToReplace(after, MARKER, prefix);
    assert before + (prefix + after) == before + prefix + after;
  }

  /** `new` has the length of `was` and holds its substituted text without the zeros at
      the end, and then zeros, at least one. */
  ghost predicate HoldsText(was: seq<byte>, prefix: seq<byte>, now: seq<byte>) {
    && |now| == |was|
    && exists text, n: nat :: IsSubstituted(was, prefix, text) && StartsWithText(text, n, now)
  }

  ghost predicate StartsWithText(text: seq<byte>, n: nat, now: seq<byte>) {
    && n <= |text| && n < |now| && now[..n] == text[..n] && (n == 0 || text[n - 1] != 0)
    && (forall k :: n <= k < |text| ==> text[k] == 0) && (forall k :: n <= k < |now| ==> now[k] == 0)
  }

  lemma RelocatedHolds(was: seq<byte>, prefix: seq<byte>)
    ensures forall now :: Relocated(was, prefix, |was|) == Some(now) <==> HoldsText(was, prefix, now)
  {
    hide Subst, IsSubstituted;
    SubstIs(was, prefix);
    var text := Subst(was, prefix);
    var kept := StripZeros(text);
    if |kept| < |was| {
      assert StartsWithText(text, |kept|, PadTo(kept, |was|));
    }
    forall now | HoldsText(was, prefix, now)
      ensures Relocated(was, prefix, |was|) == Some(now)
    {
      var n: nat :| StartsWithText(text, n, now);
      assert n == |kept| by {
        assert n > 0 ==> text[n - 1] != 0;
        assert kept != [] ==> text[|kept| - 1] != 0;
      }
      assert now == PadTo(kept, |was|);
    }
  }

  /** The paths of a search path section: the pieces between the zeros, before the first
      empty one. */
  ghost predicate PathsOf(was: seq<byte>, paths: seq<seq<byte>>) {
    var all := Split(was, 0);
    && paths <= all && (forall p :: p in paths ==> p != []) && (|paths| == |all| || all[|paths|] == [])
  }

  lemma {:induction false} LeadingAre(all: seq<seq<byte>>)
    ensures var ps := Leading(all); ps <= all && (forall p :: p in ps ==> p != []) && (|ps| == |all| || all[|ps|] == [])
  {
    if all == [] || all[0] == [] {
    } else {
      LeadingAre(all[1..]);
      assert all == [all[0]] + all[1..];
    }
  }

  /** The names of the dynamic loaders that are left alone. */
  const LOADERS := {"/lib/", "/lib64/", "/lib32/", "/usr/lib32/", "/usr/lib64/"}

  /** The interpreter afterwards: left alone for a loader of the system and when the new
      path does not fit with a zero behind it, and else the new path and zeros. */
  ghost predicate InterpHolds(was: seq<byte>, start: seq<byte>, dl: seq<byte>, now: seq<byte>) {
    if (exists l :: l in LOADERS && Ascii(l) <= start) || |dl| >= |was| then now == was
    else |now| == |was| && dl <= now && forall k :: |dl| <= k < |was| ==> now[k] == 0
  }

  lemma InterpIs(d0: seq<byte>, p: Segment, dl: seq<byte>)
    requires p.offset + p.filesz <= |d0|
    ensures InterpHolds(Slice(d0, p.offset, p.filesz), Slice(d0, p.offset, 11), dl, NewInterp(d0, p, dl))
  {
    hide Ascii;
    var start := Slice(d0, p.offset, 11);
    assert IsSystemLib(start) <==> exists l :: l in LOADERS && Ascii(l) <= start by {
      if IsSystemLib(start) {
        assert "/lib/" in LOADERS && "/lib64/" in LOADERS && "/lib32/" in LOADERS;
        assert "/usr/lib32/" in LOADERS && "/usr/lib64/" in LOADERS;
      }
    }
  }

  /** Main result: what a completing run leaves in the interpreter, the cache sections, the
      whole blocks and the search paths, said without the substitution of the script. */
  lemma RelocationHolds(d0: seq<byte>, prefix: seq<byte>, dl: seq<byte>, names: seq<byte>)
    requires |d0| >= 64 && ArchOf(d0) != 0 && NameTable(d0, HeaderOf(d0)) == Some(names)
    requires WellLaid(d0, HeaderOf(d0), names) && SysdirsFit(d0, HeaderOf(d0), names, prefix)
    requires RelocateFile(d0, prefix, dl).verdict in {Fine, TooLong}
    ensures var h, e := HeaderOf(d0), RelocateFile(d0, prefix, dl).data;
            && (forall i :: 0 <= i < h.shnum ==> SectionHolds(d0, h, names, prefix, e, i))
            && (forall i: nat, j: nat :: HasSysdirs(d0, h, names, i, j) ==> SysdirsHold(d0, h, prefix, e, i, j))
            && (InterpSegment(d0, h, 0).Some? ==>
                  var p := InterpSegment(d0, h, 0).value;
                  InterpHolds(Slice(d0, p.offset, p.filesz), Slice(d0, p.offset, 11), dl, Slice(e, p.offset, p.filesz)))
  {
    hide WellLaid, SysdirsFit, ArchOf, HeaderOf, RelocateFile, SectionHolds, SysdirsHold, SysdirsDone, SectionDone,
         InterpHolds, Written, NewInterp, InterpSegment, Slice, NameTable, KindOf, FrameKept, HasSysdirs;
    var h, e := HeaderOf(d0), RelocateFile(d0, prefix, dl).data;
    RelocationCompletes(d0, prefix, dl, names);
    forall i | 0 <= i < h.shnum
      ensures SectionHolds(d0, h, names, prefix, e, i)
    {
      SectionMeans(d0, h, names, prefix, e, i);
    }
    forall i: nat, j: nat | HasSysdirs(d0, h, names, i, j)
      ensures SysdirsHold(d0, h, prefix, e, i, j)
    {
      SysdirsMean(d0, h, names, prefix, e, i, j);
    }
    if InterpSegment(d0, h, 0).Some? {
      InterpInFile(d0, h, names);
      InterpIs(d0, InterpSegment(d0, h, 0).value, dl);
    }
  }

  ghost predicate SectionHolds(d0: seq<byte>, h: Header, names: seq<byte>, prefix: seq<byte>, e: seq<byte>, i: nat) {
    var off, size := SectOff(d0, h, i), SectSize(d0, h, i);
    && (KindOf(d0, h, names, i) == Cache ==> HoldsText(Slice(d0, off, size), prefix, Slice(e, off, size)))
    && (KindOf(d0, h, names, i) == Blocks ==>
          forall b: nat :: b < size / BLOCK ==>
            HoldsText(Slice(d0, BlockAt(off, b), BLOCK), prefix, Slice(e, BlockAt(off, b), BLOCK)))
  }

  /** Cutting the new search paths by the lengths beside them gives each old path with the
      prefix for every marker. */
  ghost predicate SysdirsHold(d0: seq<byte>, h: Header, prefix: seq<byte>, e: seq<byte>, i: nat, j: nat) {
    exists paths :: SearchPathsHold(d0, h, prefix, e, i, j, paths)
  }

  ghost predicate SearchPathsHold(d0: seq<byte>, h: Header, prefix: seq<byte>, e: seq<byte>, i: nat, j: nat,
                                  paths: seq<seq<byte>>)
  {
    && PathsOf(Slice(d0, SectOff(d0, h, i), SectSize(d0, h, i)), paths)
    && CutsBack(Slice(e, SectOff(d0, h, i), SectSize(d0, h, i)),
                Slice(e, SectOff(d0, h, j), WordSize(h) * |paths|), WordSize(h), prefix, paths)
  }

  ghost predicate CutsBack(text: seq<byte>, lengths: seq<byte>, width: nat, prefix: seq<byte>, paths: seq<seq<byte>>) {
    && |lengths| == width * |paths|
    && var cut := CutPaths(text, ReadLengths(lengths, width, |paths|));
       |cut| == |paths| && forall k :: 0 <= k < |paths| ==> IsSubstituted(paths[k], prefix, cut[k])
  }

  lemma SectionMeans(d0: seq<byte>, h: Header, names: seq<byte>, prefix: seq<byte>, e: seq<byte>, i: nat)
    requires WellLaid(d0, h, names) && SectionDone(d0, h, names, prefix, e, i) && i < h.shnum
    ensures SectionHolds(d0, h, names, prefix, e, i)
  {
    hide KindOf, SectOff, SectSize, Slice, Relocated, HoldsText, Guarded, WellLaid;
    var off, size := SectOff(d0, h, i), SectSize(d0, h, i);
    if KindOf(d0, h, names, i) != Other { LaidInFile(d0, h, names, i); }
    if KindOf(d0, h, names, i) == Cache {
      RelocatedHolds(Slice(d0, off, size), prefix);
    }
    if KindOf(d0, h, names, i) == Blocks {
      forall b: nat | b < size / BLOCK
        ensures HoldsText(Slice(d0, BlockAt(off, b), BLOCK), prefix, Slice(e, BlockAt(off, b), BLOCK))
      {
        assert BlockDone(d0, e, BlockAt(off, b), prefix);
        BlockInSection(off, size, b);
        RelocatedHolds(Slice(d0, BlockAt(off, b), BLOCK), prefix);
      }
    }
  }

  lemma BlockInSection(off: nat, size: nat, b: nat)
    requires b < size / BLOCK
    ensures BlockAt(off, b) + BLOCK <= off + size
  {
    assert BLOCK * (b + 1) <= BLOCK * (size / BLOCK) <= size;
  }

  lemma SysdirsMean(d0: seq<byte>, h: Header, names: seq<byte>, prefix: seq<byte>, e: seq<byte>, i: nat, j: nat)
    requires SysdirsDone(d0, h, prefix, e, i, j)
    ensures SysdirsHold(d0, h, prefix, e, i, j)
  {
    hide SysdirsDone, SectOff, SectSize, Slice, CutPaths, ReadLengths, WordSize, IsSubstituted, Subst, Split, Leading;
    var paths := PathsAt(d0, h, i);
    SysdirsCutBack(d0, h, prefix, e, i, j);
    LeadingAre(Split(Slice(d0, SectOff(d0, h, i), SectSize(d0, h, i)), 0));
    forall k | 0 <= k < |paths|
      ensures IsSubstituted(paths[k], prefix, Substituted(paths, prefix)[k])
    {
      SubstIs(paths[k], prefix);
    }
    assert SearchPathsHold(d0, h, prefix, e, i, j, paths);
  }

  lemma InterpInFile(d0: seq<byte>, h: Header, names: seq<byte>)
    requires WellLaid(d0, h, names) && InterpSegment(d0, h, 0).Some?
    ensures var p := InterpSegment(d0, h, 0).value; p.offset + p.filesz <= |d0|
  {
    hide KindOf, Guarded, InterpSegment;
  }

  /** The interpreter is the first segment of type 3. */
  lemma {:induction false} InterpIsFirst(d: seq<byte>, h: Header, i: nat)
    ensures var p := InterpSegment(d, h, i);
            if p.Some? then FirstOfType(d, h, i, p.value) else NoneOfType(d, h, i)
    decreases h.phnum - i
  {
    hide SegmentAt;
    if i >= h.phnum {
    } else if SegmentAt(d, h, i).Some? && SegmentAt(d, h, i).value.ptype != 3 {
      InterpIsFirst(d, h, i + 1);
    }
  }

  /** No segment of the type, or one that cannot be read in front of it. */
  ghost predicate NoneOfType(d: seq<byte>, h: Header, i: nat) {
    forall j :: i <= j < h.phnum && SegmentAt(d, h, j).Some? && SegmentAt(d, h, j).value.ptype == 3
      ==> exists k :: i <= k < j && SegmentAt(d, h, k).None?
  }

  ghost predicate FirstOfType(d: seq<byte>, h: Header, i: nat, p: Segment) {
    exists j: nat :: i <= j < h.phnum && SegmentAt(d, h, j) == Some(p) && p.ptype == 3
                     && forall k :: i <= k < j ==> SegmentAt(d, h, k).Some? && SegmentAt(d, h, k).value.ptype != 3
  }
}
