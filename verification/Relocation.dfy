/** scripts/relocate_sdk.py on the content of one file. */
module Relocation {
  import opened Bytes
  import opened Options
  import opened Replacing
  import opened Splitting

  /** How a step ends: well, with a path that does not fit (reported, and the run goes
      on), by sys.exit, or with a Python exception. */
  datatype Verdict = Fine | TooLong | Exited | StructError | Unbound

  datatype Header = Header(
    bits: nat, little: bool,
    phoff: nat, shoff: nat, phentsize: nat, phnum: nat, shentsize: nat, shnum: nat, shstrndx: nat)

  datatype Segment = Segment(ptype: nat, offset: nat, filesz: nat)

  datatype Section = Section(name: nat, stype: nat, offset: nat, size: nat)

  const MARKER := Ascii("##DEFAULT_INSTALL_DIR##")
  const BLOCK := 4096

  lemma MarkerNonEmpty()
    ensures MARKER != []
  {
    assert |MARKER| == |"##DEFAULT_INSTALL_DIR##"|;
  }

  function Subst(bs: seq<byte>, prefix: seq<byte>): seq<byte> {
    MarkerNonEmpty();
    Replace(bs, MARKER, prefix)
  }

  function Field(bs: seq<byte>, off: nat, n: nat, little: bool): nat {
    Num(Slice(bs, off, n), little)
  }

  // ---------------------------------------------------------------------
  // Headers
  // ---------------------------------------------------------------------

  /** 32, 64, or 0 when the file is left alone. The comparison with the string "ELF"
      is between bytes and text, so only the first magic byte decides. */
  function ArchOf(data: seq<byte>): nat
    requires |data| >= 64
  {
    if data[0] != 0x7f || data[4] == 0 then 0
    else if data[4] == 1 then 32
    else if data[4] == 2 then 64
    else 0
  }

  function HeaderOf(data: seq<byte>): Header
    requires |data| >= 64
  {
    var l := data[5] == 1;
    if ArchOf(data) == 32 then
      Header(32, l, Field(data, 28, 4, l), Field(data, 32, 4, l), Field(data, 42, 2, l), Field(data, 44, 2, l),
             Field(data, 46, 2, l), Field(data, 48, 2, l), Field(data, 50, 2, l))
    else
      Header(64, l, Field(data, 32, 8, l), Field(data, 40, 8, l), Field(data, 54, 2, l), Field(data, 56, 2, l),
             Field(data, 58, 2, l), Field(data, 60, 2, l), Field(data, 62, 2, l))
  }

  /** Where entry `i` of a table starts. */
  function Entry(off: nat, i: nat, size: nat): nat {
    off + i * size
  }

  function SegmentOf(hdr: seq<byte>, h: Header): Option<Segment> {
    var l := h.little;
    if |hdr| != (if h.bits == 32 then 32 else 56) then None
    else if h.bits == 32 then Some(Segment(Field(hdr, 0, 4, l), Field(hdr, 4, 4, l), Field(hdr, 16, 4, l)))
    else Some(Segment(Field(hdr, 0, 4, l), Field(hdr, 8, 8, l), Field(hdr, 32, 8, l)))
  }

  function SectionOf(hdr: seq<byte>, h: Header): Option<Section> {
    var l := h.little;
    if |hdr| != (if h.bits == 32 then 40 else 64) then None
    else if h.bits == 32 then
      Some(Section(Field(hdr, 0, 4, l), Field(hdr, 4, 4, l), Field(hdr, 16, 4, l), Field(hdr, 20, 4, l)))
    else
      Some(Section(Field(hdr, 0, 4, l), Field(hdr, 4, 4, l), Field(hdr, 24, 8, l), Field(hdr, 32, 8, l)))
  }

  function SegmentAt(data: seq<byte>, h: Header, i: nat): Option<Segment> {
    SegmentOf(Slice(data, Entry(h.phoff, i, h.phentsize), h.phentsize), h)
  }

  function SectionAt(data: seq<byte>, h: Header, i: nat): Option<Section> {
    SectionOf(Slice(data, Entry(h.shoff, i, h.shentsize), h.shentsize), h)
  }

  /** The section name table, if its header can be read. */
  function NameTable(data: seq<byte>, h: Header): Option<seq<byte>> {
    match SectionAt(data, h, h.shstrndx)
    case None => None
    case Some(s) => Some(Slice(data, s.offset, s.size))
  }

  // ---------------------------------------------------------------------
  // The interpreter
  // ---------------------------------------------------------------------

  datatype Out = Out(data: seq<byte>, verdict: Verdict)

  predicate IsSystemLib(name: seq<byte>) {
    || Ascii("/lib/") <= name || Ascii("/lib64/") <= name || Ascii("/lib32/") <= name
    || Ascii("/usr/lib32/") <= name || Ascii("/usr/lib64/") <= name
  }

  /** What happens to the segment of type PT_INTERP that is met first. */
  function Reinterpret(data: seq<byte>, p: Segment, dl: seq<byte>): Out {
    if IsSystemLib(Slice(data, p.offset, 11)) || p.filesz == 0 then Out(data, Fine)
    else if |dl| >= p.filesz then Out(data, TooLong)
    else Out(Patch(data, p.offset, PadTo(dl, p.filesz)), Fine)
  }

  function InterpFrom(data: seq<byte>, h: Header, dl: seq<byte>, i: nat): Out
    decreases h.phnum - i
  {
    if i >= h.phnum then Out(data, Fine)
    else
      match SegmentAt(data, h, i)
      case None => Out(data, StructError)
      case Some(p) => if p.ptype == 3 then Reinterpret(data, p, dl) else InterpFrom(data, h, dl, i + 1)
  }

  // ---------------------------------------------------------------------
  // Sections
  // ---------------------------------------------------------------------

  /** A path relocated to exactly `size` bytes, if it fits with a zero after it. */
  function Relocated(path: seq<byte>, prefix: seq<byte>, size: nat): (r: Option<seq<byte>>)
    ensures r.Some? ==> |r.value| == size
  {
    var path' := StripZeros(Subst(path, prefix));
    if |path'| >= size then None else Some(PadTo(path', size))
  }

  function RelocateCache(data: seq<byte>, s: Section, prefix: seq<byte>): Out {
    match Relocated(Slice(data, s.offset, s.size), prefix, s.size)
    case None => Out(data, Exited)
    case Some(bs) => Out(Patch(data, s.offset, bs), Fine)
  }

  /** The first `n` blocks of a .gccrelocprefix section. */
  function RelocateBlocks(data: seq<byte>, off: nat, prefix: seq<byte>, n: nat): Out {
    if n == 0 then Out(data, Fine)
    else
      var before := RelocateBlocks(data, off, prefix, n - 1);
      if before.verdict != Fine then before
      else
        var at := off + BLOCK * (n - 1);
        match Relocated(Slice(before.data, at, BLOCK), prefix, BLOCK)
        case None => Out(before.data, Exited)
        case Some(bs) => Out(Patch(before.data, at, bs), Fine)
  }

  /** The .sysdirs bytes with their place, and the place of .sysdirslen. */
  datatype Scan = Scan(out: Out, sysdirs: Option<(seq<byte>, nat, nat)>, lens: Option<nat>)

  function SectionStep(scan: Scan, s: Section, name: seq<byte>, prefix: seq<byte>): Scan {
    var data := scan.out.data;
    if s.stype != 1 then scan
    else if name == Ascii(".sysdirs") then scan.(sysdirs := Some((Slice(data, s.offset, s.size), s.offset, s.size)))
    else if name == Ascii(".sysdirslen") then scan.(lens := Some(s.offset))
    else if name == Ascii(".ldsocache") then scan.(out := RelocateCache(data, s, prefix))
    else if name == Ascii(".gccrelocprefix") then scan.(out := RelocateBlocks(data, s.offset, prefix, s.size / BLOCK))
    else scan
  }

  /** The first `n` sections, stopping at the first failure. */
  function ScanSections(data: seq<byte>, h: Header, names: seq<byte>, prefix: seq<byte>, n: nat): Scan {
    if n == 0 then Scan(Out(data, Fine), None, None)
    else
      var scan := ScanSections(data, h, names, prefix, n - 1);
      if scan.out.verdict != Fine then scan
      else
        match SectionAt(scan.out.data, h, n - 1)
        case None => scan.(out := Out(scan.out.data, StructError))
        case Some(s) => SectionStep(scan, s, CString(names, s.name), prefix)
  }

  /** The paths before the first empty one. */
  function Leading(paths: seq<seq<byte>>): seq<seq<byte>> {
    if paths == [] || paths[0] == [] then [] else [paths[0]] + Leading(paths[1..])
  }

  function SysPaths(sysdirs: seq<byte>): seq<seq<byte>> {
    Leading(Split(sysdirs, 0))
  }

  /** The relocated paths, each with a zero after it, and their lengths. */
  function NewText(paths: seq<seq<byte>>, prefix: seq<byte>): seq<byte> {
    if paths == [] then [] else Subst(paths[0], prefix) + [0] + NewText(paths[1..], prefix)
  }

  function NewLengths(paths: seq<seq<byte>>, prefix: seq<byte>, w: nat): seq<byte> {
    if paths == [] then [] else PackLittle(|Subst(paths[0], prefix)|, w) + NewLengths(paths[1..], prefix, w)
  }

  /** struct.pack accepts every length. */
  predicate LengthsPack(paths: seq<seq<byte>>, prefix: seq<byte>, w: nat) {
    forall p :: p in paths ==> |Subst(p, prefix)| < Capacity(w)
  }

  function WordSize(h: Header): nat {
    if h.bits == 32 then 4 else 8
  }

  function WriteSysdirs(scan: Scan, h: Header, prefix: seq<byte>): Out {
    if scan.out.verdict != Fine || scan.sysdirs.None? then scan.out
    else if scan.lens.None? then Out(scan.out.data, Unbound)
    else
      var (text, off, size) := scan.sysdirs.value;
      var paths := SysPaths(text);
      if !LengthsPack(paths, prefix, WordSize(h)) then Out(scan.out.data, StructError)
      else
        var data := Patch(scan.out.data, off, PadTo(NewText(paths, prefix), size));
        Out(Patch(data, scan.lens.value, NewLengths(paths, prefix, WordSize(h))), Fine)
  }

  function ChangeSysdirs(data: seq<byte>, h: Header, prefix: seq<byte>): Out {
    match NameTable(data, h)
    case None => Out(data, StructError)
    case Some(names) => WriteSysdirs(ScanSections(data, h, names, prefix, h.shnum), h, prefix)
  }

  /** One file of the run: interpreter first, then sections, then the size check. */
  function RelocateFile(data: seq<byte>, prefix: seq<byte>, dl: seq<byte>): Out {
    if |data| < 64 || ArchOf(data) == 0 then Out(data, Fine)
    else
      var h := HeaderOf(data);
      var first := InterpFrom(data, h, dl, 0);
      if first.verdict == StructError then first
      else
        var out := ChangeSysdirs(first.data, h, prefix);
        if out.verdict != Fine then out
        else if |out.data| != |data| then Out(out.data, Exited)
        else Out(out.data, first.verdict)
  }

  // ---------------------------------------------------------------------
  // The script
  // ---------------------------------------------------------------------

  class Relocator {
    var data: seq<byte>  // the file f
    var pos: nat
    var h: Header
    const prefix: seq<byte>
    const dl: seq<byte>

    constructor (data: seq<byte>, prefix: seq<byte>, dl: seq<byte>)
      ensures this.data == data && this.prefix == prefix && this.dl == dl
    {
      this.data, this.prefix, this.dl := data, prefix, dl;
      pos := 0;
      h := Header(0, false, 0, 0, 0, 0, 0, 0, 0);
    }

    method Seek(off: nat)
      modifies this`pos
      ensures pos == off
    {
      pos := off;
    }

    method Read(n: nat) returns (bs: seq<byte>)
      modifies this`pos
      ensures bs == Slice(data, old(pos), n) && pos == old(pos) + |bs|
    {
      bs := Slice(data, pos, n);
      pos := pos + |bs|;
    }

    method Write(bs: seq<byte>)
      modifies this`pos, this`data
      ensures data == Patch(old(data), old(pos), bs) && pos == old(pos) + |bs|
    {
      data := Patch(data, pos, bs);
      pos := pos + |bs|;
    }

    method GetArch() returns (arch: nat)
      requires |data| >= 64
      modifies this`pos
      ensures arch == ArchOf(data)
    {
      Seek(0);
      var ident := Read(16);
      if ident[0] != 0x7f || ident[4] == 0 {
        return 0;
      }
      if ident[4] == 1 {
        return 32;
      } else if ident[4] == 2 {
        return 64;
      }
      return 0;
    }

    method ParseElfHeader()
      requires |data| >= 64
      modifies this`pos, this`h
      ensures h == HeaderOf(data)
    {
      Seek(0);
      var elf_header := Read(64);
      HeaderIsInFront(data);
      h := HeaderOf(elf_header);
    }

    method ChangeInterpreter() returns (verdict: Verdict)
      modifies this`pos, this`data
      ensures Out(data, verdict) == InterpFrom(old(data), h, dl, 0)
    {
      for i := 0 to h.phnum
        invariant data == old(data)
        invariant InterpFrom(old(data), h, dl, 0) == InterpFrom(data, h, dl, i)
      {
        Seek(Entry(h.phoff, i, h.phentsize));
        var hdr := Read(h.phentsize);
        var segment := SegmentOf(hdr, h);
        if segment.None? {
          return StructError;
        }
        var p := segment.value;
        if p.ptype == 3 {
          Seek(p.offset);
          var fname := Read(11);
          if IsSystemLib(fname) {
            return Fine;
          }
          if p.filesz == 0 {
            return Fine;
          }
          if |dl| >= p.filesz {
            return TooLong;
          }
          Seek(p.offset);
          Write(PadTo(dl, p.filesz));
          return Fine;
        }
      }
      return Fine;
    }

    method ChangeCache(s: Section) returns (verdict: Verdict)
      requires pos == s.offset
      modifies this`pos, this`data
      ensures Out(data, verdict) == RelocateCache(old(data), s, prefix)
    {
      var path := Read(s.size);
      var path' := StripZeros(Subst(path, prefix));
      if |path'| >= s.size {
        return Exited;
      }
      Seek(s.offset);
      Write(PadTo(path', s.size));
      return Fine;
    }

    method ChangeBlocks(s: Section) returns (verdict: Verdict)
      requires pos == s.offset
      modifies this`pos, this`data
      ensures Out(data, verdict) == RelocateBlocks(old(data), s.offset, prefix, s.size / BLOCK)
    {
      hide Slice, Patch, Subst, StripZeros;
      var offset := 0;
      ghost var n := 0;
      while offset + BLOCK <= s.size
        invariant offset == BLOCK * n && n <= s.size / BLOCK
        invariant pos == s.offset + offset
        invariant Out(data, Fine) == RelocateBlocks(old(data), s.offset, prefix, n)
      {
        assert RelocateBlocks(old(data), s.offset, prefix, n + 1).verdict != Fine ==>
            RelocateBlocks(old(data), s.offset, prefix, n + 1) == Out(data, Exited);
        var path := Read(BLOCK);
        var path' := StripZeros(Subst(path, prefix));
        if |path'| >= BLOCK {
          BlocksStop(old(data), s.offset, prefix, n + 1, s.size / BLOCK);
          return Exited;
        }
        Seek(s.offset + offset);
        Write(PadTo(path', BLOCK));
        offset := offset + BLOCK;
        n := n + 1;
      }
      return Fine;
    }

    method ChangeDlSysdirs() returns (verdict: Verdict)
      modifies this`pos, this`data
      ensures Out(data, verdict) == ChangeSysdirs(old(data), h, prefix)
    {
      hide Slice, Patch, Subst, SectionOf, CString, Ascii, RelocateBlocks, RelocateCache;
      Seek(Entry(h.shoff, h.shstrndx, h.shentsize));
      var hdr := Read(h.shentsize);
      var table := SectionOf(hdr, h);
      if table.None? {
        return StructError;
      }
      Seek(table.value.offset);
      var names := Read(table.value.size);
      var sysdirs: Option<(seq<byte>, nat, nat)> := None;
      var lens: Option<nat> := None;
      for i := 0 to h.shnum
        invariant Scan(Out(data, Fine), sysdirs, lens) == ScanSections(old(data), h, names, prefix, i)
      {
        Seek(Entry(h.shoff, i, h.shentsize));
        hdr := Read(h.shentsize);
        var section := SectionOf(hdr, h);
        if section.None? {
          ScanStops(old(data), h, names, prefix, i + 1, h.shnum);
          return StructError;
        }
        var s := section.value;
        var name := CString(names, s.name);
        if s.stype == 1 {
          Seek(s.offset);
          if name == Ascii(".sysdirs") {
            var text := Read(s.size);
            sysdirs := Some((text, s.offset, s.size));
          } else if name == Ascii(".sysdirslen") {
            var _ := Read(s.size);
            lens := Some(s.offset);
          } else if name == Ascii(".ldsocache") {
            verdict := ChangeCache(s);
            if verdict != Fine {
              ScanStops(old(data), h, names, prefix, i + 1, h.shnum);
              return;
            }
          } else if name == Ascii(".gccrelocprefix") {
            verdict := ChangeBlocks(s);
            if verdict != Fine {
              ScanStops(old(data), h, names, prefix, i + 1, h.shnum);
              return;
            }
          }
        }
      }
      verdict := WriteBack(Scan(Out(data, Fine), sysdirs, lens));
    }

    /** The part after the loop over the sections. */
    method WriteBack(scan: Scan) returns (verdict: Verdict)
      requires scan.out == Out(data, Fine)
      modifies this`pos, this`data
      ensures Out(data, verdict) == WriteSysdirs(scan, h, prefix)
    {
      hide Patch, Subst;
      if scan.sysdirs.None? {
        return Fine;
      }
      if scan.lens.None? {
        return Unbound;
      }
      var (text, off, size) := scan.sysdirs.value;
      var fits, sysdirs, sysdirslen := PackPaths(text);
      if !fits {
        return StructError;
      }
      Seek(off);
      Write(PadTo(sysdirs, size));
      Seek(scan.lens.value);
      Write(sysdirslen);
      return Fine;
    }

    /** The loop over the paths; it stops at the first empty one. */
    method PackPaths(text: seq<byte>) returns (fits: bool, sysdirs: seq<byte>, sysdirslen: seq<byte>)
      ensures fits <==> LengthsPack(SysPaths(text), prefix, WordSize(h))
      ensures fits ==> sysdirs == NewText(SysPaths(text), prefix)
      ensures fits ==> sysdirslen == NewLengths(SysPaths(text), prefix, WordSize(h))
    {
      hide Subst, Split, PackLittle, Capacity;
      ghost var all := SysPaths(text);
      var w := WordSize(h);
      var paths := Split(text, 0);
      sysdirs, sysdirslen := [], [];
      var k := 0;
      while k < |paths| && paths[k] != []
        invariant k <= |paths| && k <= |all| && all[k..] == Leading(paths[k..])
        invariant forall j :: 0 <= j < k ==> |Subst(all[j], prefix)| < Capacity(w)
        invariant sysdirs + NewText(all[k..], prefix) == NewText(all, prefix)
        invariant sysdirslen + NewLengths(all[k..], prefix, w) == NewLengths(all, prefix, w)
      {
        var path := paths[k];
        assert all[k..][0] == path && all[k..][1..] == all[k + 1..] && paths[k..][1..] == paths[k + 1..];
        assert all[k] == path;
        var new_path := Subst(path, prefix);
        if |new_path| >= Capacity(w) {
          return false, sysdirs, sysdirslen;
        }
        AppendAssoc(sysdirs, new_path + [0], NewText(all[k + 1..], prefix));
        AppendAssoc(sysdirslen, PackLittle(|new_path|, w), NewLengths(all[k + 1..], prefix, w));
        sysdirs := sysdirs + (new_path + [0]);
        sysdirslen := sysdirslen + PackLittle(|new_path|, w);
        k := k + 1;
      }
      assert all[k..] == [];
      assert sysdirs + [] == sysdirs && sysdirslen + [] == sysdirslen;
      fits := true;
    }

    method Relocate() returns (verdict: Verdict)
      modifies this
      ensures Out(data, verdict) == RelocateFile(old(data), prefix, dl)
    {
      var oldSize := |data|;
      if oldSize < 64 {
        return Fine;
      }
      var arch := GetArch();
      if arch == 0 {
        return Fine;
      }
      ParseElfHeader();
      var first := ChangeInterpreter();
      if first == StructError {
        return StructError;
      }
      verdict := ChangeDlSysdirs();
      if verdict != Fine {
        return;
      }
      if |data| != oldSize {
        return Exited;
      }
      return first;
    }
  }

  lemma HeaderIsInFront(data: seq<byte>)
    requires |data| >= 64
    ensures HeaderOf(Slice(data, 0, 64)) == HeaderOf(data)
  {
    hide Num;
    var front := Slice(data, 0, 64);
    forall off: nat, n: nat | off + n <= 64
      ensures Slice(front, off, n) == Slice(data, off, n)
    {}
  }

  lemma AppendAssoc<T>(a: seq<T>, b: seq<T>, c: seq<T>)
    ensures a + (b + c) == (a + b) + c
  {}

  lemma {:induction false} BlocksStop(data: seq<byte>, off: nat, prefix: seq<byte>, n: nat, m: nat)
    requires n <= m && RelocateBlocks(data, off, prefix, n).verdict != Fine
    ensures RelocateBlocks(data, off, prefix, m) == RelocateBlocks(data, off, prefix, n)
  {
    hide Relocated, Patch;
    if n < m { BlocksStop(data, off, prefix, n, m - 1); }
  }

  lemma {:induction false} ScanStops(data: seq<byte>, h: Header, names: seq<byte>, prefix: seq<byte>, n: nat, m: nat)
    requires n <= m && ScanSections(data, h, names, prefix, n).out.verdict != Fine
    ensures ScanSections(data, h, names, prefix, m) == ScanSections(data, h, names, prefix, n)
  {
    hide SectionStep, SectionAt, CString;
    if n < m { ScanStops(data, h, names, prefix, n, m - 1); }
  }
}
