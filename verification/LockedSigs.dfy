/** oe.copy_buildsystem.merge_lockedsigs: files of locked signatures, read line by
    line into sections, merged, and written back. */
module LockedSigs {
  import opened Options
  import opened PyStrings

  const SECTION := "SIGGEN_LOCKEDSIGS_"
  const SECTION_T := "SIGGEN_LOCKEDSIGS_t-"
  const CONTINUED := "\\\n"
  const CLOSING := "    \"\n"

  predicate EndsWith(s: string, tail: string) {
    |tail| <= |s| && s[|s| - |tail|..] == tail
  }

  /** A value line goes on to the next line. */
  predicate IsValueLine(line: string) {
    EndsWith(line, CONTINUED)
  }

  predicate StartsSection(line: string) {
    SECTION_T <= line
  }

  /** The text before the first `=`. */
  function BeforeEquals(s: string): (t: string)
    ensures t <= s && '=' !in t
  {
    if s == "" || s[0] == '=' then "" else [s[0]] + BeforeEquals(s[1..])
  }

  function TypeName(line: string): string
    requires StartsSection(line)
  {
    RStrip(BeforeEquals(line[|SECTION|..]))
  }

  /** Sections by type name, the order in which they were met (a repeated section is
      there twice), and the section whose lines are being read, if any. */
  datatype Sigs = Sigs(get: map<string, seq<string>>, order: seq<string>, reading: Option<string>)

  const NoSigs := Sigs(map[], [], None)

  ghost predicate ValidSigs(s: Sigs) {
    && (forall t :: t in s.get <==> t in s.order)
    && (s.reading.Some? ==> s.reading.value in s.get)
  }

  /** One line of the main file. */
  function ReadLine(s: Sigs, line: string): Sigs
    requires s.reading.Some? ==> s.reading.value in s.get
  {
    if s.reading.Some? then
      if IsValueLine(line) then s.(get := s.get[s.reading.value := s.get[s.reading.value] + [line]])
      else s.(reading := None)
    else if StartsSection(line) then
      Sigs(s.get[TypeName(line) := []], s.order + [TypeName(line)], Some(TypeName(line)))
    else s
  }

  function ReadFrom(s: Sigs, lines: seq<string>): (r: Sigs)
    requires s.reading.Some? ==> s.reading.value in s.get
    ensures r.reading.Some? ==> r.reading.value in r.get
  {
    if lines == [] then s else ReadLine(ReadFrom(s, lines[..|lines| - 1]), lines[|lines| - 1])
  }

  function Read(lines: seq<string>): (r: Sigs)
    ensures r.reading.Some? ==> r.reading.value in r.get
  {
    ReadFrom(NoSigs, lines)
  }

  // ---------------------------------------------------------------------
  // Merging
  // ---------------------------------------------------------------------

  /** str.split(':')[1] of a stripped line, if there is a colon. */
  function AfterColon(s: string): Option<string> {
    if s == "" then None
    else if s[0] == ':' then Some(BeforeColon(s[1..]))
    else AfterColon(s[1..])
  }

  function BeforeColon(s: string): string {
    if s == "" || s[0] == ':' then "" else [s[0]] + BeforeColon(s[1..])
  }

  /** The task a value line is about; without a colon Python fails to unpack it. */
  function TaskOf(line: string): Option<string> {
    AfterColon(LStrip(RStrip(line)))
  }

  predicate Copies(copyTasks: seq<string>, line: string) {
    copyTasks == [] || (TaskOf(line).Some? && TaskOf(line).value in copyTasks)
  }

  /** The merge so far: merged sections, the section of the extra file being read, and
      the sections to copy with their order. */
  datatype Merge = Merge(merged: map<string, seq<string>>, order: seq<string>, reading: Option<string>,
                         tocopy: map<string, seq<string>>, copyOrder: seq<string>, failed: bool)

  predicate Readable(m: Merge) {
    m.reading.Some? ==> m.reading.value in m.merged && m.reading.value in m.tocopy
  }

  function MergeLine(copyTasks: seq<string>, m: Merge, line: string): (r: Merge)
    requires Readable(m)
    ensures Readable(r)
  {
    if m.failed then m
    else if m.reading.Some? then
      var t := m.reading.value;
      if !IsValueLine(line) then m.(reading := None)
      else if line in m.merged[t] then m
      else if TaskOf(line).None? then m.(failed := true)
      else m.(merged := m.merged[t := m.merged[t] + [line]],
              tocopy := if Copies(copyTasks, line) then m.tocopy[t := m.tocopy[t] + [line]] else m.tocopy)
    else if StartsSection(line) then
      var t := TypeName(line);
      Merge(if t in m.merged then m.merged else m.merged[t := []],
            if t in m.merged then m.order else m.order + [t],
            Some(t), m.tocopy[t := []], if t in m.tocopy then m.copyOrder else m.copyOrder + [t], false)
    else m
  }

  function MergeFrom(copyTasks: seq<string>, m: Merge, lines: seq<string>): (r: Merge)
    requires Readable(m)
    ensures Readable(r)
  {
    if lines == [] then m
    else MergeLine(copyTasks, MergeFrom(copyTasks, m, lines[..|lines| - 1]), lines[|lines| - 1])
  }

  function StartMerge(main: Sigs): (m: Merge)
    ensures Readable(m)
  {
    Merge(main.get, main.order, None, map[], [], false)
  }

  function MergeSigs(copyTasks: seq<string>, main: seq<string>, extra: seq<string>): Merge {
    MergeFrom(copyTasks, StartMerge(Read(main)), extra)
  }

  // ---------------------------------------------------------------------
  // Writing
  // ---------------------------------------------------------------------

  function Header(t: string): string {
    SECTION + t + " = \"\\\n"
  }

  function WithSpaces(names: seq<string>): string {
    if names == [] then "" else if |names| == 1 then names[0] else names[0] + " " + WithSpaces(names[1..])
  }

  function TypesLine(names: seq<string>): string {
    SECTION + "TYPES = \"" + WithSpaces(names) + "\"\n"
  }

  /** The type names with at least one line, in order. */
  function FullTypes(order: seq<string>, get: map<string, seq<string>>): seq<string>
    requires forall t :: t in order ==> t in get
  {
    if order == [] then []
    else
      assert order[|order| - 1] in order;
      FullTypes(order[..|order| - 1], get) + if get[order[|order| - 1]] != [] then [order[|order| - 1]] else []
  }

  function SectionLines(order: seq<string>, get: map<string, seq<string>>): seq<string>
    requires forall t :: t in order ==> t in get
  {
    if order == [] then []
    else
      var t := order[|order| - 1];
      assert t in order;
      SectionLines(order[..|order| - 1], get) + if get[t] != [] then [Header(t)] + get[t] + [CLOSING] else []
  }

  function Written(order: seq<string>, get: map<string, seq<string>>): seq<string>
    requires forall t :: t in order ==> t in get
  {
    SectionLines(order, get) + [TypesLine(FullTypes(order, get))]
  }

  // ---------------------------------------------------------------------
  // The methods
  // ---------------------------------------------------------------------

  lemma {:induction false} ReadValid(lines: seq<string>)
    ensures ValidSigs(Read(lines))
    decreases |lines|
  {
    hide TypeName, IsValueLine, StartsSection;
    if lines == [] {
    } else {
      ReadValid(lines[..|lines| - 1]);
    }
  }

  method ReadMain(lines: seq<string>) returns (merged: map<string, seq<string>>, archOrder: seq<string>)
    ensures merged == Read(lines).get && archOrder == Read(lines).order
  {
    merged, archOrder := map[], [];
    var invalue: Option<string> := None;
    for i := 0 to |lines|
      invariant Sigs(merged, archOrder, invalue) == Read(lines[..i])
    {
      var line := lines[i];
      assert lines[..i + 1][..i] == lines[..i];
      if invalue.Some? {
        if IsValueLine(line) {
          merged := merged[invalue.value := merged[invalue.value] + [line]];
        } else {
          invalue := None;
        }
      } else if StartsSection(line) {
        invalue := Some(TypeName(line));
        merged := merged[invalue.value := []];
        archOrder := archOrder + [invalue.value];
      }
    }
    assert lines[..|lines|] == lines;
  }

  /** None is the failure to unpack a line without a colon. */
  method MergeExtra(copyTasks: seq<string>, main: Sigs, lines: seq<string>) returns (r: Option<Merge>)
    ensures var m := MergeFrom(copyTasks, StartMerge(main), lines);
            r == if m.failed then None else Some(m)
  {
    var m := StartMerge(main);
    for i := 0 to |lines|
      invariant Readable(m) && !m.failed && m == MergeFrom(copyTasks, StartMerge(main), lines[..i])
    {
      var line := lines[i];
      assert lines[..i + 1][..i] == lines[..i];
      if m.reading.Some? {
        var invalue := m.reading.value;
        if IsValueLine(line) {
          if line !in m.merged[invalue] {
            var task := TaskOf(line);
            if task.None? {
              FailureStays(copyTasks, StartMerge(main), lines, i + 1);
              return None;
            }
            if copyTasks == [] || task.value in copyTasks {
              m := m.(tocopy := m.tocopy[invalue := m.tocopy[invalue] + [line]]);
            }
            m := m.(merged := m.merged[invalue := m.merged[invalue] + [line]]);
          }
        } else {
          m := m.(reading := None);
        }
      } else if StartsSection(line) {
        var invalue := TypeName(line);
        if invalue !in m.merged {
          m := m.(merged := m.merged[invalue := []], order := m.order + [invalue]);
        }
        if invalue !in m.tocopy {
          m := m.(copyOrder := m.copyOrder + [invalue]);
        }
        m := m.(tocopy := m.tocopy[invalue := []], reading := Some(invalue));
      }
    }
    assert lines[..|lines|] == lines;
    r := Some(m);
  }

  lemma {:induction false} FailureStays(copyTasks: seq<string>, m: Merge, lines: seq<string>, k: nat)
    requires Readable(m) && k <= |lines| && MergeFrom(copyTasks, m, lines[..k]).failed
    ensures MergeFrom(copyTasks, m, lines).failed
    decreases |lines|
  {
    if k == |lines| {
      assert lines[..k] == lines;
    } else {
      assert lines[..|lines| - 1][..k] == lines[..k];
      FailureStays(copyTasks, m, lines[..|lines| - 1], k);
    }
  }

  method WriteSigsFile(types: seq<string>, sigs: map<string, seq<string>>) returns (file: seq<string>)
    requires forall t :: t in types ==> t in sigs
    ensures file == Written(types, sigs)
  {
    file := [];
    var fulltypes := [];
    for i := 0 to |types|
      invariant file == SectionLines(types[..i], sigs) && fulltypes == FullTypes(types[..i], sigs)
    {
      var typename := types[i];
      assert types[..i + 1][..i] == types[..i];
      var lines := sigs[typename];
      if lines != [] {
        ghost var before := file;
        file := file + [Header(typename)];
        for k := 0 to |lines|
          invariant file == before + [Header(typename)] + lines[..k]
        {
          file := file + [lines[k]];
        }
        assert lines[..|lines|] == lines;
        file := file + [CLOSING];
        assert file == before + ([Header(typename)] + lines + [CLOSING]);
        fulltypes := fulltypes + [typename];
      }
    }
    assert types[..|types|] == types;
    file := file + [TypesLine(fulltypes)];
  }

  method MergeLockedSigs(copyTasks: seq<string>, main: seq<string>, extra: seq<string>)
    returns (mergedFile: Option<seq<string>>, copyFile: Option<seq<string>>)
    ensures var m := MergeSigs(copyTasks, main, extra);
            && MergeOrdered(m)
            && mergedFile == (if m.failed then None else Some(Written(m.order, m.merged)))
            && copyFile == (if m.failed then None else Some(Written(m.copyOrder, m.tocopy)))
  {
    var merged, archOrder := ReadMain(main);
    ReadValid(main);
    MergeIsOrdered(copyTasks, StartMerge(Read(main)), extra);
    StartsAlike(Read(main));
    var m := MergeExtra(copyTasks, Sigs(merged, archOrder, None), extra);
    if m.None? {
      return None, None;
    }
    var file := WriteSigsFile(m.value.copyOrder, m.value.tocopy);
    copyFile := Some(file);
    file := WriteSigsFile(m.value.order, m.value.merged);
    mergedFile := Some(file);
  }

  lemma StartsAlike(s: Sigs)
    ensures StartMerge(Sigs(s.get, s.order, None)) == StartMerge(s)
  {}

  ghost predicate MergeOrdered(m: Merge) {
    (forall t :: t in m.order <==> t in m.merged) && (forall t :: t in m.copyOrder <==> t in m.tocopy)
  }

  lemma {:induction false} MergeIsOrdered(copyTasks: seq<string>, m: Merge, lines: seq<string>)
    requires Readable(m) && MergeOrdered(m)
    ensures MergeOrdered(MergeFrom(copyTasks, m, lines))
    decreases |lines|
  {
    hide MergeLine, MergeOrdered;
    if lines == [] {
    } else {
      MergeIsOrdered(copyTasks, m, lines[..|lines| - 1]);
      MergeLineIsOrdered(copyTasks, MergeFrom(copyTasks, m, lines[..|lines| - 1]), lines[|lines| - 1]);
    }
  }

  lemma MergeLineIsOrdered(copyTasks: seq<string>, m: Merge, line: string)
    requires Readable(m) && MergeOrdered(m)
    ensures MergeOrdered(MergeLine(copyTasks, m, line))
  {
    hide TypeName, IsValueLine, StartsSection, TaskOf, Copies;
  }
}
