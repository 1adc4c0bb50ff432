/** What merging locked signatures yields, and that the result reads back. */
module LockedSigsTheorems {
  import opened Counting
  import opened LockedSigs
  import opened MergeSteps
  import opened MergedSections
  import opened Options
  import opened PyStrings
  import opened TextLines

  lemma ReadSnoc(lines: seq<string>, line: string)
    ensures Read(lines + [line]) == ReadLine(Read(lines), line)
  {
    assert (lines + [line])[..|lines|] == lines;
  }

  /** Sections only grow while a file without repeated sections is read. */
  lemma {:induction false} ReadGrows(lines: seq<string>, k: nat)
    requires k <= |lines| && Distinct(Read(lines).order)
    ensures var front, all := Read(lines[..k]), Read(lines);
            && Distinct(front.order) && front.order <= all.order
            && forall t :: t in front.get ==> t in all.get && front.get[t] <= all.get[t]
    decreases |lines| - k
  {
    if k == |lines| {
      assert lines[..k] == lines;
    } else {
      ReadGrows(lines, k + 1);
      assert lines[..k + 1] == lines[..k] + [lines[k]];
      ReadSnoc(lines[..k], lines[k]);
      ReadValid(lines[..k]);
      StepGrows(Read(lines[..k]), lines[k]);
    }
  }

  lemma StepGrows(s: Sigs, line: string)
    requires ValidSigs(s) && Distinct(ReadLine(s, line).order)
    ensures var r := ReadLine(s, line);
            && Distinct(s.order) && s.order <= r.order
            && forall t :: t in s.get ==> t in r.get && s.get[t] <= r.get[t]
    ensures s.reading.None? && StartsSection(line) ==> TypeName(line) !in s.get
  {
    hide TypeName, StartsSection, IsValueLine;
    var r := ReadLine(s, line);
    assert forall i :: 0 <= i < |s.order| ==> r.order[i] == s.order[i];
    if s.reading.None? && StartsSection(line) {
      assert r.order[|s.order|] == TypeName(line);
      assert TypeName(line) !in s.order;
    }
  }

  /** The union law: section by section, the merged lines are those of the main file
      followed by the first occurrences of the new lines of the extra file. */
  lemma {:induction false} MergeIsUnion(copyTasks: seq<string>, main: seq<string>, extra: seq<string>)
    requires Distinct(Read(extra).order) && !MergeSigs(copyTasks, main, extra).failed
    ensures IsUnion(copyTasks, Read(main), Read(extra), MergeSigs(copyTasks, main, extra))
    decreases |extra|
  {
    hide MergeLine, ReadLine, IsUnion, Distinct;
    if extra == [] {
      EmptyUnion(copyTasks, Read(main));
    } else {
      var init, line := extra[..|extra| - 1], extra[|extra| - 1];
      assert extra == init + [line];
      ReadSnoc(init, line);
      ReadGrows(extra, |init|);
      ReadValid(init);
      StepGrows(Read(init), line);
      FailedStays(copyTasks, MergeSigs(copyTasks, main, init), line);
      MergeIsUnion(copyTasks, main, init);
      UnionStep(copyTasks, Read(main), Read(init), MergeSigs(copyTasks, main, init), line);
    }
  }

  lemma FailedStays(copyTasks: seq<string>, m: Merge, line: string)
    requires Readable(m)
    ensures m.failed ==> MergeLine(copyTasks, m, line).failed
  {}

  lemma EmptyUnion(copyTasks: seq<string>, main: Sigs)
    ensures IsUnion(copyTasks, main, NoSigs, StartMerge(main))
  {
    assert main.order + [] == main.order;
    forall t | t in main.get
      ensures main.get[t] == At(main.get, t) + NewLines(At(main.get, t), [])
    {}
  }

  /** The lines to copy are in the merged section, are not in the main one, and their
      task is one that was asked for. */
  lemma CopiedLines(copyTasks: seq<string>, main: Sigs, extra: Sigs, m: Merge, t: string, line: string)
    requires IsUnion(copyTasks, main, extra, m) && t in m.tocopy && line in m.tocopy[t]
    ensures t in m.merged && line in m.merged[t] && line !in At(main.get, t) && Copies(copyTasks, line)
  {
    hide Copies, NewLines;
    CopiedMembers(copyTasks, NewLines(At(main.get, t), extra.get[t]), line);
    NewMembers(At(main.get, t), extra.get[t], line);
  }

  lemma NewMembers(base: seq<string>, ls: seq<string>, line: string)
    ensures line in NewLines(base, ls) <==> line in ls && line !in base
  {}

  lemma {:induction false} CopiedMembers(copyTasks: seq<string>, ls: seq<string>, line: string)
    ensures line in CopiedOf(copyTasks, ls) <==> line in ls && Copies(copyTasks, line)
    decreases |ls|
  {
    hide Copies;
    if ls == [] {
    } else {
      assert ls == ls[..|ls| - 1] + [ls[|ls| - 1]];
      CopiedMembers(copyTasks, ls[..|ls| - 1], line);
    }
  }

  // ---------------------------------------------------------------------
  // Reading back what was written
  // ---------------------------------------------------------------------

  /** A type name as a section header can give it. */
  predicate GoodName(t: string) {
    "t-" <= t && '=' !in t && !IsSpace(t[|t| - 1])
  }

  ghost predicate GoodLines(ls: seq<string>) {
    forall l :: l in ls ==> IsValueLine(l)
  }

  ghost predicate GoodSections(get: Sections) {
    forall t :: t in get ==> GoodName(t) && GoodLines(get[t])
  }

  lemma {:induction false} BeforeEqualsStops(a: string, b: string)
    requires '=' !in a
    ensures BeforeEquals(a + "=" + b) == a
  {
    var s := a + "=" + b;
    if a == "" {
      assert s[0] == '=';
    } else {
      assert s[1..] == a[1..] + "=" + b;
      BeforeEqualsStops(a[1..], b);
      assert a == [a[0]] + a[1..];
    }
  }

  lemma {:induction false} BeforeEqualsKeeps(a: string, s: string)
    requires '=' !in a && a <= s
    ensures a <= BeforeEquals(s)
  {
    if a == "" {
    } else {
      assert a[1..] <= s[1..];
      BeforeEqualsKeeps(a[1..], s[1..]);
    }
  }

  lemma RStripKeeps(s: string, n: nat)
    requires n <= |s| && n > 0 && !IsSpace(s[n - 1])
    ensures |RStrip(s)| >= n
  {
    if IsSpace(s[|s| - 1]) { RStripKeeps(s[..|s| - 1], n); }
  }

  /** Section headers give good names. */
  lemma TypeNameIsGood(line: string)
    requires StartsSection(line)
    ensures GoodName(TypeName(line))
  {
    var rest := line[|SECTION|..];
    assert "t-" <= rest by { assert SECTION_T == SECTION + "t-"; }
    BeforeEqualsKeeps("t-", rest);
    RStripKeeps(BeforeEquals(rest), 2);
  }

  lemma RStripOneSpace(t: string)
    requires t != "" && !IsSpace(t[|t| - 1])
    ensures RStrip(t + " ") == t
  {
    assert (t + " ")[..|t|] == t;
    assert RStrip(t + " ") == RStrip(t) == t;
  }

  /** A written header reads back as its type. */
  lemma HeaderReadsBack(t: string)
    requires GoodName(t)
    ensures StartsSection(Header(t)) && TypeName(Header(t)) == t
  {
    hide BeforeEquals, RStrip;
    var tail := " \"\\\n";
    var rest := t + " " + "=" + tail;
    assert " = \"\\\n" == " " + "=" + tail;
    assert Header(t) == SECTION + rest;
    assert Header(t)[|SECTION|..] == rest;
    assert SECTION_T == SECTION + "t-";
    BeforeEqualsStops(t + " ", tail);
    RStripOneSpace(t);
  }

  lemma LineKeepsGood(s: Sigs, line: string)
    requires GoodSections(s.get) && (s.reading.Some? ==> s.reading.value in s.get)
    ensures GoodSections(ReadLine(s, line).get)
  {
    hide TypeName, IsValueLine, GoodName, StartsSection;
    if s.reading.None? && StartsSection(line) {
      TypeNameIsGood(line);
    }
  }

  lemma {:induction false} ReadIsGood(lines: seq<string>)
    ensures GoodSections(Read(lines).get)
    decreases |lines|
  {
    hide ReadLine, GoodSections;
    if lines == [] {
      assert GoodSections(map[]) by { NoSections(); }
    } else {
      ReadIsGood(lines[..|lines| - 1]);
      LineKeepsGood(Read(lines[..|lines| - 1]), lines[|lines| - 1]);
    }
  }

  lemma NoSections()
    ensures GoodSections(map[])
  {}

  lemma MergeLineKeepsGood(copyTasks: seq<string>, m: Merge, line: string)
    requires Readable(m) && GoodSections(m.merged) && GoodSections(m.tocopy)
    ensures var r := MergeLine(copyTasks, m, line); GoodSections(r.merged) && GoodSections(r.tocopy)
  {
    hide TypeName, IsValueLine, GoodName, StartsSection, TaskOf, Copies;
    if m.reading.None? && StartsSection(line) {
      TypeNameIsGood(line);
    }
  }

  lemma {:induction false} MergeIsGood(copyTasks: seq<string>, m: Merge, lines: seq<string>)
    requires Readable(m) && GoodSections(m.merged) && GoodSections(m.tocopy)
    ensures var r := MergeFrom(copyTasks, m, lines); GoodSections(r.merged) && GoodSections(r.tocopy)
    decreases |lines|
  {
    hide MergeLine, GoodSections;
    if lines == [] {
    } else {
      MergeIsGood(copyTasks, m, lines[..|lines| - 1]);
      MergeLineKeepsGood(copyTasks, MergeFrom(copyTasks, m, lines[..|lines| - 1]), lines[|lines| - 1]);
    }
  }

  lemma {:induction false} ReadAppend(s: Sigs, xs: seq<string>, ys: seq<string>)
    requires s.reading.Some? ==> s.reading.value in s.get
    ensures ReadFrom(s, xs + ys) == ReadFrom(ReadFrom(s, xs), ys)
    decreases |ys|
  {
    hide ReadLine;
    if ys == [] {
      assert xs + ys == xs;
    } else {
      assert (xs + ys)[..|xs + ys| - 1] == xs + ys[..|ys| - 1];
      ReadAppend(s, xs, ys[..|ys| - 1]);
    }
  }

  lemma {:induction false} ReadValues(s: Sigs, t: string, ls: seq<string>)
    requires s.reading == Some(t) && t in s.get && GoodLines(ls)
    ensures ReadFrom(s, ls) == s.(get := s.get[t := s.get[t] + ls])
    decreases |ls|
  {
    hide IsValueLine;
    if ls == [] {
      assert s.get[t] + [] == s.get[t];
      assert s.get[t := s.get[t]] == s.get;
    } else {
      var init, last := ls[..|ls| - 1], ls[|ls| - 1];
      assert last in ls && forall l :: l in init ==> l in ls;
      ReadValues(s, t, init);
      assert s.get[t] + ls == (s.get[t] + init) + [last];
    }
  }

  lemma ClosingIsNoValue()
    ensures !IsValueLine(CLOSING)
  {
    assert CLOSING[|CLOSING| - 2] != CONTINUED[0];
    assert CLOSING[|CLOSING| - 2..][0] == CLOSING[|CLOSING| - 2];
  }

  /** One written section reads back. */
  lemma ReadSection(s: Sigs, t: string, ls: seq<string>)
    requires s.reading.None? && GoodName(t) && GoodLines(ls)
    ensures ReadFrom(s, [Header(t)] + ls + [CLOSING]) == Sigs(s.get[t := ls], s.order + [t], None)
  {
    hide Header, TypeName, StartsSection, IsValueLine, GoodName;
    HeaderReadsBack(t);
    ClosingIsNoValue();
    ReadAppend(s, [Header(t)] + ls, [CLOSING]);
    ReadAppend(s, [Header(t)], ls);
    assert [Header(t)][..0] == [] && [CLOSING][..0] == [];
    var begun := Sigs(s.get[t := []], s.order + [t], Some(t));
    assert ReadFrom(s, [Header(t)]) == begun;
    ReadValues(begun, t, ls);
    assert [] + ls == ls && s.get[t := []][t := ls] == s.get[t := ls];
  }

  /** The sections with at least one line. */
  function NonEmpty(order: seq<string>, get: Sections): Sections {
    map t | t in get && t in order && get[t] != [] :: get[t]
  }

  lemma {:induction false} ReadSections(order: seq<string>, get: Sections)
    requires Distinct(order) && GoodSections(get) && forall t :: t in order ==> t in get
    ensures ReadFrom(NoSigs, SectionLines(order, get)) == Sigs(NonEmpty(order, get), FullTypes(order, get), None)
    decreases |order|
  {
    hide ReadLine, GoodName, GoodLines, Header, NonEmpty;
    if order == [] {
      NonEmptyNone(get);
    } else {
      var init, t := order[..|order| - 1], order[|order| - 1];
      assert order == init + [t] && t !in init;
      ReadSections(init, get);
      NonEmptySnoc(init, t, get);
      var lines := if get[t] != [] then [Header(t)] + get[t] + [CLOSING] else [];
      ReadAppend(NoSigs, SectionLines(init, get), lines);
      if get[t] != [] {
        ReadSection(Sigs(NonEmpty(init, get), FullTypes(init, get), None), t, get[t]);
      }
    }
  }

  lemma NonEmptyNone(get: Sections)
    ensures NonEmpty([], get) == map[]
  {}

  lemma NonEmptySnoc(init: seq<string>, t: string, get: Sections)
    requires t in get && t !in init
    ensures NonEmpty(init + [t], get) == if get[t] != [] then NonEmpty(init, get)[t := get[t]] else NonEmpty(init, get)
  {}

  lemma TypesLineIsNoSection(names: seq<string>)
    ensures !StartsSection(TypesLine(names))
  {
    assert TypesLine(names)[|SECTION|] == 'T' && SECTION_T[|SECTION|] == 't';
  }

  /** Round trip: a written file reads back as its sections with at least one line, in
      the order in which they were given. */
  lemma WrittenReadsBack(order: seq<string>, get: Sections)
    requires Distinct(order) && GoodSections(get) && forall t :: t in order ==> t in get
    ensures Read(Written(order, get)) == Sigs(NonEmpty(order, get), FullTypes(order, get), None)
  {
    hide TypesLine, StartsSection, TypeName;
    ReadSections(order, get);
    TypesLineIsNoSection(FullTypes(order, get));
    assert [TypesLine(FullTypes(order, get))][..0] == [];
    ReadAppend(NoSigs, SectionLines(order, get), [TypesLine(FullTypes(order, get))]);
  }

  lemma {:induction false} UnknownDistinct(known: Sections, order: seq<string>)
    requires Distinct(order)
    ensures Distinct(Unknown(known, order)) && forall t :: t in Unknown(known, order) <==> t in order && t !in known
    decreases |order|
  {
    if order == [] {
    } else {
      var init, t := order[..|order| - 1], order[|order| - 1];
      assert order == init + [t] && t !in init;
      UnknownDistinct(known, init);
    }
  }

  lemma UnionOrder(copyTasks: seq<string>, main: Sigs, extra: Sigs, m: Merge)
    requires IsUnion(copyTasks, main, extra, m) && ValidSigs(main) && ValidSigs(extra)
    requires Distinct(main.order) && Distinct(extra.order)
    ensures Distinct(m.order) && forall t :: t in m.order <==> t in m.merged
  {
    hide NewLines, CopiedOf, Unknown;
    UnknownDistinct(main.get, extra.order);
    var u := Unknown(main.get, extra.order);
    forall i, j | 0 <= i < j < |m.order|
      ensures m.order[i] != m.order[j]
    {
      if i < |main.order| <= j {
        assert m.order[j] == u[j - |main.order|] && m.order[j] in u;
        assert m.order[i] in main.order;
      }
    }
  }

  /** Files without repeated sections merge into a file that reads back as the merged
      sections with at least one line. */
  lemma MergedFileReadsBack(copyTasks: seq<string>, main: seq<string>, extra: seq<string>)
    requires Distinct(Read(main).order) && Distinct(Read(extra).order) && !MergeSigs(copyTasks, main, extra).failed
    ensures var m := MergeSigs(copyTasks, main, extra);
            && (forall t :: t in m.order <==> t in m.merged) && Distinct(m.order) && GoodSections(m.merged)
            && Read(Written(m.order, m.merged)) == Sigs(NonEmpty(m.order, m.merged), FullTypes(m.order, m.merged), None)
  {
    hide Read, MergeFrom, IsUnion, Distinct, GoodSections, ValidSigs;
    var m := MergeSigs(copyTasks, main, extra);
    MergeIsUnion(copyTasks, main, extra);
    ReadValid(main);
    ReadValid(extra);
    UnionOrder(copyTasks, Read(main), Read(extra), m);
    ReadIsGood(main);
    NoSections();
    MergeIsGood(copyTasks, StartMerge(Read(main)), extra);
    WrittenReadsBack(m.order, m.merged);
  }

  // ---------------------------------------------------------------------
  // Merging again changes nothing
  // ---------------------------------------------------------------------

  /** When every line of `extra` is in `main` already, the merge does not fail. */
  lemma {:induction false} NothingNewSucceeds(copyTasks: seq<string>, main: seq<string>, extra: seq<string>, k: nat)
    requires k <= |extra| && Distinct(Read(extra).order)
    requires forall t, l :: t in Read(extra).get && l in Read(extra).get[t] ==> l in At(Read(main).get, t)
    ensures !MergeSigs(copyTasks, main, extra[..k]).failed
    decreases k
  {
    hide Read, MergeLine, ReadLine, Distinct, IsUnion, ValidSigs;
    if k == 0 {
      assert extra[..0] == [];
    } else {
      NothingNewSucceeds(copyTasks, main, extra, k - 1);
      ReadGrows(extra, k - 1);
      ReadGrows(extra, k);
      MergeIsUnion(copyTasks, main, extra[..k - 1]);
      var line := extra[k - 1];
      assert extra[..k] == extra[..k - 1] + [line] && extra[..k][..k - 1] == extra[..k - 1];
      ReadSnoc(extra[..k - 1], line);
      ReadValid(extra[..k - 1]);
      OldLineSucceeds(copyTasks, Read(main), Read(extra[..k - 1]), MergeSigs(copyTasks, main, extra[..k - 1]), line,
        Read(extra));
    }
  }

  lemma OldLineSucceeds(copyTasks: seq<string>, main: Sigs, extra: Sigs, m: Merge, line: string, all: Sigs)
    requires Readable(m) && IsUnion(copyTasks, main, extra, m) && ValidSigs(extra)
    requires forall t :: t in ReadLine(extra, line).get ==> t in all.get && ReadLine(extra, line).get[t] <= all.get[t]
    requires forall t, l :: t in all.get && l in all.get[t] ==> l in At(main.get, t)
    ensures !MergeLine(copyTasks, m, line).failed
  {
    hide TypeName, StartsSection, IsValueLine, TaskOf, Copies, NewLines;
    if extra.reading.Some? && IsValueLine(line) {
      var t := extra.reading.value;
      var ls := ReadLine(extra, line).get[t];
      assert ls[|ls| - 1] == line && ls <= all.get[t];
      assert all.get[t][|ls| - 1] == line;
      assert line in At(main.get, t);
      assert m.merged[t] == At(main.get, t) + NewLines(At(main.get, t), At(extra.get, t));
    }
  }

  lemma NoNewLines(base: seq<string>, ls: seq<string>)
    requires forall l :: l in ls ==> l in base
    ensures NewLines(base, ls) == []
  {
    var r := NewLines(base, ls);
    if r != [] { HasMember(r); }
  }

  lemma HasMember(xs: seq<string>)
    requires xs != []
    ensures exists x :: x in xs
  {
    assert xs[0] in xs;
  }

  lemma {:induction false} SameSectionLines(order: seq<string>, a: Sections, b: Sections)
    requires forall t :: t in order ==> t in a && t in b && a[t] == b[t]
    ensures SectionLines(order, a) == SectionLines(order, b) && FullTypes(order, a) == FullTypes(order, b)
    decreases |order|
  {
    if order == [] {
    } else {
      var init, t := order[..|order| - 1], order[|order| - 1];
      assert order == init + [t];
      SameSectionLines(init, a, b);
    }
  }

  lemma {:induction false} AppendEmptySections(order: seq<string>, more: seq<string>, get: Sections)
    requires forall t :: t in order + more ==> t in get
    requires forall t :: t in more ==> get[t] == []
    ensures SectionLines(order + more, get) == SectionLines(order, get)
            && FullTypes(order + more, get) == FullTypes(order, get)
    decreases |more|
  {
    if more == [] {
      assert order + more == order;
    } else {
      var init, t := more[..|more| - 1], more[|more| - 1];
      assert more == init + [t];
      assert (order + more)[..|order + more| - 1] == order + init;
      AppendEmptySections(order, init, get);
    }
  }

  lemma {:induction false} FullTypesOnly(order: seq<string>, get: Sections)
    requires forall t :: t in order ==> t in get
    ensures forall t :: t in FullTypes(order, get) <==> t in order && get[t] != []
    ensures SectionLines(FullTypes(order, get), get) == SectionLines(order, get)
    ensures FullTypes(FullTypes(order, get), get) == FullTypes(order, get)
    decreases |order|
  {
    hide Header;
    if order == [] {
    } else {
      var init, t := order[..|order| - 1], order[|order| - 1];
      assert order == init + [t];
      FullTypesOnly(init, get);
      var f := FullTypes(init, get);
      if get[t] == [] {
        assert FullTypes(order, get) == f + [] == f;
        assert SectionLines(order, get) == SectionLines(init, get) + [] == SectionLines(init, get);
      } else {
        assert FullTypes(order, get) == f + [t];
        OneMoreSection(f, t, get);
      }
    }
  }

  lemma OneMoreSection(f: seq<string>, t: string, get: Sections)
    requires t in get && get[t] != [] && forall u :: u in f ==> u in get
    ensures forall u :: u in f + [t] ==> u in get
    ensures SectionLines(f + [t], get) == SectionLines(f, get) + ([Header(t)] + get[t] + [CLOSING])
    ensures FullTypes(f + [t], get) == FullTypes(f, get) + [t]
  {
    hide Header;
    assert (f + [t])[..|f|] == f;
  }

  /** Idempotence: merging the same extra file into the merged file again writes the
      same file, and leaves nothing to copy. */
  lemma MergingAgainChangesNothing(copyTasks: seq<string>, main: seq<string>, extra: seq<string>)
    requires Distinct(Read(main).order) && Distinct(Read(extra).order) && !MergeSigs(copyTasks, main, extra).failed
    ensures var m := MergeSigs(copyTasks, main, extra);
            && MergeOrdered(m)
            && var again := MergeSigs(copyTasks, Written(m.order, m.merged), extra);
               && MergeOrdered(again) && !again.failed
               && Written(again.order, again.merged) == Written(m.order, m.merged)
               && forall t :: t in again.tocopy ==> again.tocopy[t] == []
  {
    hide Read, MergeFrom, IsUnion, Distinct, GoodSections, ValidSigs, NonEmpty, SectionLines, FullTypes, Written,
         TypesLine;
    var m := MergeSigs(copyTasks, main, extra);
    StartIsOrdered(main);
    MergeIsOrdered(copyTasks, StartMerge(Read(main)), extra);
    MergedFileReadsBack(copyTasks, main, extra);
    MergeIsUnion(copyTasks, main, extra);
    var file := Written(m.order, m.merged);
    UnionHasExtra(copyTasks, Read(main), Read(extra), m, Read(file));
    NothingNewSucceeds(copyTasks, file, extra, |extra|);
    assert extra[..|extra|] == extra;
    var again := MergeSigs(copyTasks, file, extra);
    StartIsOrdered(file);
    MergeIsOrdered(copyTasks, StartMerge(Read(file)), extra);
    MergeIsUnion(copyTasks, file, extra);
    ReadValid(extra);
    AgainWritesSame(copyTasks, Read(file), Read(extra), m, again);
  }

  lemma StartIsOrdered(lines: seq<string>)
    ensures MergeOrdered(StartMerge(Read(lines)))
  {
    hide Read;
    ReadValid(lines);
  }

  lemma UnionHasExtra(copyTasks: seq<string>, main: Sigs, extra: Sigs, m: Merge, file: Sigs)
    requires IsUnion(copyTasks, main, extra, m) && (forall t :: t in m.order <==> t in m.merged)
    requires file.get == NonEmpty(m.order, m.merged)
    ensures forall t, l :: t in extra.get && l in extra.get[t] ==> l in At(file.get, t)
  {
    hide NewLines;
    forall t, l | t in extra.get && l in extra.get[t]
      ensures l in At(file.get, t)
    {
      NewMembers(At(main.get, t), extra.get[t], l);
      assert m.merged[t] == At(main.get, t) + NewLines(At(main.get, t), At(extra.get, t));
      assert l in m.merged[t];
    }
  }

  lemma AgainWritesSame(copyTasks: seq<string>, file: Sigs, extra: Sigs, m: Merge, again: Merge)
    requires IsUnion(copyTasks, file, extra, again) && MergeOrdered(m) && MergeOrdered(again)
    requires file.get == NonEmpty(m.order, m.merged) && file.order == FullTypes(m.order, m.merged)
    requires forall t, l :: t in extra.get && l in extra.get[t] ==> l in At(file.get, t)
    requires ValidSigs(extra) && Distinct(extra.order)
    ensures Written(again.order, again.merged) == Written(m.order, m.merged)
    ensures forall t :: t in again.tocopy ==> again.tocopy[t] == []
  {
    hide NewLines, CopiedOf, SectionLines, FullTypes, Unknown, TypesLine, ValidSigs;
    forall t | t in again.merged
      ensures again.merged[t] == At(file.get, t)
    {
      NoNewLines(At(file.get, t), At(extra.get, t));
      assert At(file.get, t) + [] == At(file.get, t);
    }
    forall t | t in again.tocopy
      ensures again.tocopy[t] == []
    {
      NoNewLines(At(file.get, t), extra.get[t]);
      NothingCopied(copyTasks);
    }
    FullTypesOnly(m.order, m.merged);
    var more := Unknown(file.get, extra.order);
    UnknownDistinct(file.get, extra.order);
    AppendEmptySections(file.order, more, again.merged);
    SameSectionLines(file.order, again.merged, m.merged);
  }

  lemma NothingCopied(copyTasks: seq<string>)
    ensures CopiedOf(copyTasks, []) == []
  {}

  // ---------------------------------------------------------------------
  // Files as text
  // ---------------------------------------------------------------------

  /** Sections whose names have no newline and whose lines are whole. */
  ghost predicate WholeSections(get: Sections) {
    forall t :: t in get ==> '\n' !in t && forall l :: l in get[t] ==> WholeLine(l)
  }

  lemma ValueLineIsWhole(l: string)
    requires OneLine(l) && IsValueLine(l)
    ensures WholeLine(l)
  {
    assert l[|l| - 2..][1] == l[|l| - 1];
  }

  lemma TypeNameHasNoNewline(line: string)
    requires StartsSection(line) && OneLine(line)
    ensures '\n' !in TypeName(line)
  {
    hide BeforeEquals, RStrip;
    var rest := line[|SECTION|..];
    var t := TypeName(line);
    assert t <= BeforeEquals(rest) <= rest;
    forall i | 0 <= i < |t|
      ensures t[i] != '\n'
    {
      assert t[i] == line[|SECTION| + i];
    }
  }

  lemma MergeLineKeepsWhole(copyTasks: seq<string>, m: Merge, line: string)
    requires Readable(m) && WholeSections(m.merged) && OneLine(line)
    ensures WholeSections(MergeLine(copyTasks, m, line).merged)
  {
    hide TypeName, IsValueLine, StartsSection, TaskOf, Copies, WholeLine, OneLine;
    if m.reading.Some? && IsValueLine(line) { ValueLineIsWhole(line); }
    if m.reading.None? && StartsSection(line) { TypeNameHasNoNewline(line); }
  }

  lemma {:induction false} MergeIsWhole(copyTasks: seq<string>, m: Merge, lines: seq<string>)
    requires Readable(m) && WholeSections(m.merged) && forall l :: l in lines ==> OneLine(l)
    ensures WholeSections(MergeFrom(copyTasks, m, lines).merged)
    decreases |lines|
  {
    hide MergeLine, WholeSections, OneLine;
    if lines == [] {
    } else {
      var init, last := lines[..|lines| - 1], lines[|lines| - 1];
      assert lines == init + [last] && last in lines;
      MergeIsWhole(copyTasks, m, init);
      MergeLineKeepsWhole(copyTasks, MergeFrom(copyTasks, m, init), last);
    }
  }

  lemma ReadLineKeepsWhole(s: Sigs, line: string)
    requires (s.reading.Some? ==> s.reading.value in s.get) && WholeSections(s.get) && OneLine(line)
    ensures WholeSections(ReadLine(s, line).get)
  {
    hide TypeName, IsValueLine, StartsSection, WholeLine, OneLine;
    if s.reading.Some? && IsValueLine(line) { ValueLineIsWhole(line); }
    if s.reading.None? && StartsSection(line) { TypeNameHasNoNewline(line); }
  }

  lemma {:induction false} ReadIsWhole(lines: seq<string>)
    requires forall l :: l in lines ==> OneLine(l)
    ensures WholeSections(Read(lines).get)
    decreases |lines|
  {
    hide ReadLine, OneLine;
    if lines == [] {
    } else {
      var init, last := lines[..|lines| - 1], lines[|lines| - 1];
      assert lines == init + [last] && last in lines;
      ReadIsWhole(init);
      ReadLineKeepsWhole(Read(init), last);
    }
  }

  lemma HeaderIsWhole(t: string)
    requires '\n' !in t
    ensures WholeLine(Header(t))
  {
    var h := Header(t);
    forall i | 0 <= i < |h| - 1
      ensures h[i] != '\n'
    {
      if |SECTION| <= i < |SECTION| + |t| { assert h[i] == t[i - |SECTION|]; }
    }
  }

  lemma {:induction false} NoNewlineWithSpaces(names: seq<string>)
    requires forall t :: t in names ==> '\n' !in t
    ensures '\n' !in WithSpaces(names)
  {
    if names == [] {
    } else {
      assert names[0] in names && forall t :: t in names[1..] ==> t in names;
      NoNewlineWithSpaces(names[1..]);
    }
  }

  lemma TypesLineIsWhole(names: seq<string>)
    requires forall t :: t in names ==> '\n' !in t
    ensures WholeLine(TypesLine(names))
  {
    hide WithSpaces;
    NoNewlineWithSpaces(names);
    var l := TypesLine(names);
    var n := |SECTION + "TYPES = \""|;
    forall i | 0 <= i < |l| - 1
      ensures l[i] != '\n'
    {
      if n <= i < n + |WithSpaces(names)| { assert l[i] == WithSpaces(names)[i - n]; }
    }
  }

  lemma {:induction false} SectionLinesAreWhole(order: seq<string>, get: Sections)
    requires WholeSections(get) && forall t :: t in order ==> t in get
    ensures forall l :: l in SectionLines(order, get) ==> WholeLine(l)
    ensures forall t :: t in FullTypes(order, get) ==> '\n' !in t
    decreases |order|
  {
    hide WholeLine, Header;
    if order == [] {
    } else {
      var init, t := order[..|order| - 1], order[|order| - 1];
      assert order == init + [t];
      SectionLinesAreWhole(init, get);
      HeaderIsWhole(t);
      ClosingIsWhole();
    }
  }

  lemma ClosingIsWhole()
    ensures WholeLine(CLOSING)
  {}

  /** On texts: the merged file, written as text and read again line by line, has the
      non-empty merged sections in order. */
  lemma MergedTextReadsBack(copyTasks: seq<string>, mainText: string, extraText: string)
    requires var main, extra := LinesOf(mainText), LinesOf(extraText);
             Distinct(Read(main).order) && Distinct(Read(extra).order) && !MergeSigs(copyTasks, main, extra).failed
    ensures var m := MergeSigs(copyTasks, LinesOf(mainText), LinesOf(extraText));
            && MergeOrdered(m)
            && Read(LinesOf(Text(Written(m.order, m.merged))))
              == Sigs(NonEmpty(m.order, m.merged), FullTypes(m.order, m.merged), None)
  {
    hide Read, MergeFrom, Distinct, GoodSections, NonEmpty, WholeSections, OneLine, LinesOf, Text, WholeLine, TypesLine;
    var main, extra := LinesOf(mainText), LinesOf(extraText);
    var m := MergeSigs(copyTasks, main, extra);
    StartIsOrdered(main);
    MergeIsOrdered(copyTasks, StartMerge(Read(main)), extra);
    MergedFileReadsBack(copyTasks, main, extra);
    LinesOfShape(mainText);
    LinesOfShape(extraText);
    ReadIsWhole(main);
    MergeIsWhole(copyTasks, StartMerge(Read(main)), extra);
    SectionLinesAreWhole(m.order, m.merged);
    TypesLineIsWhole(FullTypes(m.order, m.merged));
    TextReadsBack(Written(m.order, m.merged));
  }
}
