/** One line of the extra file keeps the union law of merge_lockedsigs. A value line
    appends to a merged section and, for a task asked for, to the section to copy, or
    it is there already; a line that starts a section adds an empty one, unless the
    main file has it. In each case the sections read so far from the extra file and
    the merge so far move on together. The cases are taken one by one: the merged
    sections first, then the sections to copy. */
module MergeSteps {
  import opened LockedSigs
  import opened MergedSections
  import opened Options

  lemma UnionStep(copyTasks: seq<string>, main: Sigs, extra: Sigs, m: Merge, line: string)
    requires Readable(m) && IsUnion(copyTasks, main, extra, m) && ValidSigs(extra)
    requires !MergeLine(copyTasks, m, line).failed
    requires extra.reading.None? && StartsSection(line) ==> TypeName(line) !in extra.get
    ensures IsUnion(copyTasks, main, ReadLine(extra, line), MergeLine(copyTasks, m, line))
  {
    hide TypeName, StartsSection, IsValueLine, Copies, TaskOf;
    if extra.reading.Some? {
      if IsValueLine(line) {
        LineStep(copyTasks, main, extra, m, line, extra.reading.value);
      }
    } else if StartsSection(line) {
      SectionStep(copyTasks, main, extra, m, TypeName(line));
    }
  }

  lemma NewLinesSnoc(base: seq<string>, ls: seq<string>, line: string)
    ensures var r := NewLines(base, ls);
            NewLines(base, ls + [line]) == if line in base + r then r else r + [line]
  {
    assert (ls + [line])[..|ls|] == ls;
  }

  lemma CopiedSnoc(copyTasks: seq<string>, ls: seq<string>, line: string)
    ensures CopiedOf(copyTasks, ls + [line]) == CopiedOf(copyTasks, ls) + if Copies(copyTasks, line) then [line] else []
  {
    assert (ls + [line])[..|ls|] == ls;
  }

  lemma LineStep(copyTasks: seq<string>, main: Sigs, extra: Sigs, m: Merge, line: string, t: string)
    requires Readable(m) && IsUnion(copyTasks, main, extra, m) && ValidSigs(extra)
    requires extra.reading == Some(t) && IsValueLine(line) && !MergeLine(copyTasks, m, line).failed
    ensures IsUnion(copyTasks, main, ReadLine(extra, line), MergeLine(copyTasks, m, line))
  {
    hide IsValueLine, Copies, TaskOf, NewLines, MergedRight, CopiedRight;
    LineMerges(copyTasks, main, extra, m, line, t);
    LineCopies(copyTasks, main, extra, m, line, t);
  }

  /** What one value line does. */
  lemma ValueLine(copyTasks: seq<string>, extra: Sigs, m: Merge, line: string, t: string)
    requires Readable(m) && ValidSigs(extra) && !m.failed && m.reading == extra.reading == Some(t)
    requires IsValueLine(line) && !MergeLine(copyTasks, m, line).failed
    ensures ReadLine(extra, line) == extra.(get := extra.get[t := extra.get[t] + [line]])
    ensures var n, known := MergeLine(copyTasks, m, line), line in m.merged[t];
            && n.order == m.order && n.copyOrder == m.copyOrder
            && n.merged == (if known then m.merged else m.merged[t := m.merged[t] + [line]])
            && n.tocopy == (if known || !Copies(copyTasks, line) then m.tocopy
                            else m.tocopy[t := m.tocopy[t] + [line]])
  {
    hide IsValueLine, Copies, TaskOf;
  }

  lemma LineMerges(copyTasks: seq<string>, main: Sigs, extra: Sigs, m: Merge, line: string, t: string)
    requires Readable(m) && MergedRight(main, extra, m) && ValidSigs(extra) && !m.failed && m.reading == extra.reading
    requires extra.reading == Some(t) && IsValueLine(line) && !MergeLine(copyTasks, m, line).failed
    ensures MergedRight(main, ReadLine(extra, line), MergeLine(copyTasks, m, line))
  {
    hide IsValueLine, Copies, TaskOf, NewLines, Unknown, CopiedOf, ReadLine, MergeLine;
    ValueLine(copyTasks, extra, m, line, t);
    var base, ls := At(main.get, t), extra.get[t];
    NewLinesSnoc(base, ls, line);
    var e, n := ReadLine(extra, line), MergeLine(copyTasks, m, line);
    assert m.merged[t] == base + NewLines(base, ls);
    MergedSection(base, NewLines(base, ls), line);
    assert n.merged[t] == base + NewLines(base, ls + [line]);
    forall u | u in n.merged
      ensures n.merged[u] == At(main.get, u) + NewLines(At(main.get, u), At(e.get, u))
    {
      if u != t { assert At(e.get, u) == At(extra.get, u) && n.merged[u] == m.merged[u]; }
    }
  }

  lemma MergedSection(base: seq<string>, news: seq<string>, line: string)
    ensures base + (news + [line]) == (base + news) + [line]
  {}

  lemma LineCopies(copyTasks: seq<string>, main: Sigs, extra: Sigs, m: Merge, line: string, t: string)
    requires Readable(m) && IsUnion(copyTasks, main, extra, m) && ValidSigs(extra)
    requires extra.reading == Some(t) && IsValueLine(line) && !MergeLine(copyTasks, m, line).failed
    ensures CopiedRight(copyTasks, main, ReadLine(extra, line), MergeLine(copyTasks, m, line))
  {
    hide IsValueLine, Copies, TaskOf, NewLines, CopiedOf, Unknown, ReadLine, MergeLine;
    ValueLine(copyTasks, extra, m, line, t);
    var base, ls := At(main.get, t), extra.get[t];
    var news := NewLines(base, ls);
    NewLinesSnoc(base, ls, line);
    CopiedSnoc(copyTasks, news, line);
    var e, n := ReadLine(extra, line), MergeLine(copyTasks, m, line);
    assert m.merged[t] == base + news;
    assert n.tocopy[t] == CopiedOf(copyTasks, NewLines(base, ls + [line]));
    forall u | u in n.tocopy
      ensures n.tocopy[u] == CopiedOf(copyTasks, NewLines(At(main.get, u), e.get[u]))
    {
      if u != t { assert e.get[u] == extra.get[u]; }
    }
  }

  lemma UnknownSnoc(known: Sections, order: seq<string>, t: string)
    ensures Unknown(known, order + [t]) == Unknown(known, order) + if t in known then [] else [t]
  {
    assert (order + [t])[..|order|] == order;
  }

  lemma SectionStep(copyTasks: seq<string>, main: Sigs, extra: Sigs, m: Merge, t: string)
    requires Readable(m) && IsUnion(copyTasks, main, extra, m) && ValidSigs(extra) && extra.reading.None?
             && t !in extra.get
    ensures IsUnion(copyTasks, main, Sigs(extra.get[t := []], extra.order + [t], Some(t)),
                    Merge(if t in m.merged then m.merged else m.merged[t := []],
                          if t in m.merged then m.order else m.order + [t],
                          Some(t), m.tocopy[t := []], if t in m.tocopy then m.copyOrder else m.copyOrder + [t], false))
  {
    hide NewLines, CopiedOf, Unknown, MergedRight;
    SectionMerges(copyTasks, main, extra, m, t);
    EmptySection(copyTasks, At(main.get, t));
    var get := extra.get[t := []];
    forall u | u in m.tocopy[t := []]
      ensures m.tocopy[t := []][u] == CopiedOf(copyTasks, NewLines(At(main.get, u), get[u]))
    {
      if u != t { assert get[u] == extra.get[u]; }
    }
  }

  lemma SectionMerges(copyTasks: seq<string>, main: Sigs, extra: Sigs, m: Merge, t: string)
    requires MergedRight(main, extra, m) && t !in extra.get
    ensures MergedRight(main, Sigs(extra.get[t := []], extra.order + [t], Some(t)),
                        Merge(if t in m.merged then m.merged else m.merged[t := []],
                              if t in m.merged then m.order else m.order + [t],
                              Some(t), m.tocopy[t := []], if t in m.tocopy then m.copyOrder else m.copyOrder + [t],
                                false))
  {
    hide NewLines, Unknown;
    UnknownSnoc(main.get, extra.order, t);
    EmptySection(copyTasks, At(main.get, t));
    var get := extra.get[t := []];
    var merged := if t in m.merged then m.merged else m.merged[t := []];
    assert At(get, t) == [] && At(extra.get, t) == [];
    forall u | u in merged
      ensures merged[u] == At(main.get, u) + NewLines(At(main.get, u), At(get, u))
    {
      if u != t { assert At(get, u) == At(extra.get, u); }
    }
    assert main.order + (Unknown(main.get, extra.order) + [t]) == m.order + [t];
    assert main.order + (Unknown(main.get, extra.order) + []) == m.order;
  }

  lemma EmptySection(copyTasks: seq<string>, base: seq<string>)
    ensures NewLines(base, []) == [] && base + [] == base && CopiedOf(copyTasks, []) == []
  {}
}
