/** What a line of a locked signatures file says, and which lines are copied, kept or
    refused for it. */
module SigLines {
  import opened Counting
  import opened LockedSigs
  import opened LockedSigsTheorems
  import opened MergedSections
  import opened Options
  import PruneSigs
  import opened PyStrings
  import opened Splitting

  // ---------------------------------------------------------------------
  // Reading one line
  // ---------------------------------------------------------------------

  ghost predicate NoBlankEnds(s: string) {
    s != "" && !IsSpace(s[0]) && !IsSpace(s[|s| - 1])
  }

  ghost predicate NamesAt(line: string, left: string, target: string, task: string, rest: string, right: string) {
    && line == left + (target + ":" + task + rest) + right
    && IsBlank(left) && IsBlank(right) && NoBlankEnds(target + ":" + task + rest)
    && ':' !in target && ':' !in task && (rest == "" || rest[0] == ':')
  }

  /** White space apart, the line is the target, a colon and the task, and then nothing
      or a colon and something more. */
  ghost predicate Names(line: string, target: string, task: string) {
    exists left, rest, right :: NamesAt(line, left, target, task, rest, right)
  }

  lemma {:induction false} LStripLeaves(left: string, s: string)
    requires IsBlank(left) && s != "" && !IsSpace(s[0])
    ensures LStrip(left + s) == s
  {
    if left == "" {
      assert left + s == s;
    } else {
      assert (left + s)[1..] == left[1..] + s;
      LStripLeaves(left[1..], s);
    }
  }

  lemma {:induction false} RStripLeaves(s: string, right: string)
    requires IsBlank(right) && s != "" && !IsSpace(s[|s| - 1])
    ensures RStrip(s + right) == s
    decreases |right|
  {
    if right == "" {
      assert s + right == s;
    } else {
      var init := right[..|right| - 1];
      assert (s + right)[..|s + right| - 1] == s + init;
      RStripLeaves(s, init);
    }
  }

  lemma {:induction false} LStripCuts(s: string) returns (left: string)
    ensures IsBlank(left) && s == left + LStrip(s)
  {
    if s != "" && IsSpace(s[0]) {
      var rest := LStripCuts(s[1..]);
      left := [s[0]] + rest;
      assert s == [s[0]] + s[1..];
    } else {
      left := "";
    }
  }

  lemma {:induction false} RStripCuts(s: string) returns (right: string)
    ensures IsBlank(right) && s == RStrip(s) + right
    decreases |s|
  {
    if s != "" && IsSpace(s[|s| - 1]) {
      var init := s[..|s| - 1];
      var rest := RStripCuts(init);
      right := rest + [s[|s| - 1]];
      assert s == init + [s[|s| - 1]];
    } else {
      right := "";
    }
  }

  lemma {:induction false} ColonFree(s: string) returns (rest: string)
    ensures ':' !in BeforeColon(s) && (AfterColon(s).None? <==> ':' !in s)
    ensures AfterColon(s).Some? ==>
              && ':' !in AfterColon(s).value && (rest == "" || rest[0] == ':')
              && s == BeforeColon(s) + ":" + AfterColon(s).value + rest
  {
    if s == "" {
      rest := "";
    } else if s[0] == ':' {
      rest := BeforeColonCuts(s[1..]);
      assert s == [s[0]] + s[1..] == "" + ":" + BeforeColon(s[1..]) + rest;
    } else {
      assert s == [s[0]] + s[1..];
      rest := ColonFree(s[1..]);
      if AfterColon(s).Some? {
        assert s == BeforeColon(s) + ":" + AfterColon(s).value + rest;
      }
    }
  }

  lemma {:induction false} BeforeColonCuts(s: string) returns (rest: string)
    ensures ':' !in BeforeColon(s) && (rest == "" || rest[0] == ':') && s == BeforeColon(s) + rest
  {
    if s == "" || s[0] == ':' {
      rest := s;
    } else {
      rest := BeforeColonCuts(s[1..]);
      assert s == [s[0]] + s[1..] == BeforeColon(s) + rest;
    }
  }

  lemma {:induction false} BeforeColonIs(t: string, rest: string)
    requires ':' !in t && (rest == "" || rest[0] == ':')
    ensures BeforeColon(t + rest) == t
  {
    if t == "" {
      assert t + rest == rest;
    } else {
      assert (t + rest)[1..] == t[1..] + rest && t == [t[0]] + t[1..];
      BeforeColonIs(t[1..], rest);
    }
  }

  lemma {:induction false} AfterColonIs(target: string, task: string, rest: string)
    requires ':' !in target && ':' !in task && (rest == "" || rest[0] == ':')
    ensures AfterColon(target + ":" + task + rest) == Some(task)
  {
    var s := target + ":" + task + rest;
    if target == "" {
      assert s[1..] == task + rest;
      BeforeColonIs(task, rest);
    } else {
      assert s[1..] == target[1..] + ":" + task + rest && target == [target[0]] + target[1..];
      AfterColonIs(target[1..], task, rest);
    }
  }

  /** The target and the task of a line are what stands in it. */
  lemma LineNames(line: string, target: string, task: string)
    ensures Names(line, target, task) <==> TaskOf(line) == Some(task) && PruneSigs.TargetOf(line) == target
  {
    hide AfterColon, BeforeColon, LStrip, RStrip, IsSpace;
    if Names(line, target, task) {
      var left, rest, right :| NamesAt(line, left, target, task, rest, right);
      var s := target + ":" + task + rest;
      assert (left + s)[|left + s| - 1] == s[|s| - 1];
      RStripLeaves(left + s, right);
      LStripLeaves(left, s);
      AfterColonIs(target, task, rest);
      assert s == target + (":" + task + rest);
      BeforeColonIs(target, ":" + task + rest);
    }
    if TaskOf(line) == Some(task) && PruneSigs.TargetOf(line) == target {
      var left, s, right := StripCuts(line);
      var rest := ColonFree(s);
      assert s == target + ":" + task + rest && s[|target|] == ':';
      assert NamesAt(line, left, target, task, rest, right);
    }
  }

  lemma StripCuts(line: string) returns (left: string, s: string, right: string)
    ensures IsBlank(left) && IsBlank(right) && line == left + s + right && s == LStrip(RStrip(line))
    ensures s != "" ==> NoBlankEnds(s)
  {
    hide IsBlank, IsSpace, LStrip, RStrip, NoBlankEnds;
    right := RStripCuts(line);
    left := LStripCuts(RStrip(line));
    s := LStrip(RStrip(line));
    StripEnds(line, left, s);
  }

  lemma StripEnds(line: string, left: string, s: string)
    requires RStrip(line) == left + s && s == LStrip(RStrip(line))
    ensures s != "" ==> NoBlankEnds(s)
  {
    hide IsSpace, LStrip, RStrip;
    var t := RStrip(line);
    assert s != "" ==> s[|s| - 1] == t[|t| - 1];
  }

  /** A line has no task exactly when it has no colon. */
  lemma NoTaskIff(line: string)
    ensures TaskOf(line).None? <==> ':' !in line
  {
    hide AfterColon, LStrip, RStrip;
    var left, s, right := StripCuts(line);
    var rest := ColonFree(s);
  }

  /** The usual line: spaces, a target, a task, a hash, and on to the next line. */
  lemma UsualLine(spaces: string, target: string, task: string, hash: string)
    requires IsBlank(spaces) && ':' !in target && ':' !in task && (target == "" || !IsSpace(target[0]))
    ensures var line := spaces + target + ":" + task + ":" + hash + " \\\n";
            IsValueLine(line) && Names(line, target, task)
  {
    var line := spaces + target + ":" + task + ":" + hash + " \\\n";
    var rest := ":" + hash + " \\";
    assert line == spaces + (target + ":" + task + rest) + "\n";
    assert line[|line| - 2..] == "\\\n";
    assert NamesAt(line, spaces, target, task, rest, "\n");
  }

  // ---------------------------------------------------------------------
  // Which lines are copied
  // ---------------------------------------------------------------------

  /** Main result: of the lines of a target and a task, those are copied that the extra
      file has in the section, that the main file has not, and whose task is asked for. */
  lemma CopiedForTasks(copyTasks: seq<string>, main: seq<string>, extra: seq<string>, t: string, line: string,
                       target: string, task: string)
    requires Distinct(Read(extra).order) && !MergeSigs(copyTasks, main, extra).failed
    requires Names(line, target, task)
    ensures line in At(MergeSigs(copyTasks, main, extra).tocopy, t)
            <==> && line in At(Read(extra).get, t) && line !in At(Read(main).get, t)
                 && (copyTasks == [] || task in copyTasks)
  {
    hide Names, TaskOf, CopiedOf, MergeSigs, Read, NewLines, PruneSigs.TargetOf;
    LineNames(line, target, task);
    MergeIsUnion(copyTasks, main, extra);
    if t in Read(extra).get {
      var news := NewLines(At(Read(main).get, t), Read(extra).get[t]);
      CopiedMembers(copyTasks, news, line);
      NewMembers(At(Read(main).get, t), Read(extra).get[t], line);
    }
  }

  lemma {:induction false} CopiedKeepOrder(copyTasks: seq<string>, ls: seq<string>)
    requires Distinct(ls)
    ensures var c := CopiedOf(copyTasks, ls);
            && (forall x :: x in c ==> x in ls)
            && forall i, j :: 0 <= i < j < |c| ==> FirstIndex(ls, c[i]) < FirstIndex(ls, c[j])
    decreases |ls|
  {
    hide Copies;
    if ls == [] {
    } else {
      var init, last := ls[..|ls| - 1], ls[|ls| - 1];
      assert ls == init + [last];
      CopiedKeepOrder(copyTasks, init);
      var c, all := CopiedOf(copyTasks, init), CopiedOf(copyTasks, ls);
      forall x | x in c
        ensures FirstIndex(ls, x) == FirstIndex(init, x) < |init|
      {
        FirstIndexInFront(ls, |init|, x);
      }
      FirstIndexUnique(ls, last, |init|);
      assert forall i :: 0 <= i < |c| ==> all[i] == c[i] && c[i] in c;
    }
  }

  /** The lines that are copied come once each, in the order of the extra file. */
  lemma CopiedInOrder(copyTasks: seq<string>, main: seq<string>, extra: seq<string>, t: string)
    requires Distinct(Read(extra).order) && !MergeSigs(copyTasks, main, extra).failed
    requires t in Read(extra).get
    ensures var c := At(MergeSigs(copyTasks, main, extra).tocopy, t);
            && (forall x :: x in c ==> x in Read(extra).get[t])
            && forall i, j :: 0 <= i < j < |c| ==>
                 FirstIndex(Read(extra).get[t], c[i]) < FirstIndex(Read(extra).get[t], c[j])
  {
    hide CopiedOf, MergeSigs, Read, NewLines;
    MergeIsUnion(copyTasks, main, extra);
    var base, ls := At(Read(main).get, t), Read(extra).get[t];
    var news := NewLines(base, ls);
    NewLinesInOrder(base, ls);
    CopiedKeepOrder(copyTasks, news);
    var c := CopiedOf(copyTasks, news);
    assert forall i :: 0 <= i < |c| ==> c[i] in c;
    forall i, j | 0 <= i < j < |c|
      ensures FirstIndex(ls, c[i]) < FirstIndex(ls, c[j])
    {
      var k, l := FirstIndex(news, c[i]), FirstIndex(news, c[j]);
      assert FirstIndex(ls, news[k]) < FirstIndex(ls, news[l]);
    }
  }

  // ---------------------------------------------------------------------
  // Which lines stay
  // ---------------------------------------------------------------------

  lemma {:induction false} ContainsIff(s: string, part: string)
    ensures PruneSigs.Contains(s, part) <==> exists a, b :: s == a + part + b
  {
    if part <= s {
      assert s == "" + part + s[|part|..];
    } else {
      if s != "" {
        ContainsIff(s[1..], part);
        if a, b :| s[1..] == a + part + b {
          assert s == [s[0]] + s[1..] == ([s[0]] + a) + part + b;
        }
      }
      if a, b :| s == a + part + b {
        assert a == "" ==> s == part + b;
        assert s[1..] == a[1..] + part + b;
      }
    }
  }

  lemma {:induction false} KeptMembers(f: PruneSigs.Filter, ls: seq<string>, line: string)
    ensures line in PruneSigs.Kept(f, ls) <==> line in ls && PruneSigs.Keeps(f, line)
    decreases |ls|
  {
    hide PruneSigs.Keeps;
    if ls == [] {
    } else {
      assert ls == ls[..|ls| - 1] + [ls[|ls| - 1]];
      KeptMembers(f, ls[..|ls| - 1], line);
    }
  }

  /** Main result: of the lines of a target and a task, pruning leaves exactly those whose
      task and target are not excluded and, where only these are wanted, whose target has
      "nativesdk" somewhere in its name. */
  lemma StaysForNames(f: PruneSigs.Filter, lines: seq<string>, t: string, line: string, target: string, task: string)
    requires !PruneSigs.Prune(f, lines).failed && PruneSigs.OnlySections(lines) && Names(line, target, task)
    ensures line in At(Read(PruneSigs.Prune(f, lines).out).get, t)
            <==> && line in At(Read(lines).get, t) && task !in f.tasks && target !in f.targets
                 && (f.onlyNative ==> exists a, b :: target == a + "nativesdk" + b)
  {
    hide Names, TaskOf, PruneSigs.TargetOf, PruneSigs.Contains, PruneSigs.Kept, Read, PruneSigs.Prune;
    LineNames(line, target, task);
    ContainsIff(target, "nativesdk");
    PruneSigs.PrunedSections(f, lines);
    if t in Read(lines).get {
      KeptMembers(f, Read(lines).get[t], line);
    }
  }

  // ---------------------------------------------------------------------
  // When merging fails
  // ---------------------------------------------------------------------

  /** A line of the extra file that is new to its section and has no colon. */
  ghost predicate HasNamelessLine(main: Sigs, extra: Sigs) {
    exists t, line :: NamelessIn(main, extra, t, line)
  }

  ghost predicate NamelessIn(main: Sigs, extra: Sigs, t: string, line: string) {
    line in At(extra.get, t) && line !in At(main.get, t) && ':' !in line
  }

  /** Main result: merging fails exactly when a new line of the extra file has no colon,
      whichever tasks are asked for. */
  lemma {:induction false} MergeFailsIff(copyTasks: seq<string>, main: seq<string>, extra: seq<string>)
    requires Distinct(Read(extra).order)
    ensures MergeSigs(copyTasks, main, extra).failed <==> HasNamelessLine(Read(main), Read(extra))
    decreases |extra|
  {
    hide MergeLine, ReadLine, Distinct, NamelessIn, IsUnion;
    if extra == [] {
      NothingNameless(Read(main));
    } else {
      var init, line := extra[..|extra| - 1], extra[|extra| - 1];
      assert extra == init + [line];
      ReadSnoc(init, line);
      ReadGrows(extra, |init|);
      ReadValid(init);
      StepGrows(Read(init), line);
      MergeFailsIff(copyTasks, main, init);
      NamelessStep(Read(main), Read(init), line);
      FailedStays(copyTasks, MergeSigs(copyTasks, main, init), line);
      if !MergeSigs(copyTasks, main, init).failed {
        MergeIsUnion(copyTasks, main, init);
        FailingStep(copyTasks, Read(main), Read(init), MergeSigs(copyTasks, main, init), line);
      }
    }
  }

  lemma NothingNameless(main: Sigs)
    ensures !HasNamelessLine(main, NoSigs)
  {}

  lemma NamelessStep(main: Sigs, s: Sigs, line: string)
    requires ValidSigs(s) && (s.reading.None? && StartsSection(line) ==> TypeName(line) !in s.get)
    ensures HasNamelessLine(main, ReadLine(s, line)) <==>
            || HasNamelessLine(main, s)
            || (s.reading.Some? && IsValueLine(line) && line !in At(main.get, s.reading.value) && ':' !in line)
  {
    hide TypeName, StartsSection, IsValueLine;
    var r := ReadLine(s, line);
    if t, l :| NamelessIn(main, s, t, l) {
      assert NamelessIn(main, r, t, l);
    }
    if s.reading.Some? && IsValueLine(line) && line !in At(main.get, s.reading.value) && ':' !in line {
      assert NamelessIn(main, r, s.reading.value, line);
    }
    if t, l :| NamelessIn(main, r, t, l) {
      if !NamelessIn(main, s, t, l) {
        assert s.reading == Some(t) && IsValueLine(line) && l == line;
      }
    }
  }

  lemma FailingStep(copyTasks: seq<string>, main: Sigs, extra: Sigs, m: Merge, line: string)
    requires IsUnion(copyTasks, main, extra, m) && ValidSigs(extra) && Readable(m)
    requires !HasNamelessLine(main, extra)
    ensures MergeLine(copyTasks, m, line).failed
            <==> extra.reading.Some? && IsValueLine(line) && line !in At(main.get, extra.reading.value) && ':' !in line
  {
    hide TaskOf, IsValueLine, StartsSection, TypeName, Copies, NewLines, CopiedOf;
    NoTaskIff(line);
    if extra.reading.Some? {
      var t := extra.reading.value;
      NewMembers(At(main.get, t), At(extra.get, t), line);
      assert line in m.merged[t] <==> line in At(main.get, t) || line in At(extra.get, t);
      assert !NamelessIn(main, extra, t, line);
    }
  }

  // ---------------------------------------------------------------------
  // The line of types
  // ---------------------------------------------------------------------

  lemma {:induction false} WithSpacesJoins(names: seq<string>)
    ensures WithSpaces(names) == Join(names, ' ')
  {
    if |names| > 1 { WithSpacesJoins(names[1..]); }
  }

  /** The names on the line of types are read again by cutting at spaces. */
  lemma TypesReadBack(names: seq<string>)
    requires names != [] && forall n :: n in names ==> ' ' !in n
    ensures exists text :: TypesLine(names) == "SIGGEN_LOCKEDSIGS_TYPES = \"" + text + "\"\n"
                           && Split(text, ' ') == names
  {
    WithSpacesJoins(names);
    SplitOfJoin(names, ' ');
    assert TypesLine(names) == "SIGGEN_LOCKEDSIGS_TYPES = \"" + WithSpaces(names) + "\"\n";
  }
}
