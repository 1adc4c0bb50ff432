/** oe.copy_buildsystem.prune_lockedsigs: value lines left out of a file. */
module PruneSigs {
  import opened LockedSigs
  import LockedSigsTheorems
  import opened PyStrings

  const PREFIX := "SIGGEN_LOCKEDSIGS"
  const NATIVESDK := "nativesdk"

  datatype Filter = Filter(tasks: seq<string>, targets: seq<string>, onlyNative: bool)

  predicate StartsValue(line: string) {
    PREFIX <= line
  }

  function TargetOf(line: string): string {
    BeforeColon(LStrip(RStrip(line)))
  }

  predicate Contains(s: string, part: string) {
    part <= s || (s != "" && Contains(s[1..], part))
  }

  /** A value line with a task; the filter lets it stay. */
  predicate Keeps(f: Filter, line: string) {
    TaskOf(line).Some? && TaskOf(line).value !in f.tasks && TargetOf(line) !in f.targets
    && (f.onlyNative ==> Contains(TargetOf(line), NATIVESDK))
  }

  /** The lines written, whether a value is being read, and the failure of a value line
      without a colon. */
  datatype Pruning = Pruning(out: seq<string>, inValue: bool, failed: bool)

  function PruneLine(f: Filter, p: Pruning, line: string): Pruning {
    if p.failed then p
    else if p.inValue then
      if !IsValueLine(line) then Pruning(p.out + [line], false, false)
      else if TaskOf(line).None? then p.(failed := true)
      else if Keeps(f, line) then p.(out := p.out + [line])
      else p
    else if StartsValue(line) then Pruning(p.out + [line], true, false)
    else p
  }

  function Prune(f: Filter, lines: seq<string>): Pruning {
    if lines == [] then Pruning([], false, false)
    else PruneLine(f, Prune(f, lines[..|lines| - 1]), lines[|lines| - 1])
  }

  /** The file after the loop, which is left where a line fails. */
  method PruneLockedSigs(excludedTasks: seq<string>, excludedTargets: seq<string>, lines: seq<string>, onlyNative: bool)
    returns (file: seq<string>, failed: bool)
    ensures var p := Prune(Filter(excludedTasks, excludedTargets, onlyNative), lines);
            file == p.out && failed == p.failed
  {
    ghost var f := Filter(excludedTasks, excludedTargets, onlyNative);
    file := [];
    var invalue := false;
    for i := 0 to |lines|
      invariant Prune(f, lines[..i]) == Pruning(file, invalue, false)
    {
      var line := lines[i];
      assert lines[..i + 1][..i] == lines[..i];
      if invalue {
        if IsValueLine(line) {
          var task := TaskOf(line);
          if task.None? {
            PruneFailureStays(f, lines, i + 1);
            return file, true;
          }
          if task.value !in excludedTasks && TargetOf(line) !in excludedTargets {
            if onlyNative {
              if Contains(TargetOf(line), NATIVESDK) {
                file := file + [line];
              }
            } else {
              file := file + [line];
            }
          }
        } else {
          file := file + [line];
          invalue := false;
        }
      } else if StartsValue(line) {
        invalue := true;
        file := file + [line];
      }
    }
    assert lines[..|lines|] == lines;
    failed := false;
  }

  lemma {:induction false} PruneFailureStays(f: Filter, lines: seq<string>, k: nat)
    requires k <= |lines| && Prune(f, lines[..k]).failed
    ensures Prune(f, lines) == Prune(f, lines[..k])
    decreases |lines|
  {
    if k == |lines| {
      assert lines[..k] == lines;
    } else {
      assert lines[..|lines| - 1][..k] == lines[..k];
      PruneFailureStays(f, lines[..|lines| - 1], k);
    }
  }

  // ---------------------------------------------------------------------
  // When it fails
  // ---------------------------------------------------------------------

  /** The next line is part of a value. */
  predicate InValue(lines: seq<string>) {
    lines != []
    && var last := lines[|lines| - 1];
       if InValue(lines[..|lines| - 1]) then IsValueLine(last) else StartsValue(last)
  }

  /** A value line without a colon. */
  ghost predicate HasBadLine(lines: seq<string>) {
    exists i :: 0 <= i < |lines| && InValue(lines[..i]) && IsValueLine(lines[i]) && TaskOf(lines[i]).None?
  }

  /** Pruning fails exactly when some value line has no colon, whatever is excluded. */
  lemma {:induction false} PruneFailsIff(f: Filter, lines: seq<string>)
    ensures Prune(f, lines).failed <==> HasBadLine(lines)
    ensures !HasBadLine(lines) ==> Prune(f, lines).inValue == InValue(lines)
  {
    hide IsValueLine, StartsValue, TaskOf, Keeps;
    if lines == [] {
    } else {
      var init := lines[..|lines| - 1];
      PruneFailsIff(f, init);
      BadLineSnoc(init, lines[|lines| - 1]);
      assert lines == init + [lines[|lines| - 1]];
    }
  }

  lemma BadLineSnoc(init: seq<string>, line: string)
    ensures HasBadLine(init + [line])
            <==> HasBadLine(init) || (InValue(init) && IsValueLine(line) && TaskOf(line).None?)
  {
    hide IsValueLine, StartsValue, TaskOf, InValue;
    var lines := init + [line];
    assert lines[..|init|] == init && lines[|init|] == line;
    assert forall i :: 0 <= i < |init| ==> lines[..i] == init[..i] && lines[i] == init[i];
  }

  // ---------------------------------------------------------------------
  // Pruning twice
  // ---------------------------------------------------------------------

  function Both(f: Filter, g: Filter): Filter {
    Filter(f.tasks + g.tasks, f.targets + g.targets, f.onlyNative || g.onlyNative)
  }

  lemma PruneSnoc(f: Filter, lines: seq<string>, line: string)
    ensures Prune(f, lines + [line]) == PruneLine(f, Prune(f, lines), line)
  {
    hide PruneLine;
    assert (lines + [line])[..|lines|] == lines;
  }

  /** Main result: pruning a pruned file is pruning with both exclusions at once. */
  lemma {:induction false} PruneTwice(f: Filter, g: Filter, lines: seq<string>)
    requires !Prune(f, lines).failed
    ensures Prune(g, Prune(f, lines).out) == Prune(Both(f, g), lines)
    ensures Prune(Both(f, g), lines).inValue == Prune(f, lines).inValue && !Prune(Both(f, g), lines).failed
  {
    if lines == [] {
    } else {
      hide PruneLine;
      var init, line := lines[..|lines| - 1], lines[|lines| - 1];
      var p := Prune(f, init);
      assert !p.failed by { FailedLineStays(f, p, line); }
      PruneTwice(f, g, init);
      PruneSnoc(g, p.out, line);
      LineTwice(f, g, p, Prune(g, p.out), line);
    }
  }

  lemma FailedLineStays(f: Filter, p: Pruning, line: string)
    ensures p.failed ==> PruneLine(f, p, line) == p
  {}

  /** One line, pruned twice. */
  lemma LineTwice(f: Filter, g: Filter, p: Pruning, q: Pruning, line: string)
    requires !PruneLine(f, p, line).failed && !p.failed && !q.failed && q.inValue == p.inValue
    ensures var next := PruneLine(Both(f, g), q, line);
            && next.inValue == PruneLine(f, p, line).inValue && !next.failed
            && (PruneLine(f, p, line).out != p.out ==> PruneLine(f, p, line).out == p.out + [line]
                                                       && next == PruneLine(g, q, line))
            && (PruneLine(f, p, line).out == p.out ==> next == q)
  {
    hide IsValueLine, StartsValue, TaskOf, Keeps;
    KeepsBoth(f, g, line);
    assert |p.out + [line]| != |p.out|;
  }

  lemma KeepsBoth(f: Filter, g: Filter, line: string)
    ensures Keeps(Both(f, g), line) <==> Keeps(f, line) && Keeps(g, line)
    ensures Keeps(f, line) ==> TaskOf(line).Some?
  {
    hide TaskOf, TargetOf, Contains;
  }

  lemma {:induction false} SameKeepsSamePruning(f: Filter, g: Filter, lines: seq<string>)
    requires forall line :: Keeps(f, line) <==> Keeps(g, line)
    ensures Prune(f, lines) == Prune(g, lines)
  {
    hide IsValueLine, StartsValue, TaskOf, Keeps;
    if lines == [] {
    } else {
      SameKeepsSamePruning(f, g, lines[..|lines| - 1]);
    }
  }

  /** Pruning again changes nothing, and two prunings can be exchanged. */
  lemma PruneAgain(f: Filter, g: Filter, lines: seq<string>)
    requires !Prune(f, lines).failed
    ensures Prune(f, Prune(f, lines).out).out == Prune(f, lines).out
    ensures !Prune(g, lines).failed
    ensures Prune(g, Prune(f, lines).out).out == Prune(f, Prune(g, lines).out).out
  {
    hide Prune, Keeps;
    PruneFailsIff(f, lines);
    PruneFailsIff(g, lines);
    PruneTwice(f, f, lines);
    PruneTwice(f, g, lines);
    PruneTwice(g, f, lines);
    forall line
      ensures Keeps(Both(f, f), line) <==> Keeps(f, line)
      ensures Keeps(Both(f, g), line) <==> Keeps(Both(g, f), line)
    {
      KeepsBoth(f, f, line);
      KeepsBoth(f, g, line);
      KeepsBoth(g, f, line);
    }
    SameKeepsSamePruning(Both(f, f), f, lines);
    SameKeepsSamePruning(Both(f, g), Both(g, f), lines);
  }

  // ---------------------------------------------------------------------
  // The sections of the pruned file
  // ---------------------------------------------------------------------

  function Kept(f: Filter, ls: seq<string>): seq<string> {
    if ls == [] then []
    else Kept(f, ls[..|ls| - 1]) + if Keeps(f, ls[|ls| - 1]) then [ls[|ls| - 1]] else []
  }

  /** Lines with the prefix start a section of a type. */
  ghost predicate OnlySections(lines: seq<string>) {
    forall l :: l in lines && StartsValue(l) ==> StartsSection(l)
  }

  function KeptOf(f: Filter, get: map<string, seq<string>>): map<string, seq<string>> {
    map u | u in get :: Kept(f, get[u])
  }

  ghost predicate SectionsKept(f: Filter, s: Sigs, t: Sigs) {
    t.order == s.order && t.reading == s.reading && t.get == KeptOf(f, s.get)
  }

  /** Main result: the pruned file has the same sections in the same order, each with the
      lines the filter keeps. */
  lemma {:induction false} PrunedSections(f: Filter, lines: seq<string>)
    requires !Prune(f, lines).failed && OnlySections(lines)
    ensures SectionsKept(f, Read(lines), Read(Prune(f, lines).out))
    ensures Prune(f, lines).inValue == Read(lines).reading.Some?
  {
    if lines != [] {
      hide IsValueLine, StartsValue, StartsSection, TaskOf, Keeps, TypeName, SectionsKept, ReadLine;
      var init, line := lines[..|lines| - 1], lines[|lines| - 1];
      assert line in lines && OnlySections(init);
      PrunedSections(f, init);
      assert lines == init + [line];
      ReadsOn(init, line);
      ReadsOn(Prune(f, init).out, line);
      SectionIsPrefixed(line);
      KeptStep(f, Read(init), Read(Prune(f, init).out), line);
      ReadingAfter(Read(init), line);
    } else {
      NothingRead();
    }
  }

  lemma NothingRead()
    ensures Read([]) == NoSigs
  {}

  lemma ReadsOn(lines: seq<string>, line: string)
    ensures Read(lines + [line]) == ReadLine(Read(lines), line)
  {
    hide ReadLine;
    assert (lines + [line])[..|lines|] == lines;
  }

  lemma SectionIsPrefixed(line: string)
    ensures StartsSection(line) ==> StartsValue(line)
  {
    assert PREFIX == SECTION_T[..|PREFIX|];
    assert SECTION_T <= line ==> line[..|PREFIX|] == PREFIX;
  }

  lemma ReadingAfter(s: Sigs, line: string)
    requires s.reading.Some? ==> s.reading.value in s.get
    ensures ReadLine(s, line).reading.Some? <==> if s.reading.Some? then IsValueLine(line) else StartsSection(line)
  {}

  /** One line of the file, kept or left out. */
  lemma KeptStep(f: Filter, s: Sigs, t: Sigs, line: string)
    requires SectionsKept(f, s, t) && (s.reading.Some? ==> s.reading.value in s.get)
    ensures s.reading.Some? && IsValueLine(line) && !Keeps(f, line) ==> SectionsKept(f, ReadLine(s, line), t)
    ensures !(s.reading.Some? && IsValueLine(line) && !Keeps(f, line))
            ==> SectionsKept(f, ReadLine(s, line), ReadLine(t, line))
    ensures s.reading.None? && !StartsSection(line) ==> ReadLine(s, line) == s && ReadLine(t, line) == t
  {
    hide IsValueLine, StartsSection, Keeps, TypeName, Kept, KeptOf;
    if s.reading.Some? {
      var u := s.reading.value;
      KeptSnoc(f, s.get[u], line);
      assert Kept(f, s.get[u]) + [] == Kept(f, s.get[u]);
      KeptUpdate(f, s.get, u, s.get[u] + [line]);
      KeptSame(f, s.get, u);
    } else if StartsSection(line) {
      KeptUpdate(f, s.get, TypeName(line), []);
      KeptNone(f);
    }
  }

  lemma KeptUpdate(f: Filter, get: map<string, seq<string>>, u: string, ls: seq<string>)
    ensures KeptOf(f, get[u := ls]) == KeptOf(f, get)[u := Kept(f, ls)]
  {
    hide Kept;
  }

  lemma KeptSame(f: Filter, get: map<string, seq<string>>, u: string)
    requires u in get
    ensures u in KeptOf(f, get) && KeptOf(f, get)[u] == Kept(f, get[u])
    ensures KeptOf(f, get)[u := Kept(f, get[u])] == KeptOf(f, get)
  {
    hide Kept;
  }

  lemma KeptNone(f: Filter)
    ensures Kept(f, []) == []
  {}

  lemma KeptSnoc(f: Filter, ls: seq<string>, line: string)
    ensures Kept(f, ls + [line]) == Kept(f, ls) + if Keeps(f, line) then [line] else []
  {
    hide Keeps;
    assert (ls + [line])[..|ls|] == ls;
  }

  /** A file as write_sigs_file ends it, with the line that lists the types: pruned, it
      still ends so, and its sections are the kept ones. */
  lemma PrunedFile(f: Filter, body: seq<string>, names: seq<string>)
    requires OnlySections(body) && Read(body).reading.None? && !Prune(f, body).failed
    ensures var p := Prune(f, body + [TypesLine(names)]);
            !p.failed && p.out == Prune(f, body).out + [TypesLine(names)]
            && SectionsKept(f, Read(body + [TypesLine(names)]), Read(p.out))
  {
    hide SectionsKept, TypesLine, Prune;
    PrunedSections(f, body);
    PruneSnoc(f, body, TypesLine(names));
    LockedSigsTheorems.TypesLineIsNoSection(names);
    TypesLineIsPrefixed(names);
    ReadsOn(body, TypesLine(names));
    ReadsOn(Prune(f, body).out, TypesLine(names));
    KeptStep(f, Read(body), Read(Prune(f, body).out), TypesLine(names));
  }

  lemma TypesLineIsPrefixed(names: seq<string>)
    ensures StartsValue(TypesLine(names))
  {
    assert PREFIX == SECTION[..|PREFIX|];
    assert TypesLine(names)[..|PREFIX|] == PREFIX;
  }
}
