/** The order of the lines in the files that sort_passwd leaves, said by the lines. */
module EtcOrder {
  import opened Options
  import opened Sorting
  import opened SortPasswd
  import opened Splitting
  import opened TextLines

  /** The number in the third colon field of a line. */
  function ThirdField(toInt: string -> Option<int>, line: string): Option<int> {
    if |Split(line, ':')| > 2 then toInt(Split(line, ':')[2]) else None
  }

  ghost predicate OneLinePerName(lines: seq<string>) {
    forall i, j :: 0 <= i < j < |lines| ==> Split(lines[i], ':')[0] != Split(lines[j], ':')[0]
  }

  /** A line `a` of the number `x` comes before a line `b` of the number `y`: the smaller
      number first, and of one number the lines in alphabetical order. */
  ghost predicate Precedes(x: Option<int>, a: string, y: Option<int>, b: string) {
    x.Some? && y.Some? && (x.value < y.value || (x == y && Alphabetical(a, b)))
  }

  ghost predicate ByThirdField(toInt: string -> Option<int>, lines: seq<string>) {
    forall i, j :: 0 <= i < j < |lines| ==>
      Precedes(ThirdField(toInt, lines[i]), lines[i], ThirdField(toInt, lines[j]), lines[j])
  }

  /** The same for lines without numbers, which take them from the main line of their name. */
  ghost predicate ByMainLine(toInt: string -> Option<int>, lines: seq<string>, main: seq<string>) {
    forall i, j, p, q :: 0 <= i < j < |lines| && p in main && q in main
                         && Split(p, ':')[0] == Split(lines[i], ':')[0] && Split(q, ':')[0] == Split(lines[j], ':')[0]
                         ==>
      Precedes(ThirdField(toInt, p), lines[i], ThirdField(toInt, q), lines[j])
  }

  /** The first pass over a main file succeeds exactly when every line has a number. */
  lemma {:induction false} MainReadsIff(toInt: string -> Option<int>, lines: seq<string>)
    ensures NewMapping(toInt, None, lines).Some? <==> forall l :: l in lines ==> ThirdField(toInt, l).Some?
    decreases |lines|
  {
    if lines == [] {
    } else {
      var init, last := lines[..|lines| - 1], lines[|lines| - 1];
      assert lines == init + [last] && forall l :: l in lines <==> l in init || l == last;
      assert LineId(toInt, None, last) == ThirdField(toInt, last);
      hide LineId, ThirdField;
      MainReadsIff(toInt, init);
      if NewMapping(toInt, None, init).None? {
        var l :| l in init && ThirdField(toInt, l).None?;
        assert l in lines;
      }
    }
  }

  /** The pass over a shadow file succeeds exactly when the main file has all its names. */
  lemma {:induction false} ShadowReadsIff(toInt: string -> Option<int>, ids: Ids, lines: seq<string>)
    ensures NewMapping(toInt, Some(ids), lines).Some? <==> forall l :: l in lines ==> Split(l, ':')[0] in ids
    decreases |lines|
  {
    if lines == [] {
    } else {
      var init, last := lines[..|lines| - 1], lines[|lines| - 1];
      assert lines == init + [last] && forall l :: l in lines <==> l in init || l == last;
      assert LineId(toInt, Some(ids), last).Some? <==> Split(last, ':')[0] in ids;
      hide LineId;
      ShadowReadsIff(toInt, ids, init);
      if NewMapping(toInt, Some(ids), init).None? {
        var l :| l in init && Split(l, ':')[0] !in ids;
        assert l in lines;
      }
    }
  }

  /** The mapping of a main file has exactly its names; with one line for each name, it
      has the number of that line. */
  lemma {:induction false} MappingIs(toInt: string -> Option<int>, lines: seq<string>)
    requires NewMapping(toInt, None, lines).Some?
    ensures forall l :: l in lines ==> ThirdField(toInt, l).Some?
    ensures var ids := NewMapping(toInt, None, lines).value;
            && (forall n :: n in ids <==> exists l :: l in lines && Split(l, ':')[0] == n)
            && (OneLinePerName(lines) ==>
                  forall l :: l in lines ==> ids[Split(l, ':')[0]] == ThirdField(toInt, l).value)
    decreases |lines|
  {
    MainReadsIff(toInt, lines);
    if lines == [] {
    } else {
      var init, last := lines[..|lines| - 1], lines[|lines| - 1];
      assert lines == init + [last] && last in lines;
      MappingIs(toInt, init);
      var before, ids := NewMapping(toInt, None, init).value, NewMapping(toInt, None, lines).value;
      assert ids == before[Split(last, ':')[0] := ThirdField(toInt, last).value];
      forall n
        ensures n in ids <==> exists l :: l in lines && Split(l, ':')[0] == n
      {
        if n in before {
          var l :| l in init && Split(l, ':')[0] == n;
          assert l in lines;
        }
      }
      if OneLinePerName(lines) { assert OneLinePerName(init); }
    }
  }

  /** Main result: when sort_passwd ends without an exception, passwd and group are left
      with the lines they had, one line of each name given, by the number in the third
      field and then alphabetically. */
  lemma MainFileByNumber(toInt: string -> Option<int>, files: map<string, string>, main: string)
    requires SortAll(toInt, files).1 && main in {"passwd", "group"} && main in files
    requires OneLinePerName(LinesOf(files[main]))
    ensures forall l :: l in LinesOf(files[main]) ==> ThirdField(toInt, l).Some?
    ensures exists lines ::
              && multiset(lines) == multiset(LinesOf(files[main])) && main in SortAll(toInt, files).0
              && SortAll(toInt, files).0[main] == Text(lines)
              && ByThirdField(toInt, lines)
  {
    hide LinesOf, Text, NewMapping, SortedLines, ThirdField, ByThirdField, OneLinePerName, SortAll;
    var before := LinesOf(files[main]);
    MainFileBecomes(toInt, files, main);
    MappingIs(toInt, before);
    var ids := NewMapping(toInt, None, before).value;
    var lines := SortedLines(ids, before);
    SortedLinesAreSorted(ids, before);
    Members(before, lines);
    SortedByThirdField(toInt, before, lines, ids);
  }

  lemma SortedByThirdField(toInt: string -> Option<int>, before: seq<string>, lines: seq<string>, ids: Ids)
    requires forall l :: l in before ==> ThirdField(toInt, l).Some? && Split(l, ':')[0] in ids
    requires forall l :: l in before ==> ids[Split(l, ':')[0]] == ThirdField(toInt, l).value
    requires forall l :: l in lines ==> l in before
    requires Sorted(ByKey(ids), lines)
    ensures ByThirdField(toInt, lines)
  {
    hide LexLeq, Alphabetical, ThirdField;
    forall i, j | 0 <= i < j < |lines|
      ensures Precedes(ThirdField(toInt, lines[i]), lines[i], ThirdField(toInt, lines[j]), lines[j])
    {
      assert lines[i] in lines && lines[j] in lines;
      assert ByKey(ids)(lines[i], lines[j]);
      LexIsAlphabetical(lines[i], lines[j]);
    }
  }

  lemma MainFileBecomes(toInt: string -> Option<int>, files: map<string, string>, main: string)
    requires SortAll(toInt, files).1 && main in {"passwd", "group"} && main in files
    ensures NewMapping(toInt, None, LinesOf(files[main])).Some?
    ensures var out := SortAll(toInt, files).0;
            main in out && out[main] == Text(SortedMain(toInt, files[main]))
  {
    hide SortPair, SortedMain, LinesOf, NewMapping;
    FileNames();
    var first := SortPair(toInt, files, "passwd", "shadow").0;
    if main == "passwd" {
      PairMain(toInt, files, main, "shadow");
      PairLeaves(toInt, first, "group", "gshadow", main);
    } else {
      PairLeaves(toInt, files, "passwd", "shadow", main);
      PairMain(toInt, first, main, "gshadow");
    }
  }

  lemma PairMain(toInt: string -> Option<int>, files: map<string, string>, main: string, shadow: string)
    requires main in files && SortPair(toInt, files, main, shadow).1
    requires main != shadow && main != shadow + "-" && main != main + "-"
    ensures NewMapping(toInt, None, LinesOf(files[main])).Some?
    ensures var out := SortPair(toInt, files, main, shadow).0;
            main in out && out[main] == Text(SortedMain(toInt, files[main]))
  {
    hide NewMapping, LinesOf, Text, SortedLines;
  }

  /** Main result: a shadow file is left with the lines it had, by the numbers that the
      main file has for their names and then alphabetically. */
  lemma ShadowFileByNumber(toInt: string -> Option<int>, files: map<string, string>, main: string, shadow: string)
    requires SortAll(toInt, files).1 && (main, shadow) in {("passwd", "shadow"), ("group", "gshadow")}
    requires main in files && shadow in files && OneLinePerName(LinesOf(files[main]))
    ensures forall l :: l in LinesOf(files[main]) ==> ThirdField(toInt, l).Some?
    ensures exists lines ::
              && multiset(lines) == multiset(LinesOf(files[shadow])) && shadow in SortAll(toInt, files).0
              && SortAll(toInt, files).0[shadow] == Text(lines)
              && ByMainLine(toInt, lines, LinesOf(files[main]))
    ensures forall l :: l in LinesOf(files[shadow]) ==>
              exists p :: p in LinesOf(files[main]) && Split(p, ':')[0] == Split(l, ':')[0]
  {
    hide LinesOf, Text, NewMapping, SortedLines, ThirdField, ByMainLine, OneLinePerName, SortAll;
    var before, shadows := LinesOf(files[main]), LinesOf(files[shadow]);
    ShadowFileBecomes(toInt, files, main, shadow);
    MappingIs(toInt, before);
    var ids := NewMapping(toInt, None, before).value;
    ShadowReadsIff(toInt, ids, shadows);
    var shadowIds := NewMapping(toInt, Some(ids), shadows).value;
    MappingCovers(toInt, Some(ids), shadows);
    var lines := SortedLines(shadowIds, shadows);
    SortedLinesAreSorted(shadowIds, shadows);
    Members(shadows, lines);
    SortedByMainLine(toInt, before, lines, ids, shadowIds);
  }

  lemma SortedByMainLine(toInt: string -> Option<int>, main: seq<string>, lines: seq<string>, ids: Ids, shadowIds: Ids)
    requires forall l :: l in main ==> ThirdField(toInt, l).Some? && Split(l, ':')[0] in ids
    requires forall l :: l in main ==> ids[Split(l, ':')[0]] == ThirdField(toInt, l).value
    requires forall l :: l in lines ==> NameOf(l) in shadowIds
    requires forall n :: n in shadowIds ==> n in ids && shadowIds[n] == ids[n]
    requires Sorted(ByKey(shadowIds), lines)
    ensures ByMainLine(toInt, lines, main)
  {
    hide LexLeq, Alphabetical, ThirdField;
    forall i, j, p, q | 0 <= i < j < |lines| && p in main && q in main
                        && Split(p, ':')[0] == Split(lines[i], ':')[0] && Split(q, ':')[0] == Split(lines[j], ':')[0]
      ensures Precedes(ThirdField(toInt, p), lines[i], ThirdField(toInt, q), lines[j])
    {
      assert lines[i] in lines && lines[j] in lines;
      assert ByKey(shadowIds)(lines[i], lines[j]);
      LexIsAlphabetical(lines[i], lines[j]);
    }
  }

  lemma ShadowFileBecomes(toInt: string -> Option<int>, files: map<string, string>, main: string, shadow: string)
    requires SortAll(toInt, files).1 && (main, shadow) in {("passwd", "shadow"), ("group", "gshadow")}
    requires main in files && shadow in files
    ensures NewMapping(toInt, None, LinesOf(files[main])).Some?
    ensures NewMapping(toInt, NewMapping(toInt, None, LinesOf(files[main])), LinesOf(files[shadow])).Some?
    ensures var out := SortAll(toInt, files).0;
            shadow in out && out[shadow] == Text(SortedShadow(toInt, files[main], files[shadow]))
  {
    hide SortPair, SortedMain, SortedShadow, LinesOf, NewMapping;
    FileNames();
    var first := SortPair(toInt, files, "passwd", "shadow").0;
    if main == "passwd" {
      PairBecomes(toInt, files, main, shadow);
      PairLeaves(toInt, first, "group", "gshadow", shadow);
    } else {
      PairLeaves(toInt, files, "passwd", "shadow", main);
      PairLeaves(toInt, files, "passwd", "shadow", shadow);
      PairBecomes(toInt, first, main, shadow);
    }
  }

  /** A main file that is there has a number on every line, and names all the users of
      its shadow file, if that is there too. */
  ghost predicate Sortable(toInt: string -> Option<int>, files: map<string, string>, main: string, shadow: string) {
    main in files ==>
      && (forall l :: l in LinesOf(files[main]) ==> ThirdField(toInt, l).Some?)
      && (shadow in files ==>
            forall l :: l in LinesOf(files[shadow]) ==>
              exists p :: p in LinesOf(files[main]) && Split(p, ':')[0] == Split(l, ':')[0])
  }

  lemma PairSortsIff(toInt: string -> Option<int>, files: map<string, string>, main: string, shadow: string)
    requires main != shadow && main != shadow + "-" && shadow != main + "-" && main != main + "-"
             && shadow != shadow + "-"
    ensures SortPair(toInt, files, main, shadow).1 <==> Sortable(toInt, files, main, shadow)
  {
    hide LinesOf, Text, NewMapping, SortedLines, ThirdField;
    if main in files {
      var lines := LinesOf(files[main]);
      MainReadsIff(toInt, lines);
      if NewMapping(toInt, None, lines).Some? {
        MappingIs(toInt, lines);
        var ids := NewMapping(toInt, None, lines).value;
        if shadow in files {
          ShadowReadsIff(toInt, ids, LinesOf(files[shadow]));
        }
      }
    }
  }

  /** Main result: sort_passwd ends without an exception exactly when both pairs of files
      can be sorted. */
  lemma SortsIff(toInt: string -> Option<int>, files: map<string, string>)
    ensures SortAll(toInt, files).1
            <==> Sortable(toInt, files, "passwd", "shadow") && Sortable(toInt, files, "group", "gshadow")
  {
    hide SortPair, LinesOf, ThirdField;
    FileNames();
    var first := SortPair(toInt, files, "passwd", "shadow").0;
    PairSortsIff(toInt, files, "passwd", "shadow");
    PairSortsIff(toInt, first, "group", "gshadow");
    PairLeaves(toInt, files, "passwd", "shadow", "group");
    PairLeaves(toInt, files, "passwd", "shadow", "gshadow");
  }

  /** Backups are gone afterwards, and every other file is as it was. */
  lemma OthersStay(toInt: string -> Option<int>, files: map<string, string>, other: string)
    requires SortAll(toInt, files).1 && other !in {"passwd", "shadow", "group", "gshadow"}
    ensures var out := SortAll(toInt, files).0;
            && (other in {"passwd-", "group-", "subgid-", "subuid-"} ==> other !in out)
            && (other == "shadow-" ==> (other in out <==> other in files && "passwd" !in files))
            && (other == "gshadow-" ==> (other in out <==> other in files && "group" !in files))
            && (other !in {"passwd-", "group-", "shadow-", "gshadow-", "subgid-", "subuid-"} ==>
                  (other in out <==> other in files) && (other in out ==> out[other] == files[other]))
  {
    hide SortPair;
    FileNames();
    var first := SortPair(toInt, files, "passwd", "shadow").0;
    var second := SortPair(toInt, first, "group", "gshadow").0;
    PairBackups(toInt, files, "passwd", "shadow");
    PairBackups(toInt, first, "group", "gshadow");
    if other !in {"passwd-", "shadow-"} { PairLeaves(toInt, files, "passwd", "shadow", other); }
    if other !in {"group-", "gshadow-"} { PairLeaves(toInt, first, "group", "gshadow", other); }
    PairLeaves(toInt, files, "passwd", "shadow", "group");
  }

  lemma PairBackups(toInt: string -> Option<int>, files: map<string, string>, main: string, shadow: string)
    requires SortPair(toInt, files, main, shadow).1
    requires main != shadow && main + "-" != shadow + "-" && main + "-" != shadow && main != shadow + "-"
             && main != main + "-" && shadow != shadow + "-"
    ensures var out := SortPair(toInt, files, main, shadow).0;
            && main + "-" !in out
            && (shadow + "-" in out <==> shadow + "-" in files && main !in files)
  {
    hide SortText;
  }
}
