/** rootfspostcommands.sort_passwd. Bytes are modelled as characters. */
module SortPasswd {
  import opened Counting
  import opened Options
  import opened Splitting
  import opened Sorting
  import opened TextLines

  type Ids = map<string, int>

  /** The text before the first colon. */
  function NameOf(line: string): (name: string)
    ensures ':' !in name
  {
    Split(line, ':')[0]
  }

  /** Sort keys: the numeric id of the name, then the whole line. */
  function IdOf(ids: Ids, line: string): int {
    if NameOf(line) in ids then ids[NameOf(line)] else 0
  }

  predicate KeyLeq(ids: Ids, a: string, b: string) {
    IdOf(ids, a) < IdOf(ids, b) || (IdOf(ids, a) == IdOf(ids, b) && LexLeq(a, b))
  }

  function ByKey(ids: Ids): (string, string) -> bool {
    (a, b) => KeyLeq(ids, a, b)
  }

  /** The id of one line: its third field, read by `toInt`, or what the mapping has.
      None is the exception raised for a malformed line or an unknown name. */
  function LineId(toInt: string -> Option<int>, mapping: Option<Ids>, line: string): Option<int> {
    if mapping.None? then
      var entries := Split(line, ':');
      if |entries| <= 2 then None else toInt(entries[2])
    else if NameOf(line) in mapping.value then Some(mapping.value[NameOf(line)])
    else None
  }

  /** The mapping a file gives; a repeated name keeps its last id. */
  function NewMapping(toInt: string -> Option<int>, mapping: Option<Ids>, lines: seq<string>): Option<Ids> {
    if lines == [] then Some(map[])
    else
      var line := lines[|lines| - 1];
      match NewMapping(toInt, mapping, lines[..|lines| - 1])
      case None => None
      case Some(ids) =>
        match LineId(toInt, mapping, line)
        case None => None
        case Some(id) => Some(ids[NameOf(line) := id])
  }

  function SortedLines(ids: Ids, lines: seq<string>): seq<string> {
    Sort(ByKey(ids), lines)
  }

  // ---------------------------------------------------------------------
  // The files under /etc
  // ---------------------------------------------------------------------

  /** A file sorted, with the mapping it gave; None leaves the file as it was. */
  function SortText(toInt: string -> Option<int>, mapping: Option<Ids>, text: string): Option<(string, Ids)> {
    match NewMapping(toInt, mapping, LinesOf(text))
    case None => None
    case Some(ids) => Some((Text(SortedLines(ids, LinesOf(text))), ids))
  }

  /** One main file and its shadow; the flag says that no exception was raised. */
  function SortPair(toInt: string -> Option<int>, files: map<string, string>, main: string,
                    shadow: string): (map<string, string>, bool) {
    var clean := files - {main + "-"};
    if main !in clean then (clean, true)
    else
      match SortText(toInt, None, clean[main])
      case None => (clean, false)
      case Some((text, ids)) =>
        var next := clean[main := text] - {shadow + "-"};
        if shadow !in next then (next, true)
        else
          match SortText(toInt, Some(ids), next[shadow])
          case None => (next, false)
          case Some((text2, _)) => (next[shadow := text2], true)
  }

  function SortAll(toInt: string -> Option<int>, files: map<string, string>): (map<string, string>, bool) {
    var (first, fine) := SortPair(toInt, files, "passwd", "shadow");
    if !fine then (first, false)
    else
      var (second, fine2) := SortPair(toInt, first, "group", "gshadow");
      if !fine2 then (second, false) else (second - {"subgid-"} - {"subuid-"}, true)
  }

  class Etc {
    var files: map<string, string>
    const toInt: string -> Option<int>

    constructor (files: map<string, string>, toInt: string -> Option<int>)
      ensures this.files == files && this.toInt == toInt
    {
      this.files, this.toInt := files, toInt;
    }

    method SortFile(filename: string, mapping: Option<Ids>) returns (r: Option<Ids>)
      requires filename in files
      modifies this
      ensures match SortText(toInt, mapping, old(files[filename]))
              case None => r.None? && files == old(files)
              case Some((text, ids)) => r == Some(ids) && files == old(files)[filename := text]
    {
      var lines := LinesOf(files[filename]);
      var newMapping: Ids := map[];
      for i := 0 to |lines|
        invariant files == old(files) && NewMapping(toInt, mapping, lines[..i]) == Some(newMapping)
      {
        var line := lines[i];
        assert lines[..i + 1][..i] == lines[..i];
        var entries := Split(line, ':');
        var name := entries[0];
        var id: int;
        if mapping.None? {
          var number: Option<int> := None;
          if |entries| > 2 {
            number := toInt(entries[2]);
          }
          if number.None? {
            MappingFails(toInt, mapping, lines, i + 1);
            return None;
          }
          id := number.value;
        } else {
          if name !in mapping.value {
            MappingFails(toInt, mapping, lines, i + 1);
            return None;
          }
          id := mapping.value[name];
        }
        newMapping := newMapping[name := id];
      }
      assert lines[..|lines|] == lines;
      lines := SortedLines(newMapping, lines);
      files := files[filename := Text(lines)];
      r := Some(newMapping);
    }

    method RemoveBackup(filename: string)
      modifies this
      ensures files == old(files) - {filename + "-"}
    {
      var backup := filename + "-";
      if backup in files {
        files := files - {backup};
      }
    }

    method SortMainAndShadow(main: string, shadow: string) returns (fine: bool)
      modifies this
      ensures (files, fine) == SortPair(toInt, old(files), main, shadow)
    {
      hide SortText;
      RemoveBackup(main);
      if main in files {
        var mapping := SortFile(main, None);
        if mapping.None? {
          return false;
        }
        RemoveBackup(shadow);
        if shadow in files {
          var again := SortFile(shadow, mapping);
          if again.None? {
            return false;
          }
        }
      }
      fine := true;
    }

    method SortPasswdFiles() returns (fine: bool)
      modifies this
      ensures (files, fine) == SortAll(toInt, old(files))
    {
      hide SortPair;
      fine := SortMainAndShadow("passwd", "shadow");
      if !fine {
        return;
      }
      fine := SortMainAndShadow("group", "gshadow");
      if !fine {
        return;
      }
      RemoveBackup("subgid");
      RemoveBackup("subuid");
      assert "subgid" + "-" == "subgid-" && "subuid" + "-" == "subuid-";
    }
  }

  lemma {:induction false} MappingFails(toInt: string -> Option<int>, mapping: Option<Ids>, lines: seq<string>, k: nat)
    requires k <= |lines| && NewMapping(toInt, mapping, lines[..k]).None?
    ensures NewMapping(toInt, mapping, lines).None?
    decreases |lines|
  {
    hide LineId;
    if k == |lines| {
      assert lines[..k] == lines;
    } else {
      assert lines[..|lines| - 1][..k] == lines[..k];
      MappingFails(toInt, mapping, lines[..|lines| - 1], k);
    }
  }

  // ---------------------------------------------------------------------
  // The same order in both files
  // ---------------------------------------------------------------------

  lemma ByKeyIsTotalOrder(ids: Ids)
    ensures TotalOrder(ByKey(ids))
  {
    hide NameOf, IdOf;
    LexIsTotalOrder();
    var leq := ByKey(ids);
    forall a, b
      ensures leq(a, b) || leq(b, a)
    {
      LexTotal(a, b);
    }
    forall a, b | leq(a, b) && leq(b, a)
      ensures a == b
    {
      LexAntisymmetric(a, b);
    }
    forall a, b, c | leq(a, b) && leq(b, c)
      ensures leq(a, c)
    {
      if LexLeq(a, b) && LexLeq(b, c) { LexTransitive(a, b, c); }
    }
  }

  lemma SortedLinesAreSorted(ids: Ids, lines: seq<string>)
    ensures Sorted(ByKey(ids), SortedLines(ids, lines)) && multiset(SortedLines(ids, lines)) == multiset(lines)
  {
    ByKeyIsTotalOrder(ids);
    SortSorts(ByKey(ids), lines);
    SortPermutes(ByKey(ids), lines);
  }

  ghost predicate DistinctNames(lines: seq<string>) {
    forall i, j :: 0 <= i < j < |lines| ==> NameOf(lines[i]) != NameOf(lines[j])
  }

  /** The name is followed by a colon. */
  predicate HasColon(line: string) {
    NameOf(line) + ":" <= line
  }

  /** Names of different users, each with its colon, are told apart inside the names:
      what follows does not matter. */
  lemma {:induction false} LexWithinNames(a: string, b: string, x: string, y: string)
    requires ':' !in a && ':' !in b && a != b
    ensures LexLeq(a + ":" + x, b + ":" + y) <==> LexLeq(a + ":", b + ":")
    decreases |a|
  {
    var s, t := a + ":" + x, b + ":" + y;
    if a != "" && b != "" && a[0] == b[0] {
      assert s[1..] == a[1..] + ":" + x && t[1..] == b[1..] + ":" + y;
      assert (a + ":")[1..] == a[1..] + ":" && (b + ":")[1..] == b[1..] + ":";
      assert a == [a[0]] + a[1..] && b == [b[0]] + b[1..];
      LexWithinNames(a[1..], b[1..], x, y);
    } else {
      assert a != "" ==> a[0] in a;
      assert b != "" ==> b[0] in b;
    }
  }

  lemma ColonLine(line: string) returns (x: string)
    requires HasColon(line)
    ensures line == NameOf(line) + ":" + x
  {
    x := line[|NameOf(line)| + 1..];
  }

  /** Lines of two users compare alike in any two files. */
  lemma TieBreakByName(p: string, q: string, s: string, t: string)
    requires HasColon(p) && HasColon(q) && HasColon(s) && HasColon(t)
    requires NameOf(p) == NameOf(s) && NameOf(q) == NameOf(t) && NameOf(p) != NameOf(q)
    ensures LexLeq(p, q) <==> LexLeq(s, t)
  {
    hide NameOf, LexLeq;
    var x := ColonLine(p);
    var y := ColonLine(q);
    var z := ColonLine(s);
    var w := ColonLine(t);
    LexWithinNames(NameOf(p), NameOf(q), x, y);
    LexWithinNames(NameOf(p), NameOf(q), z, w);
  }

  lemma {:induction false} MappingCovers(toInt: string -> Option<int>, mapping: Option<Ids>, lines: seq<string>)
    requires NewMapping(toInt, mapping, lines).Some?
    ensures forall l :: l in lines ==> NameOf(l) in NewMapping(toInt, mapping, lines).value
    ensures mapping.Some? ==> forall n :: n in NewMapping(toInt, mapping, lines).value ==>
              n in mapping.value && NewMapping(toInt, mapping, lines).value[n] == mapping.value[n]
    decreases |lines|
  {
    hide NameOf;
    if lines == [] {
    } else {
      assert lines == lines[..|lines| - 1] + [lines[|lines| - 1]];
      MappingCovers(toInt, mapping, lines[..|lines| - 1]);
    }
  }

  /** Users that are in both lists come in the same order. */
  ghost predicate SameOrderOfNames(ps: seq<string>, ss: seq<string>) {
    forall i, j, a, b | 0 <= i < j < |ps| && 0 <= a < |ss| && 0 <= b < |ss| ::
      NameOf(ps[i]) == NameOf(ss[a]) && NameOf(ps[j]) == NameOf(ss[b]) ==> a < b
  }

  lemma SameOrder(ids: Ids, shadowIds: Ids, p: string, q: string, s: string, t: string)
    requires HasColon(p) && HasColon(q) && HasColon(s) && HasColon(t)
    requires NameOf(p) == NameOf(s) && NameOf(q) == NameOf(t) && NameOf(p) != NameOf(q)
    requires NameOf(p) in ids && NameOf(q) in ids && NameOf(p) in shadowIds && NameOf(q) in shadowIds
    requires shadowIds[NameOf(p)] == ids[NameOf(p)] && shadowIds[NameOf(q)] == ids[NameOf(q)]
    ensures !(ByKey(ids)(p, q) && ByKey(shadowIds)(t, s))
  {
    hide NameOf, HasColon, LexLeq;
    TieBreakByName(p, q, s, t);
    if LexLeq(s, t) && LexLeq(t, s) {
      LexAntisymmetric(s, t);
    }
  }

  lemma Members(xs: seq<string>, ys: seq<string>)
    requires multiset(xs) == multiset(ys)
    ensures forall y :: y in ys ==> y in xs
  {
    forall y | y in ys
      ensures y in xs
    {
      assert y in multiset(ys);
    }
  }

  lemma InOrder(ids: Ids, shadowIds: Ids, ps: seq<string>, ss: seq<string>, i: nat, j: nat, a: nat, b: nat)
    requires Sorted(ByKey(ids), ps) && Sorted(ByKey(shadowIds), ss) && DistinctNames(ps)
    requires forall l :: l in ps + ss ==> HasColon(l)
    requires forall l :: l in ps ==> NameOf(l) in ids
    requires forall l :: l in ss ==> NameOf(l) in shadowIds
    requires forall n :: n in shadowIds ==> n in ids && shadowIds[n] == ids[n]
    requires i < j < |ps| && a < |ss| && b < |ss|
    requires NameOf(ps[i]) == NameOf(ss[a]) && NameOf(ps[j]) == NameOf(ss[b])
    ensures a < b
  {
    hide NameOf, HasColon, ByKey;
    assert ps[i] in ps + ss && ps[j] in ps + ss && ss[a] in ps + ss && ss[b] in ps + ss;
    assert ByKey(ids)(ps[i], ps[j]);
    assert b < a ==> ByKey(shadowIds)(ss[b], ss[a]);
    SameOrder(ids, shadowIds, ps[i], ps[j], ss[a], ss[b]);
  }

  lemma PermutedNames(xs: seq<string>, ys: seq<string>)
    requires multiset(xs) == multiset(ys) && DistinctNames(xs)
    ensures DistinctNames(ys) && forall y :: y in ys ==> y in xs
  {
    hide NameOf;
    forall y | y in ys
      ensures y in xs
    {
      assert y in multiset(ys);
    }
    NamesApart(xs);
    SmallerDistinct(xs, ys);
    forall i, j | 0 <= i < j < |ys|
      ensures NameOf(ys[i]) != NameOf(ys[j])
    {
      assert ys[i] in xs && ys[j] in xs;
      var k :| 0 <= k < |xs| && xs[k] == ys[i];
      var l :| 0 <= l < |xs| && xs[l] == ys[j];
    }
  }

  /** Main result: after sorting, the shadow file lists its users in the order of the
      main file, even where numeric ids collide, and both are permutations. */
  lemma ShadowFollowsPasswd(toInt: string -> Option<int>, passwd: seq<string>, shadow: seq<string>)
    requires NewMapping(toInt, None, passwd).Some?
    requires var ids := NewMapping(toInt, None, passwd).value;
             NewMapping(toInt, Some(ids), shadow).Some?
    requires DistinctNames(passwd)
    requires forall l :: l in passwd ==> HasColon(l)
    requires forall l :: l in shadow ==> HasColon(l)
    ensures var ids := NewMapping(toInt, None, passwd).value;
            var shadowIds := NewMapping(toInt, Some(ids), shadow).value;
            var ps, ss := SortedLines(ids, passwd), SortedLines(shadowIds, shadow);
            && multiset(ps) == multiset(passwd) && multiset(ss) == multiset(shadow)
            && SameOrderOfNames(ps, ss)
  {
    hide NameOf, HasColon, NewMapping, SortedLines, ByKey;
    var ids := NewMapping(toInt, None, passwd).value;
    var shadowIds := NewMapping(toInt, Some(ids), shadow).value;
    var ps, ss := SortedLines(ids, passwd), SortedLines(shadowIds, shadow);
    SortedLinesAreSorted(ids, passwd);
    SortedLinesAreSorted(shadowIds, shadow);
    MappingCovers(toInt, None, passwd);
    MappingCovers(toInt, Some(ids), shadow);
    PermutedNames(passwd, ps);
    forall i, j, a, b | 0 <= i < j < |ps| && 0 <= a < |ss| && 0 <= b < |ss|
                        && NameOf(ps[i]) == NameOf(ss[a]) && NameOf(ps[j]) == NameOf(ss[b])
      ensures a < b
    {
      Members(passwd, ps);
      Members(shadow, ss);
      InOrder(ids, shadowIds, ps, ss, i, j, a, b);
    }
  }

  lemma NamesApart(xs: seq<string>)
    requires DistinctNames(xs)
    ensures Distinct(xs)
  {
    hide NameOf;
    assert forall i, j :: 0 <= i < j < |xs| ==> NameOf(xs[i]) != NameOf(xs[j]);
  }

  /** A sorted file read again has exactly the sorted lines if and only if each of them
      but the last ends in a newline; else the line without one is glued to the next. */
  lemma SortedFileReadsBack(ids: Ids, text: string)
    ensures var out := SortedLines(ids, LinesOf(text)); LinesOf(Text(out)) == out <==> Terminated(out)
  {
    hide LinesOf, OneLine, Text, SortedLines, Terminated;
    SortedLinesAreSorted(ids, LinesOf(text));
    var out := SortedLines(ids, LinesOf(text));
    Members(LinesOf(text), out);
    LinesOfShape(text);
    LinesReadBackIff(out);
  }

  // ---------------------------------------------------------------------
  // The files that are left
  // ---------------------------------------------------------------------

  /** The sorted lines of a main file and of its shadow. */
  function SortedMain(toInt: string -> Option<int>, main: string): seq<string>
    requires NewMapping(toInt, None, LinesOf(main)).Some?
  {
    SortedLines(NewMapping(toInt, None, LinesOf(main)).value, LinesOf(main))
  }

  function SortedShadow(toInt: string -> Option<int>, main: string, shadow: string): seq<string>
    requires NewMapping(toInt, None, LinesOf(main)).Some?
    requires NewMapping(toInt, NewMapping(toInt, None, LinesOf(main)), LinesOf(shadow)).Some?
  {
    SortedLines(NewMapping(toInt, NewMapping(toInt, None, LinesOf(main)), LinesOf(shadow)).value, LinesOf(shadow))
  }

  /** Both texts, read again, hold the lines they held, with the users in one order. */
  ghost predicate Follows(main: string, shadow: string, newMain: string, newShadow: string) {
    && multiset(LinesOf(newMain)) == multiset(LinesOf(main))
    && multiset(LinesOf(newShadow)) == multiset(LinesOf(shadow))
    && SameOrderOfNames(LinesOf(newMain), LinesOf(newShadow))
  }

  ghost predicate WellFormed(main: string, shadow: string) {
    && DistinctNames(LinesOf(main))
    && (forall l :: l in LinesOf(main) ==> HasColon(l)) && (forall l :: l in LinesOf(shadow) ==> HasColon(l))
  }

  /** What one pair of files becomes. */
  lemma PairBecomes(toInt: string -> Option<int>, files: map<string, string>, main: string, shadow: string)
    requires main in files && shadow in files && SortPair(toInt, files, main, shadow).1
    requires main != shadow && main != shadow + "-" && shadow != main + "-" && main != main + "-"
             && shadow != shadow + "-"
    ensures NewMapping(toInt, None, LinesOf(files[main])).Some?
    ensures NewMapping(toInt, NewMapping(toInt, None, LinesOf(files[main])), LinesOf(files[shadow])).Some?
    ensures var out := SortPair(toInt, files, main, shadow).0;
            && main in out && out[main] == Text(SortedMain(toInt, files[main]))
            && shadow in out && out[shadow] == Text(SortedShadow(toInt, files[main], files[shadow]))
  {
    hide NewMapping, LinesOf, Text, SortedLines;
  }

  /** Other files than the pair and its backups are left alone. */
  lemma PairLeaves(toInt: string -> Option<int>, files: map<string, string>, main: string, shadow: string,
                   other: string)
    requires other !in {main, shadow, main + "-", shadow + "-"}
    ensures var out := SortPair(toInt, files, main, shadow).0;
            (other in out <==> other in files) && (other in files ==> out[other] == files[other])
  {
    hide SortText;
  }

  lemma PairFollows(toInt: string -> Option<int>, main: string, shadow: string)
    requires NewMapping(toInt, None, LinesOf(main)).Some?
    requires NewMapping(toInt, NewMapping(toInt, None, LinesOf(main)), LinesOf(shadow)).Some?
    requires WellFormed(main, shadow)
    requires Terminated(SortedMain(toInt, main)) && Terminated(SortedShadow(toInt, main, shadow))
    ensures Follows(main, shadow, Text(SortedMain(toInt, main)), Text(SortedShadow(toInt, main, shadow)))
  {
    hide NewMapping, LinesOf, Text, SortedLines, SameOrderOfNames, DistinctNames, HasColon, Terminated;
    var ids := NewMapping(toInt, None, LinesOf(main)).value;
    ShadowFollowsPasswd(toInt, LinesOf(main), LinesOf(shadow));
    SortedFileReadsBack(ids, main);
    SortedFileReadsBack(NewMapping(toInt, Some(ids), LinesOf(shadow)).value, shadow);
  }

  /** Main result: when sort_passwd ends without an exception, the shadow file it leaves
      lists its users in the order of the passwd file it leaves, unless a line without a
      newline is glued to the next; so do gshadow and group. */
  lemma FilesFollow(toInt: string -> Option<int>, files: map<string, string>, main: string, shadow: string)
    requires SortAll(toInt, files).1
    requires (main, shadow) in {("passwd", "shadow"), ("group", "gshadow")}
    requires main in files && shadow in files && WellFormed(files[main], files[shadow])
    ensures NewMapping(toInt, None, LinesOf(files[main])).Some?
    ensures NewMapping(toInt, NewMapping(toInt, None, LinesOf(files[main])), LinesOf(files[shadow])).Some?
    ensures var out := SortAll(toInt, files).0;
            && main in out && shadow in out
            && (Terminated(SortedMain(toInt, files[main]))
                && Terminated(SortedShadow(toInt, files[main], files[shadow]))
                ==> Follows(files[main], files[shadow], out[main], out[shadow]))
  {
    hide SortPair, SortedMain, SortedShadow, Terminated, Follows, LinesOf, NewMapping, WellFormed;
    FileNames();
    var first := SortPair(toInt, files, "passwd", "shadow").0;
    if main == "passwd" {
      PairBecomes(toInt, files, main, shadow);
      PairLeaves(toInt, first, "group", "gshadow", main);
      PairLeaves(toInt, first, "group", "gshadow", shadow);
    } else {
      PairLeaves(toInt, files, "passwd", "shadow", main);
      PairLeaves(toInt, files, "passwd", "shadow", shadow);
      PairBecomes(toInt, first, main, shadow);
    }
    if Terminated(SortedMain(toInt, files[main])) && Terminated(SortedShadow(toInt, files[main], files[shadow])) {
      PairFollows(toInt, files[main], files[shadow]);
    }
  }

  lemma FileNames()
    ensures "passwd" + "-" == "passwd-" && "shadow" + "-" == "shadow-" && "group" + "-" == "group-"
            && "gshadow" + "-" == "gshadow-"
    ensures |"passwd"| == 6 && |"shadow"| == 6 && |"group"| == 5 && |"gshadow"| == 7
    ensures |"passwd-"| == 7 && |"shadow-"| == 7 && |"group-"| == 6 && |"gshadow-"| == 8 && |"subgid-"| == 7
            && |"subuid-"| == 7
    ensures "passwd" != "shadow" && "gshadow" != "passwd-" && "gshadow" != "shadow-" && "gshadow" != "subgid-"
            && "gshadow" != "subuid-"
    ensures "passwd" != "group-" && "shadow" != "group-"
  {
    assert "passwd"[0] == 'p' && "shadow"[0] == 's' && "gshadow"[0] == 'g' && "group-"[0] == 'g';
    assert "passwd-"[0] == 'p' && "shadow-"[0] == 's' && "subgid-"[0] == 's' && "subuid-"[0] == 's';
  }
}
