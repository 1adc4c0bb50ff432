/** Texts and their lines: reading a file line by line, and writing lines back. */
module TextLines {

  /** The lines of a text, each with its newline. */
  function LinesOf(s: string): seq<string> {
    if s == "" then []
    else
      var rest := LinesOf(s[1..]);
      if s[0] == '\n' || rest == [] then [[s[0]]] + rest else [[s[0]] + rest[0]] + rest[1..]
  }

  function Text(lines: seq<string>): string {
    if lines == [] then "" else lines[0] + Text(lines[1..])
  }

  ghost predicate WholeLine(l: string) {
    l != "" && l[|l| - 1] == '\n' && forall i :: 0 <= i < |l| - 1 ==> l[i] != '\n'
  }

  lemma {:induction false} LineInFront(l: string, rest: string)
    requires WholeLine(l)
    ensures LinesOf(l + rest) == [l] + LinesOf(rest)
  {
    var s := l + rest;
    if |l| == 1 {
      assert s[1..] == rest && l == [s[0]];
    } else {
      assert s[1..] == l[1..] + rest;
      LineInFront(l[1..], rest);
      assert l == [l[0]] + l[1..];
    }
  }

  /** Writing lines one after the other and reading the text line by line gives the
      lines again. */
  lemma {:induction false} TextReadsBack(lines: seq<string>)
    requires forall l :: l in lines ==> WholeLine(l)
    ensures LinesOf(Text(lines)) == lines
  {
    if lines == [] {
    } else {
      assert lines[0] in lines && forall l :: l in lines[1..] ==> l in lines;
      TextReadsBack(lines[1..]);
      LineInFront(lines[0], Text(lines[1..]));
    }
  }

  /** A line as reading yields it: a newline at most at its end. */
  ghost predicate OneLine(l: string) {
    l != "" && forall i :: 0 <= i < |l| - 1 ==> l[i] != '\n'
  }

  lemma {:induction false} LinesOfShape(s: string)
    ensures forall l :: l in LinesOf(s) ==> OneLine(l)
  {
    if s == "" {
    } else {
      LinesOfShape(s[1..]);
      var rest := LinesOf(s[1..]);
      if s[0] != '\n' && rest != [] {
        assert rest[0] in rest && forall l :: l in rest[1..] ==> l in rest;
        assert OneLine([s[0]] + rest[0]);
      } else {
        assert OneLine([s[0]]);
      }
    }
  }

  // ---------------------------------------------------------------------
  // When lines read back
  // ---------------------------------------------------------------------

  /** Every line but the last ends in a newline. */
  ghost predicate Terminated(lines: seq<string>) {
    forall i :: 0 <= i < |lines| - 1 ==> lines[i] != "" && lines[i][|lines[i]| - 1] == '\n'
  }

  lemma {:induction false} OneLineReads(l: string)
    requires OneLine(l)
    ensures LinesOf(l) == [l]
  {
    if |l| == 1 {
      assert l[1..] == "" && l == [l[0]];
    } else {
      assert forall i :: 0 <= i < |l[1..]| - 1 ==> l[1..][i] == l[i + 1];
      OneLineReads(l[1..]);
      assert l == [l[0]] + l[1..];
    }
  }

  /** A line without a newline is glued to what follows. */
  lemma {:induction false} Glued(l: string, rest: string)
    requires l != "" && '\n' !in l && rest != ""
    ensures LinesOf(rest) != [] && LinesOf(l + rest) == [l + LinesOf(rest)[0]] + LinesOf(rest)[1..]
  {
    var s := l + rest;
    assert l[0] in l;
    if |l| == 1 {
      assert s[1..] == rest && l == [l[0]];
    } else {
      assert s[1..] == l[1..] + rest;
      Glued(l[1..], rest);
      var first, more := LinesOf(rest)[0], LinesOf(rest)[1..];
      assert [l[0]] + (l[1..] + first) == l + first by { assert l == [l[0]] + l[1..]; }
      assert ([l[1..] + first] + more)[1..] == more;
    }
  }

  /** Lines written one after the other are read again exactly when every one but the
      last ends in a newline. */
  lemma {:induction false} LinesReadBackIff(lines: seq<string>)
    requires forall l :: l in lines ==> OneLine(l)
    ensures LinesOf(Text(lines)) == lines <==> Terminated(lines)
  {
    if lines == [] {
    } else if |lines| == 1 {
      assert lines[0] in lines && lines[1..] == [] && lines[0] + "" == lines[0];
      OneLineReads(lines[0]);
    } else {
      hide LinesOf, Text;
      var l, rest := lines[0], lines[1..];
      assert l in lines && rest[0] in lines && forall x :: x in rest ==> x in lines;
      LinesReadBackIff(rest);
      TextOfSome(lines);
      TextOfSome(rest);
      TerminatedTail(lines);
      if l[|l| - 1] == '\n' {
        LineInFront(l, Text(rest));
        assert ([l] + LinesOf(Text(rest)))[1..] == LinesOf(Text(rest)) && lines == [l] + rest;
      } else {
        Glued(l, Text(rest));
        NonEmptyLines(Text(rest));
        assert |LinesOf(Text(lines))[0]| > |l|;
      }
    }
  }

  lemma TextOfSome(lines: seq<string>)
    requires lines != []
    ensures Text(lines) == lines[0] + Text(lines[1..])
    ensures lines[0] != "" ==> Text(lines) != ""
  {}

  lemma TerminatedTail(lines: seq<string>)
    requires |lines| > 1
    ensures Terminated(lines) <==> lines[0] != "" && lines[0][|lines[0]| - 1] == '\n' && Terminated(lines[1..])
  {
    assert forall i :: 0 <= i < |lines[1..]| - 1 ==> lines[1..][i] == lines[i + 1];
    assert forall i :: 0 < i < |lines| - 1 ==> lines[i] == lines[1..][i - 1];
  }

  lemma NonEmptyLines(s: string)
    requires s != "" && LinesOf(s) != []
    ensures LinesOf(s)[0] != ""
  {}
}
