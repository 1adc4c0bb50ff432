/** Replacing every occurrence of one text by another, from the left. */
module Replacing {

  function Replace<T(==)>(s: seq<T>, from: seq<T>, to: seq<T>): seq<T>
    requires from != []
    decreases |s|
  {
    if s == [] then []
    else if from <= s then to + Replace(s[|from|..], from, to)
    else [s[0]] + Replace(s[1..], from, to)
  }

  // ---------------------------------------------------------------------
  // What is replaced, said by the pieces in between
  // ---------------------------------------------------------------------

  function Glue<T>(parts: seq<seq<T>>, sep: seq<T>): seq<T> {
    if parts == [] then []
    else if |parts| == 1 then parts[0]
    else parts[0] + sep + Glue(parts[1..], sep)
  }

  /** `from` does not start within the first `n` places of `s`. */
  ghost predicate NoStart<T>(s: seq<T>, n: nat, from: seq<T>) {
    forall k :: 0 <= k < n && k <= |s| ==> !(from <= s[k..])
  }

  /** The pieces between the occurrences of `from`, each taken at its first place: in the
      text that a piece begins, `from` does not start before the piece ends. */
  ghost predicate Leftmost<T>(parts: seq<seq<T>>, from: seq<T>) {
    parts != [] && NoStart(Glue(parts, from), |parts[0]|, from) && (|parts| > 1 ==> Leftmost(parts[1..], from))
  }

  lemma {:induction false} ReplaceAfter<T>(p: seq<T>, rest: seq<T>, from: seq<T>, to: seq<T>)
    requires from != [] && NoStart(p + rest, |p|, from)
    ensures Replace(p + rest, from, to) == p + Replace(rest, from, to)
    decreases |p|
  {
    if p == [] {
      assert p + rest == rest && p + Replace(rest, from, to) == Replace(rest, from, to);
    } else {
      var s := p + rest;
      assert !(from <= s) by { assert s[0..] == s; }
      assert s[0] == p[0] && s[1..] == p[1..] + rest;
      forall k | 0 <= k < |p[1..]| && k <= |s[1..]|
        ensures !(from <= s[1..][k..])
      {
        assert s[1..][k..] == s[k + 1..];
      }
      ReplaceAfter(p[1..], rest, from, to);
      assert p == [p[0]] + p[1..];
    }
  }

  /** Replacing glues the pieces with the new text. */
  lemma {:induction false} ReplaceGlues<T>(parts: seq<seq<T>>, from: seq<T>, to: seq<T>)
    requires from != [] && Leftmost(parts, from)
    ensures Replace(Glue(parts, from), from, to) == Glue(parts, to)
    decreases |parts|
  {
    if |parts| == 1 {
      var p := parts[0];
      assert p + [] == p;
      ReplaceAfter(p, [], from, to);
    } else {
      var p, rest := parts[0], Glue(parts[1..], from);
      GlueOfTwo(parts, from);
      GlueOfTwo(parts, to);
      hide Glue, Replace;
      ReplaceAfter(p, from + rest, from, to);
      ReplaceFirst(rest, from, to);
      ReplaceGlues(parts[1..], from, to);
    }
  }

  lemma GlueOfTwo<T>(parts: seq<seq<T>>, sep: seq<T>)
    requires |parts| > 1
    ensures Glue(parts, sep) == parts[0] + (sep + Glue(parts[1..], sep))
  {}

  lemma ReplaceFirst<T>(rest: seq<T>, from: seq<T>, to: seq<T>)
    requires from != []
    ensures Replace(from + rest, from, to) == to + Replace(rest, from, to)
  {
    assert from <= from + rest && (from + rest)[|from|..] == rest;
  }

  /** Every text has such pieces. */
  lemma {:induction false} PiecesExist<T>(s: seq<T>, from: seq<T>) returns (parts: seq<seq<T>>)
    requires from != []
    ensures Leftmost(parts, from) && Glue(parts, from) == s
    decreases |s|
  {
    if s == [] {
      parts := [[]];
    } else if from <= s {
      var rest := PiecesExist(s[|from|..], from);
      parts := [[]] + rest;
      assert parts[1..] == rest && s == [] + from + s[|from|..];
    } else {
      var rest := PiecesExist(s[1..], from);
      parts := [[s[0]] + rest[0]] + rest[1..];
      LongerFirst(s[0], rest, from);
      assert s == [s[0]] + s[1..];
      forall k | 0 <= k < |parts[0]| && k <= |s|
        ensures !(from <= s[k..])
      {
        if k > 0 { assert s[k..] == s[1..][k - 1..]; } else { assert s[k..] == s; }
      }
    }
  }

  lemma LongerFirst<T>(x: T, parts: seq<seq<T>>, from: seq<T>)
    requires parts != []
    ensures Glue([[x] + parts[0]] + parts[1..], from) == [x] + Glue(parts, from)
  {
    var longer := [[x] + parts[0]] + parts[1..];
    assert longer[1..] == parts[1..];
    if |parts| > 1 {
      assert ([x] + parts[0]) + from + Glue(parts[1..], from) == [x] + (parts[0] + from + Glue(parts[1..], from));
    }
  }

  /** And only one way to have them. */
  lemma {:induction false} PiecesUnique<T>(parts: seq<seq<T>>, parts2: seq<seq<T>>, from: seq<T>)
    requires from != [] && Leftmost(parts, from) && Leftmost(parts2, from) && Glue(parts, from) == Glue(parts2, from)
    ensures parts == parts2
    decreases |parts|
  {
    var s := Glue(parts, from);
    FirstPiece(parts, from);
    FirstPiece(parts2, from);
    assert |parts[0]| == |parts2[0]|;
    assert parts[0] == s[..|parts[0]|] == parts2[0];
    if |parts| > 1 && |parts2| > 1 {
      var n := |parts[0]| + |from|;
      assert Glue(parts[1..], from) == s[n..] == Glue(parts2[1..], from);
      PiecesUnique(parts[1..], parts2[1..], from);
      assert parts == [parts[0]] + parts[1..] && parts2 == [parts2[0]] + parts2[1..];
    } else {
      assert |parts| == 1 && |parts2| == 1;
      assert parts == [parts[0]] && parts2 == [parts2[0]];
    }
  }

  /** The first piece ends where `from` starts first, or at the end of the text. */
  lemma FirstPiece<T>(parts: seq<seq<T>>, from: seq<T>)
    requires from != [] && Leftmost(parts, from)
    ensures var s, n := Glue(parts, from), |parts[0]|;
            n <= |s| && s[..n] == parts[0] && (|parts| > 1 <==> from <= s[n..]) && (|parts| == 1 ==> n == |s|)
  {
    var s, n := Glue(parts, from), |parts[0]|;
    if |parts| > 1 {
      assert s == parts[0] + (from + Glue(parts[1..], from));
      assert s[n..] == from + Glue(parts[1..], from);
    }
  }

  /** A text without `from` is left as it is. */
  lemma NothingToReplace<T>(s: seq<T>, from: seq<T>, to: seq<T>)
    requires from != [] && NoStart(s, |s|, from)
    ensures Replace(s, from, to) == s
  {
    assert s + [] == s;
    ReplaceAfter(s, [], from, to);
  }
}
