/** Lines of a listing with links, and what the dictionary of a listing holds. */
module ListedLines {
  import opened FileLists
  import opened PyStrings

  // ---------------------------------------------------------------------
  // One line
  // ---------------------------------------------------------------------

  lemma {:induction false} FindIs(s: string, pat: string, n: nat)
    requires pat != "" && n <= |s| && pat <= s[n..] && forall k :: 0 <= k < n ==> !(pat <= s[k..])
    ensures Find(s, pat) == n
  {
    assert s[0..] == s;
    if n > 0 {
      forall k | 0 <= k < n - 1
        ensures !(pat <= s[1..][k..])
      {
        assert s[1..][k..] == s[k + 1..];
      }
      assert s[1..][n - 1..] == s[n..];
      FindIs(s[1..], pat, n - 1);
    }
  }

  lemma {:induction false} FindNothing(s: string, pat: string)
    requires pat != "" && forall k :: 0 <= k <= |s| ==> !(pat <= s[k..])
    ensures Find(s, pat) == |s|
  {
    assert s[0..] == s;
    if s != "" {
      forall k | 0 <= k <= |s| - 1
        ensures !(pat <= s[1..][k..])
      {
        assert s[1..][k..] == s[k + 1..];
      }
      FindNothing(s[1..], pat);
    }
  }

  /** The arrow stands in the text between `path` and `target` and nowhere else. */
  ghost predicate OneArrow(path: string, target: string) {
    forall k :: 0 <= k <= |path + ARROW + target| && ARROW <= (path + ARROW + target)[k..] ==> k == |path|
  }

  lemma TailOf(a: string, b: string, k: nat)
    requires k <= |b|
    ensures (a + b)[|a| + k..] == b[k..]
  {}

  lemma FirstArrow(path: string, target: string)
    requires OneArrow(path, target)
    ensures Find(path + ARROW + target, ARROW) == |path|
  {
    hide Find;
    var s := path + ARROW + target;
    assert forall k :: 0 <= k < |path| ==> !(ARROW <= s[k..]);
    hide OneArrow;
    assert s == path + (ARROW + target);
    TailOf(path, ARROW + target, 0);
    assert s[|path|..] == ARROW + target;
    FindIs(s, ARROW, |path|);
  }

  lemma ArrowFound(path: string, target: string)
    requires OneArrow(path, target)
    ensures var s := path + ARROW + target;
            && Find(s, ARROW) == |path| && s[..|path|] == path && s[|path| + |ARROW|..] == target
            && Find(target, ARROW) == |target|
  {
    hide Find, OneArrow;
    FirstArrow(path, target);
    TailOf(path + ARROW, target, 0);
    TargetHasNoArrow(path, target);
    FindNothing(target, ARROW);
  }

  lemma TargetHasNoArrow(path: string, target: string)
    requires OneArrow(path, target)
    ensures forall k :: 0 <= k <= |target| ==> !(ARROW <= target[k..])
  {
    forall k | 0 <= k <= |target|
      ensures !(ARROW <= target[k..])
    {
      TailOf(path + ARROW, target, k);
    }
  }

  lemma NoBlankEndsStrip(s: string)
    requires s != "" && !IsSpace(s[0]) && !IsSpace(s[|s| - 1])
    ensures RStrip(LStrip(s)) == s
  {
    hide IsSpace;
    assert LStrip(s) == s && RStrip(s) == s;
  }

  /** A line of a link is an entry with the path before the arrow and, as a fourth field,
      the target behind it; spaces inside the two belong to them. */
  lemma LinkLine(perms: string, owner: string, group: string, size: string, path: string, target: string)
    requires IsWord(perms) && IsWord(owner) && IsWord(group) && IsWord(size)
    requires path != "" && !IsSpace(path[0]) && target != "" && !IsSpace(target[|target| - 1]) && OneArrow(path, target)
    ensures var entry := "." + path + ARROW + target;
            ParseLine(perms + [' '] + (owner + [' '] + (group + [' '] + (size + [' '] + entry))))
            == Ok((path, [perms, owner, group, target]))
  {
    hide SplitWords, RStrip, LStrip, Find, OneArrow, IsWord, IsSpace, ParseLine;
    var entry := "." + path + ARROW + target;
    FiveFields(perms, owner, group, size, entry);
    var text := path + ARROW + target;
    assert entry[1..] == text;
    assert text[0] == path[0] && text[|text| - 1] == target[|target| - 1];
    NoBlankEndsStrip(text);
    ArrowFound(path, target);
    LinkParsed(perms + [' '] + (owner + [' '] + (group + [' '] + (size + [' '] + entry))),
               [perms, owner, group, size, entry], text, path, target);
  }

  lemma LinkParsed(line: string, words: seq<string>, text: string, path: string, target: string)
    requires SplitWords(line, 4) == words && |words| == 5 && words[4] != ""
    requires RStrip(LStrip(words[4][1..])) == text && Find(text, ARROW) == |path| < |text| && text[..|path|] == path
    requires |path| + |ARROW| <= |text| && text[|path| + |ARROW|..] == target && Find(target, ARROW) == |target|
    ensures ParseLine(line) == Ok((path, [words[0], words[1], words[2], target]))
  {
    hide SplitWords, RStrip, LStrip, Find;
    assert target[..|target|] == target;
    assert words[..3] + [target] == [words[0], words[1], words[2], target];
  }

  lemma FiveFields(perms: string, owner: string, group: string, size: string, entry: string)
    requires IsWord(perms) && IsWord(owner) && IsWord(group) && IsWord(size) && "." <= entry
    ensures var line := perms + [' '] + (owner + [' '] + (group + [' '] + (size + [' '] + entry)));
            SplitWords(line, 4) == [perms, owner, group, size, entry]
  {
    hide SplitWords, IsWord;
    FirstWord(size, entry, 1);
    FirstWord(group, size + [' '] + entry, 2);
    FirstWord(owner, group + [' '] + (size + [' '] + entry), 3);
    FirstWord(perms, owner + [' '] + (group + [' '] + (size + [' '] + entry)), 4);
    LastField(entry);
  }

  lemma LastField(entry: string)
    requires "." <= entry
    ensures SplitWords(entry, 0) == [entry]
  {
    assert !IsSpace(entry[0]);
  }

  // ---------------------------------------------------------------------
  // The dictionary
  // ---------------------------------------------------------------------

  /** Line `i` is the last line of the path `p`, with the fields `f`. */
  ghost predicate LastOf(lines: seq<string>, i: nat, p: string, f: Fields) {
    && i < |lines| && ParseLine(lines[i]) == Ok((p, f))
    && forall j :: i < j < |lines| && ParseLine(lines[j]).Ok? ==> ParseLine(lines[j]).value.0 != p
  }

  ghost predicate HasLast(lines: seq<string>, p: string, f: Fields) {
    exists i: nat :: LastOf(lines, i, p, f)
  }

  /** A listing is read exactly when every line is, and a path has the fields of its
      last line. */
  lemma {:induction false} DictIsLastLines(lines: seq<string>)
    ensures DictOf(lines).Ok? <==> forall i :: 0 <= i < |lines| ==> ParseLine(lines[i]).Ok?
    ensures DictOf(lines).Ok? ==>
              forall p, f :: HasLast(lines, p, f) <==>
                             p in DictOf(lines).value.get && DictOf(lines).value.get[p] == f
    decreases |lines|
  {
    hide ParseLine, HasLast;
    if lines == [] {
      NoLastLine();
    } else {
      var init, last := lines[..|lines| - 1], lines[|lines| - 1];
      assert lines == init + [last] && forall i :: 0 <= i < |init| ==> lines[i] == init[i];
      DictIsLastLines(init);
      if DictOf(lines).Ok? {
        forall p: string, f: Fields
          ensures HasLast(lines, p, f) <==> if ParseLine(last).value.0 == p then ParseLine(last).value.1 == f
                                            else HasLast(init, p, f)
        {
          LastOfSnoc(init, last, p, f);
        }
      }
    }
  }

  lemma NoLastLine()
    ensures forall p, f :: !HasLast([], p, f)
  {}

  lemma LastOfSnoc(init: seq<string>, last: string, p: string, f: Fields)
    requires ParseLine(last).Ok?
    ensures HasLast(init + [last], p, f) <==>
            if ParseLine(last).value.0 == p then ParseLine(last).value.1 == f else HasLast(init, p, f)
  {
    hide ParseLine;
    var lines := init + [last];
    assert forall i :: 0 <= i < |init| ==> lines[i] == init[i];
    assert lines[|init|] == last;
    if HasLast(init, p, f) && ParseLine(last).value.0 != p {
      var i: nat :| LastOf(init, i, p, f);
      assert LastOf(lines, i, p, f);
    }
    if HasLast(lines, p, f) {
      var i: nat :| LastOf(lines, i, p, f);
      assert i < |init| ==> LastOf(init, i, p, f);
    }
    if ParseLine(last) == Ok((p, f)) {
      assert LastOf(lines, |init|, p, f);
    }
  }

  /** Line `i` is the first line of the path `p`. */
  ghost predicate FirstOf(lines: seq<string>, i: nat, p: string) {
    && i < |lines| && ParseLine(lines[i]).Ok? && ParseLine(lines[i]).value.0 == p
    && forall j :: 0 <= j < i && ParseLine(lines[j]).Ok? ==> ParseLine(lines[j]).value.0 != p
  }

  /** Some line has the path `p`. */
  ghost predicate HasPath(lines: seq<string>, p: string) {
    exists i :: 0 <= i < |lines| && ParseLine(lines[i]).Ok? && ParseLine(lines[i]).value.0 == p
  }

  /** Paths come in the order of their first lines. */
  lemma {:induction false} DictOrder(lines: seq<string>)
    requires DictOf(lines).Ok?
    ensures forall p :: p in DictOf(lines).value.order <==> HasPath(lines, p)
    ensures var order := DictOf(lines).value.order;
            forall a, b, i: nat, j: nat ::
              0 <= a < b < |order| && FirstOf(lines, i, order[a]) && FirstOf(lines, j, order[b]) ==> i < j
    decreases |lines|
  {
    hide ParseLine, HasPath, FirstOf;
    if lines == [] {
      NoPath();
    } else {
      var init, last := lines[..|lines| - 1], lines[|lines| - 1];
      assert lines == init + [last] && ParseLine(last).Ok?;
      FileListValid(init);
      DictOrder(init);
      PathSnoc(init, last);
      var before, order, q := DictOf(init).value.order, DictOf(lines).value.order, ParseLine(last).value.0;
      assert order == if q in before then before else before + [q];
      assert forall a :: 0 <= a < |before| ==> order[a] == before[a] && before[a] in before;
    }
  }

  lemma NoPath()
    ensures forall p :: !HasPath([], p)
  {}

  lemma PathSnoc(init: seq<string>, last: string)
    requires ParseLine(last).Ok?
    ensures forall p, i: nat :: FirstOf(init, i, p) ==> i < |init| && HasPath(init, p)
    ensures forall p :: HasPath(init + [last], p) <==> HasPath(init, p) || ParseLine(last).value.0 == p
    ensures forall p, i: nat :: FirstOf(init + [last], i, p) <==>
              FirstOf(init, i, p) || (i == |init| && ParseLine(last).value.0 == p && !HasPath(init, p))
  {
    hide ParseLine;
    var lines := init + [last];
    assert lines[|init|] == last && forall i :: 0 <= i < |init| ==> lines[i] == init[i];
  }

  lemma {:induction false} FileListValid(lines: seq<string>)
    ensures DictOf(lines).Ok? ==> ValidDict(DictOf(lines).value)
    decreases |lines|
  {
    hide ParseLine;
    if lines == [] {
    } else {
      FileListValid(lines[..|lines| - 1]);
    }
  }
}
