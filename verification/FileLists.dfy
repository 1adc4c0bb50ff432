/** oe.buildhistory_analysis: listings of files and the dictionaries they become. */
module FileLists {
  import opened Counting
  import opened PyStrings

  /** What is raised when a line or an entry has too few fields. */
  datatype Result<+T> = Ok(value: T) | IndexError

  /** The fields kept of a line: permissions, owner, group, and a link's target. */
  type Fields = seq<string>

  /** A Python dictionary from paths: keys in insertion order. */
  datatype Dict = Dict(order: seq<string>, get: map<string, Fields>)

  ghost predicate ValidDict(d: Dict) {
    Distinct(d.order) && forall p :: p in d.order <==> p in d.get
  }

  /** Permissions are never empty, and there are at least three fields. */
  predicate ValidFields(f: Fields) {
    |f| >= 3 && f[0] != ""
  }

  ghost predicate Listing(d: Dict) {
    ValidDict(d) && forall p :: p in d.get ==> ValidFields(d.get[p])
  }

  /** The length of the first run of non-blank characters. */
  function WordLength(s: string): (n: nat)
    ensures n <= |s| && (s != "" && !IsSpace(s[0]) ==> n > 0)
  {
    if s == "" || IsSpace(s[0]) then 0 else 1 + WordLength(s[1..])
  }

  /** s.split(None, k). */
  function SplitWords(s: string, k: nat): (ws: seq<string>)
    ensures |ws| <= k + 1 && forall i :: 0 <= i < |ws| ==> ws[i] != ""
    decreases k
  {
    var t := LStrip(s);
    if t == "" then []
    else if k == 0 then [t]
    else [t[..WordLength(t)]] + SplitWords(t[WordLength(t)..], k - 1)
  }

  /** Where `pat` first starts in `s`, or past the end. */
  function Find(s: string, pat: string): (n: nat)
    ensures n <= |s| && (n < |s| ==> pat <= s[n..])
  {
    if s == "" || pat <= s then 0 else 1 + Find(s[1..], pat)
  }

  const ARROW := " -> "

  /** One line of a listing: its path and fields. */
  function ParseLine(line: string): (r: Result<(string, Fields)>)
    ensures r.Ok? ==> ValidFields(r.value.1) && |r.value.1| <= 4
  {
    var ws := SplitWords(line, 4);
    if |ws| < 5 then IndexError
    else
      var path := RStrip(LStrip(ws[4][1..]));
      var at := Find(path, ARROW);
      if at < |path| then
        var rest := path[at + |ARROW|..];
        Ok((path[..at], ws[..3] + [rest[..Find(rest, ARROW)]]))
      else Ok((path, ws[..3]))
  }

  function Insert(d: Dict, p: string, f: Fields): Dict {
    Dict(if p in d.get then d.order else d.order + [p], d.get[p := f])
  }

  function DictOf(lines: seq<string>): Result<Dict> {
    if lines == [] then Ok(Dict([], map[]))
    else
      match DictOf(lines[..|lines| - 1])
      case IndexError => IndexError
      case Ok(d) =>
        match ParseLine(lines[|lines| - 1])
        case IndexError => IndexError
        case Ok((p, f)) => Ok(Insert(d, p, f))
  }

  lemma {:induction false} FailedLineFails(lines: seq<string>, k: nat)
    requires k <= |lines| && DictOf(lines[..k]).IndexError?
    ensures DictOf(lines).IndexError?
    decreases |lines|
  {
    if k == |lines| {
      assert lines[..k] == lines;
    } else {
      assert lines[..|lines| - 1][..k] == lines[..k];
      FailedLineFails(lines[..|lines| - 1], k);
    }
  }

  method FileListToDict(lines: seq<string>) returns (r: Result<Dict>)
    ensures r == DictOf(lines)
    ensures r.Ok? ==> Listing(r.value)
  {
    var adict := Dict([], map[]);
    for i := 0 to |lines|
      invariant DictOf(lines[..i]) == Ok(adict) && Listing(adict)
    {
      assert lines[..i + 1][..i] == lines[..i];
      var parsed := ParseLine(lines[i]);
      match parsed
      case IndexError =>
        FailedLineFails(lines, i + 1);
        return IndexError;
      case Ok((p, f)) =>
        adict := Insert(adict, p, f);
    }
    assert lines[..|lines|] == lines;
    r := Ok(adict);
  }

  // ---------------------------------------------------------------------
  // Plain lines
  // ---------------------------------------------------------------------

  ghost predicate IsWord(w: string) {
    w != "" && forall c :: c in w ==> !IsSpace(c)
  }

  lemma {:induction false} WordLengthOf(w: string, rest: string)
    requires (forall c :: c in w ==> !IsSpace(c)) && (rest != "" ==> IsSpace(rest[0]))
    ensures WordLength(w + rest) == |w|
  {
    if w == "" {
      assert w + rest == rest;
    } else {
      assert w[0] in w && (w + rest)[1..] == w[1..] + rest;
      WordLengthOf(w[1..], rest);
    }
  }

  lemma FirstWord(w: string, rest: string, k: nat)
    requires IsWord(w) && k > 0
    ensures SplitWords(w + [' '] + rest, k) == [w] + SplitWords(rest, k - 1)
  {
    var s := w + [' '] + rest;
    assert s == w + ([' '] + rest) && w[0] in w;
    WordLengthOf(w, [' '] + rest);
    assert s[..|w|] == w && s[|w|..] == [' '] + rest && ([' '] + rest)[1..] == rest;
  }

  lemma {:induction false} NoSpaceNoArrow(s: string)
    requires forall c :: c in s ==> !IsSpace(c)
    ensures Find(s, ARROW) == |s|
  {
    if s == "" {
    } else {
      assert s[0] in s && ARROW[0] == ' ';
      NoSpaceNoArrow(s[1..]);
    }
  }

  lemma StripWord(w: string)
    requires forall c :: c in w ==> !IsSpace(c)
    ensures RStrip(LStrip(w)) == w
  {
    if w != "" { assert w[0] in w && w[|w| - 1] in w; }
  }

  /** A line of five words is an entry with the first three of them as its fields. */
  lemma PlainLine(perms: string, owner: string, group: string, size: string, path: string)
    requires IsWord(perms) && IsWord(owner) && IsWord(group) && IsWord(size) && IsWord(path)
    ensures ParseLine(perms + [' '] + (owner + [' '] + (group + [' '] + (size + [' '] + path))))
            == Ok((path[1..], [perms, owner, group]))
  {
    hide SplitWords, RStrip, LStrip, Find;
    FirstWord(size, path, 1);
    FirstWord(group, size + [' '] + path, 2);
    FirstWord(owner, group + [' '] + (size + [' '] + path), 3);
    FirstWord(perms, owner + [' '] + (group + [' '] + (size + [' '] + path)), 4);
    LastWord(path);
    var line := perms + [' '] + (owner + [' '] + (group + [' '] + (size + [' '] + path)));
    assert SplitWords(line, 4) == [perms, owner, group, size, path];
    assert [perms, owner, group, size, path][..3] == [perms, owner, group];
    assert forall c :: c in path[1..] ==> c in path;
    StripWord(path[1..]);
    NoSpaceNoArrow(path[1..]);
  }

  lemma LastWord(w: string)
    requires IsWord(w)
    ensures SplitWords(w, 0) == [w]
  {
    assert w[0] in w;
  }

  function FilterSeq<T(!new)>(keep: T -> bool, xs: seq<T>): (ys: seq<T>)
    ensures forall y :: y in ys <==> y in xs && keep(y)
  {
    if xs == [] then []
    else FilterSeq(keep, xs[..|xs| - 1]) + if keep(xs[|xs| - 1]) then [xs[|xs| - 1]] else []
  }

  lemma {:induction false} FilterDistinct<T(!new)>(keep: T -> bool, xs: seq<T>)
    requires Distinct(xs)
    ensures Distinct(FilterSeq(keep, xs))
    decreases |xs|
  {
    if xs == [] {
    } else {
      var init, last := xs[..|xs| - 1], xs[|xs| - 1];
      FilterDistinct(keep, init);
      assert last !in init;
    }
  }

  /** The paths only the second, or only the first, listing has, in its order. */
  function NewOnly(a: Dict, b: Dict): seq<string> {
    FilterSeq((p: string) => p !in a.get, b.order)
  }

  function OldOnly(a: Dict, b: Dict): seq<string> {
    FilterSeq((p: string) => p !in b.get, a.order)
  }
}
