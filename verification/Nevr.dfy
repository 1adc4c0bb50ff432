/** buildstats' recipe names: the "name-epoch_version-revision" text of a recipe and the
    two patterns that take it apart. */
module Nevr {
  import opened Options
  import opened PyStrings

  /** BSRecipe without its tasks. */
  datatype Recipe = Recipe(name: string, epoch: Option<string>, version: string, revision: string) {
    function Evr(): string {
      EpochVersion(epoch, version) + "-" + revision
    }

    function Nevr(): string {
      name + "-" + Evr()
    }
  }

  function EpochVersion(epoch: Option<string>, version: string): string {
    if epoch.None? then version else epoch.value + "_" + version
  }

  predicate HasSpace(s: string) {
    exists i :: 0 <= i < |s| && IsSpace(s[i])
  }

  predicate IsDigit(c: char) {
    '0' <= c <= '9'
  }

  predicate AllDigits(s: string) {
    forall i :: 0 <= i < |s| ==> IsDigit(s[i])
  }

  /** The version part of the two patterns: `[0-9]\S*` and `[^-]+`. */
  datatype Pattern = Numbered | Plain

  predicate GoodVersion(p: Pattern, v: string) {
    match p
    case Numbered => v != "" && IsDigit(v[0]) && !HasSpace(v)
    case Plain => v != "" && '-' !in v
  }

  /** `rest` begins with an epoch of `k` digits that leaves a version. */
  predicate EpochOf(p: Pattern, rest: string, k: nat) {
    1 <= k < |rest| && AllDigits(rest[..k]) && rest[k] == '_' && GoodVersion(p, rest[k + 1..])
  }

  /** `(([0-9]{1,5})_)?` and a version, for at most `k` digits: longer epochs first, none last. */
  function Tail(p: Pattern, rest: string, k: nat): Option<(Option<string>, string)> {
    if k == 0 then if GoodVersion(p, rest) then Some((None, rest)) else None
    else if EpochOf(p, rest, k) then Some((Some(rest[..k]), rest[k + 1..]))
    else Tail(p, rest, k - 1)
  }

  const MAX_EPOCH := 5

  /** `\S+-` and the tail: the name is as long as it can be, and ends before `i` at the latest. */
  function NameEnd(p: Pattern, s: string, i: nat): (r: Option<nat>)
    ensures r.Some? ==> 1 <= r.value < |s| && Tail(p, s[r.value + 1..], MAX_EPOCH).Some?
  {
    if i == 0 then None
    else if i < |s| && s[i] == '-' && !HasSpace(s[..i]) && Tail(p, s[i + 1..], MAX_EPOCH).Some? then Some(i)
    else NameEnd(p, s, i - 1)
  }

  /** `$` also stands before a final newline. */
  function Chomp(s: string): string {
    if s != "" && s[|s| - 1] == '\n' then s[..|s| - 1] else s
  }

  function Match(p: Pattern, s: string): Option<(string, Option<string>, string)> {
    match NameEnd(p, s, |s|)
    case None => None
    case Some(i) => var (epoch, version) := Tail(p, s[i + 1..], MAX_EPOCH).value; Some((s[..i], epoch, version))
  }

  /** Name, epoch and version; None is the exception of a text that matches neither pattern. */
  function SplitNev(s: string): Option<(string, Option<string>, string)> {
    var numbered := Match(Numbered, Chomp(s));
    if numbered.Some? then numbered else Match(Plain, s)
  }

  function LastDash(s: string, i: nat): (r: Option<nat>)
    requires i <= |s|
    ensures r.Some? ==> r.value < i && s[r.value] == '-' && forall j :: r.value < j < i ==> s[j] != '-'
    ensures r.None? ==> forall j :: 0 <= j < i ==> s[j] != '-'
  {
    if i == 0 then None else if s[i - 1] == '-' then Some(i - 1) else LastDash(s, i - 1)
  }

  function SplitNevr(nevr: string): Option<Recipe> {
    var at := LastDash(nevr, |nevr|);
    if at.None? then None
    else
      var nev := SplitNev(nevr[..at.value]);
      if nev.None? then None else Some(Recipe(nev.value.0, nev.value.1, nev.value.2, nevr[at.value + 1..]))
  }

  // ---------------------------------------------------------------------
  // The tail
  // ---------------------------------------------------------------------

  predicate GoodEpoch(epoch: Option<string>) {
    epoch.Some? ==> 1 <= |epoch.value| <= MAX_EPOCH && AllDigits(epoch.value)
  }

  /** A version that would be read as an epoch and a version. */
  ghost predicate LooksLikeEpoch(p: Pattern, rest: string) {
    exists k: nat :: k <= MAX_EPOCH && EpochOf(p, rest, k)
  }

  lemma DigitsBelow(rest: string, k: nat)
    requires k <= |rest| && AllDigits(rest[..k])
    ensures forall i :: 0 <= i < k ==> IsDigit(rest[i])
  {
    assert forall i :: 0 <= i < k ==> rest[i] == rest[..k][i];
  }

  /** The epoch ends at the first character that is no digit. */
  lemma OneEpoch(p: Pattern, q: Pattern, rest: string, k: nat, k2: nat)
    requires EpochOf(p, rest, k) && EpochOf(q, rest, k2)
    ensures k == k2
  {
    DigitsBelow(rest, k);
    DigitsBelow(rest, k2);
  }

  lemma {:induction false} TailEpoch(p: Pattern, rest: string, k: nat, m: nat)
    requires EpochOf(p, rest, k) && k <= m
    ensures Tail(p, rest, m) == Some((Some(rest[..k]), rest[k + 1..]))
  {
    if EpochOf(p, rest, m) {
      OneEpoch(p, p, rest, k, m);
    } else {
      TailEpoch(p, rest, k, m - 1);
    }
  }

  lemma {:induction false} TailNoEpoch(p: Pattern, rest: string, m: nat)
    requires forall k: nat :: k <= m ==> !EpochOf(p, rest, k)
    ensures Tail(p, rest, m) == if GoodVersion(p, rest) then Some((None, rest)) else None
  {
    if m == 0 {
    } else {
      assert !EpochOf(p, rest, m);
      TailNoEpoch(p, rest, m - 1);
    }
  }

  /** The tail of a printed epoch and version is read back exactly when both are good
      and a version on its own does not look like an epoch and a version. */
  lemma TailInverts(p: Pattern, epoch: Option<string>, version: string)
    ensures Tail(p, EpochVersion(epoch, version), MAX_EPOCH) == Some((epoch, version))
            <==> GoodEpoch(epoch) && GoodVersion(p, version) && (epoch.None? ==> !LooksLikeEpoch(p, version))
  {
    hide GoodVersion, Tail;
    var rest := EpochVersion(epoch, version);
    if k: nat :| k <= MAX_EPOCH && EpochOf(p, rest, k) {
      TailEpoch(p, rest, k, MAX_EPOCH);
      if epoch.Some? && GoodEpoch(epoch) && GoodVersion(p, version) {
        EpochReads(p, epoch.value, version);
        OneEpoch(p, p, rest, k, |epoch.value|);
      }
    } else {
      TailNoEpoch(p, rest, MAX_EPOCH);
      if epoch.Some? && GoodEpoch(epoch) && GoodVersion(p, version) {
        EpochReads(p, epoch.value, version);
      }
    }
  }

  lemma EpochReads(p: Pattern, epoch: string, version: string)
    requires GoodEpoch(Some(epoch)) && GoodVersion(p, version)
    ensures EpochOf(p, EpochVersion(Some(epoch), version), |epoch|)
    ensures EpochVersion(Some(epoch), version)[..|epoch|] == epoch
    ensures EpochVersion(Some(epoch), version)[|epoch| + 1..] == version
  {
    var rest := EpochVersion(Some(epoch), version);
    assert rest[..|epoch|] == epoch && rest[|epoch| + 1..] == version;
  }

  /** The first pattern takes any tail that starts with a digit and has no white space. */
  lemma NumberedTail(rest: string)
    ensures Tail(Numbered, rest, MAX_EPOCH).Some? <==> GoodVersion(Numbered, rest)
  {
    if k: nat :| k <= MAX_EPOCH && EpochOf(Numbered, rest, k) {
      TailEpoch(Numbered, rest, k, MAX_EPOCH);
      assert rest[..k][0] == rest[0];
      forall i | 0 <= i < |rest|
        ensures !IsSpace(rest[i])
      {
        if i < k {
          assert rest[..k][i] == rest[i];
        } else if i > k {
          assert rest[k + 1..][i - k - 1] == rest[i];
        }
      }
    } else {
      TailNoEpoch(Numbered, rest, MAX_EPOCH);
    }
  }

  /** The second pattern takes any tail without a dash. */
  lemma PlainTail(rest: string)
    ensures Tail(Plain, rest, MAX_EPOCH).Some? <==> GoodVersion(Plain, rest)
  {
    if k: nat :| k <= MAX_EPOCH && EpochOf(Plain, rest, k) {
      TailEpoch(Plain, rest, k, MAX_EPOCH);
      forall i | 0 <= i < |rest|
        ensures rest[i] != '-'
      {
        if i < k {
          assert rest[..k][i] == rest[i];
        } else if i > k {
          assert rest[k + 1..][i - k - 1] == rest[i];
        }
      }
    } else {
      TailNoEpoch(Plain, rest, MAX_EPOCH);
    }
  }

  // ---------------------------------------------------------------------
  // The dash
  // ---------------------------------------------------------------------

  /** A place where the pattern can split the text. */
  predicate CanSplit(p: Pattern, s: string, i: nat) {
    1 <= i < |s| && s[i] == '-' && !HasSpace(s[..i]) && GoodVersion(p, s[i + 1..])
  }

  lemma TailIff(p: Pattern, rest: string)
    ensures Tail(p, rest, MAX_EPOCH).Some? <==> GoodVersion(p, rest)
  {
    if p.Numbered? { NumberedTail(rest); } else { PlainTail(rest); }
  }

  /** The greedy name stops at the last place where the text can be split. */
  lemma {:induction false} NameEndIsLast(p: Pattern, s: string, i: nat)
    ensures var r := NameEnd(p, s, i);
            && (r.Some? ==> r.value <= i && CanSplit(p, s, r.value))
            && (r.Some? ==> forall k: nat :: r.value < k <= i ==> !CanSplit(p, s, k))
            && (r.None? ==> forall k: nat :: k <= i ==> !CanSplit(p, s, k))
  {
    hide HasSpace, Tail, GoodVersion;
    if i == 0 {
    } else {
      NameEndIsLast(p, s, i - 1);
      if i < |s| { TailIff(p, s[i + 1..]); }
    }
  }

  lemma MatchValue(p: Pattern, s: string, i: nat, t: (Option<string>, string))
    requires NameEnd(p, s, |s|) == Some(i) && Tail(p, s[i + 1..], MAX_EPOCH) == Some(t)
    ensures Match(p, s) == Some((s[..i], t.0, t.1))
  {}

  /** The pattern splits a text after `name` exactly when this is the last such place
      and the tail is read back. */
  lemma MatchIff(p: Pattern, name: string, epoch: Option<string>, version: string)
    ensures var s := name + "-" + EpochVersion(epoch, version);
            Match(p, s) == Some((name, epoch, version))
            <==> CanSplit(p, s, |name|) && (forall k: nat :: |name| < k <= |s| ==> !CanSplit(p, s, k))
                 && Tail(p, EpochVersion(epoch, version), MAX_EPOCH) == Some((epoch, version))
  {
    hide CanSplit, Tail, EpochVersion;
    var s := name + "-" + EpochVersion(epoch, version);
    assert s[|name| + 1..] == EpochVersion(epoch, version) && s[..|name|] == name;
    NameEndIsLast(p, s, |s|);
    var r := NameEnd(p, s, |s|);
    if r.Some? && s[..r.value] == name {
      assert |s[..r.value]| == r.value;
    }
    if CanSplit(p, s, |name|) && (forall k: nat :: |name| < k <= |s| ==> !CanSplit(p, s, k)) {
      assert r == Some(|name|);
      var t := Tail(p, s[|name| + 1..], MAX_EPOCH).value;
      MatchValue(p, s, |name|, t);
      assert t == (t.0, t.1);
    }
  }

  // ---------------------------------------------------------------------
  // Printing and splitting
  // ---------------------------------------------------------------------

  /** A dash from `i` on with a digit behind it. */
  predicate DashDigit(s: string, i: nat) {
    exists k: nat :: i <= k && k + 1 < |s| && s[k] == '-' && IsDigit(s[k + 1])
  }

  /** What a pattern can give back: the first pattern also takes versions with dashes,
      as long as no digit follows them. */
  ghost predicate Fits(p: Pattern, name: string, epoch: Option<string>, version: string) {
    && name != "" && !HasSpace(name)
    && GoodEpoch(epoch) && GoodVersion(p, version) && !DashDigit(version, 0)
    && (epoch.None? ==> !LooksLikeEpoch(p, version))
  }

  lemma SpacesOfParts(a: string, b: string)
    ensures HasSpace(a + b) <==> HasSpace(a) || HasSpace(b)
  {
    if i :| 0 <= i < |a| && IsSpace(a[i]) { assert (a + b)[i] == a[i]; }
    if i :| 0 <= i < |b| && IsSpace(b[i]) { assert (a + b)[|a| + i] == b[i]; }
  }

  /** Where the text is free of white space, the first pattern can split at every dash
      before a digit. */
  lemma SplitsAtDashDigit(s: string, k: nat)
    ensures CanSplit(Numbered, s, k) <==> !HasSpace(s) && 1 <= k && k + 1 < |s| && s[k] == '-' && IsDigit(s[k + 1])
  {
    hide HasSpace, IsSpace;
    if 1 <= k < |s| && s[k] == '-' {
      SpacesOfParts(s[..k], s[k..]);
      SpacesOfParts(s[k..k + 1], s[k + 1..]);
      assert s == s[..k] + s[k..] && s[k..] == s[k..k + 1] + s[k + 1..];
      assert s[k..k + 1] == "-";
      DashIsNoSpace();
    }
  }

  lemma DashIsNoSpace()
    ensures !HasSpace("-") && !HasSpace("_") && IsSpace('\n')
  {}

  /** The printed tail of fitting parts is itself good, and no later dash can be split at. */
  lemma PrintedTail(p: Pattern, epoch: Option<string>, version: string)
    requires GoodEpoch(epoch) && GoodVersion(p, version)
    ensures GoodVersion(p, EpochVersion(epoch, version))
    ensures DashDigit(EpochVersion(epoch, version), 0) <==> DashDigit(version, 0)
  {
    var rest := EpochVersion(epoch, version);
    if epoch.Some? {
      var e := epoch.value;
      assert rest[..|e|] == e && rest[|e|] == '_' && rest[|e| + 1..] == version;
      forall i | 0 <= i < |rest|
        ensures if i <= |e| then rest[i] != '-' && !IsSpace(rest[i]) else rest[i] == version[i - |e| - 1]
      {
        assert i < |e| ==> rest[i] == e[i];
      }
      if k: nat :| k + 1 < |version| && version[k] == '-' && IsDigit(version[k + 1]) {
        assert rest[k + |e| + 1] == '-' && rest[k + |e| + 2] == version[k + 1];
      }
    }
  }

  /** The pattern gives back exactly what fits. */
  lemma MatchIffFits(p: Pattern, name: string, epoch: Option<string>, version: string)
    ensures Match(p, name + "-" + EpochVersion(epoch, version)) == Some((name, epoch, version))
            <==> Fits(p, name, epoch, version)
  {
    hide EpochVersion, Tail, Match, HasSpace, IsSpace, LooksLikeEpoch;
    var rest := EpochVersion(epoch, version);
    var s := name + "-" + rest;
    MatchIff(p, name, epoch, version);
    TailInverts(p, epoch, version);
    assert s[..|name|] == name && s[|name| + 1..] == rest;
    if GoodEpoch(epoch) && GoodVersion(p, version) {
      PrintedTail(p, epoch, version);
      LaterSplits(p, name, rest);
    }
  }

  lemma LaterSplits(p: Pattern, name: string, rest: string)
    requires GoodVersion(p, rest)
    ensures name != "" && !HasSpace(name)
            ==> (DashDigit(rest, 0) <==> exists k: nat :: |name| < k && CanSplit(p, name + "-" + rest, k))
  {
    hide HasSpace, IsSpace;
    var s := name + "-" + rest;
    assert s[|name| + 1..] == rest;
    if p.Numbered? && name != "" && !HasSpace(name) {
      SpacesOfParts(name + "-", rest);
      SpacesOfParts(name, "-");
      DashIsNoSpace();
      if j: nat :| j + 1 < |rest| && rest[j] == '-' && IsDigit(rest[j + 1]) {
        SplitsAtDashDigit(s, |name| + 1 + j);
        assert CanSplit(p, s, |name| + 1 + j);
      }
      if k: nat :| |name| < k && CanSplit(p, s, k) {
        SplitsAtDashDigit(s, k);
        assert rest[k - |name| - 1] == '-' && rest[k - |name|] == s[k + 1];
      }
    } else if p.Plain? {
      forall k: nat | |name| < k
        ensures !CanSplit(p, s, k)
      {
        assert |name| < k < |s| ==> s[k] == rest[k - |name| - 1];
      }
    }
  }

  /** The first pattern takes the text. */
  ghost predicate Applies(s: string) {
    !HasSpace(s) && DashDigit(s, 1)
  }

  lemma AppliesIff(s: string)
    ensures Match(Numbered, s).Some? <==> Applies(s)
  {
    hide HasSpace, CanSplit, Tail;
    NameEndIsLast(Numbered, s, |s|);
    if k: nat :| 1 <= k && k + 1 < |s| && s[k] == '-' && IsDigit(s[k + 1]) {
      SplitsAtDashDigit(s, k);
    }
    var r := NameEnd(Numbered, s, |s|);
    if r.Some? { SplitsAtDashDigit(s, r.value); }
  }

  /** Name, epoch and version are given back exactly when they fit the first pattern, or
      fit the second and the first does not take their text. */
  lemma SplitNevIff(name: string, epoch: Option<string>, version: string)
    ensures var s := name + "-" + EpochVersion(epoch, version);
            SplitNev(s) == Some((name, epoch, version))
            <==> Fits(Numbered, name, epoch, version) || (!Applies(Chomp(s)) && Fits(Plain, name, epoch, version))
  {
    hide Match, HasSpace, IsSpace, DashDigit, EpochVersion, LooksLikeEpoch;
    var s := name + "-" + EpochVersion(epoch, version);
    AppliesIff(Chomp(s));
    AppliesIff(s);
    MatchIffFits(Numbered, name, epoch, version);
    MatchIffFits(Plain, name, epoch, version);
    ChompedHasSpace(s);
    var first := Match(Numbered, Chomp(s));
    if first.Some? { MatchPrints(Numbered, Chomp(s), first.value); }
  }

  lemma ChompedHasSpace(s: string)
    ensures Chomp(s) != s ==> HasSpace(s)
  {}

  lemma {:induction false} TailPrints(p: Pattern, rest: string, k: nat)
    ensures Tail(p, rest, k).Some? ==> EpochVersion(Tail(p, rest, k).value.0, Tail(p, rest, k).value.1) == rest
  {
    if k == 0 {
    } else {
      if EpochOf(p, rest, k) {
        assert rest == rest[..k] + "_" + rest[k + 1..];
      } else {
        TailPrints(p, rest, k - 1);
      }
    }
  }

  /** Printing what was split off gives the text again. */
  lemma MatchPrints(p: Pattern, s: string, m: (string, Option<string>, string))
    requires Match(p, s) == Some(m)
    ensures m.0 + "-" + EpochVersion(m.1, m.2) == s
  {
    hide Tail, EpochVersion, CanSplit;
    NameEndIsLast(p, s, |s|);
    var i := NameEnd(p, s, |s|).value;
    TailPrints(p, s[i + 1..], MAX_EPOCH);
    SplitsAt(p, s, i);
    assert s == s[..i] + "-" + s[i + 1..];
  }

  lemma SplitsAt(p: Pattern, s: string, i: nat)
    requires CanSplit(p, s, i)
    ensures i < |s| && s[i] == '-'
  {}

  lemma NevrText(name: string, ev: string, revision: string)
    ensures name + "-" + (ev + "-" + revision) == (name + "-" + ev) + "-" + revision
    ensures (name + "-" + ev + "\n") + "-" + revision == name + "-" + ev + "\n-" + revision
  {
    assert ["\n"[0]] + ["-"[0]] == "\n-";
  }

  lemma AtDash(text: string, i: nat)
    requires i < |text| && text[i] == '-'
    ensures text == text[..i] + "-" + text[i + 1..]
  {}

  lemma ChompCuts(s: string)
    ensures Chomp(s) == s || s == Chomp(s) + "\n"
  {}

  /** Main result: splitting the text of a recipe gives the recipe back exactly when its
      revision has no dash and its other parts fit. */
  lemma SplitInvertsNevr(r: Recipe)
    ensures SplitNevr(r.Nevr()) == Some(r)
            <==> '-' !in r.revision
                 && (|| Fits(Numbered, r.name, r.epoch, r.version)
                     || (&& !Applies(Chomp(r.name + "-" + EpochVersion(r.epoch, r.version)))
                         && Fits(Plain, r.name, r.epoch, r.version)))
  {
    hide SplitNev, Fits, EpochVersion, Applies, LastDash, Chomp;
    var nev := r.name + "-" + EpochVersion(r.epoch, r.version);
    var text := r.Nevr();
    NevrText(r.name, EpochVersion(r.epoch, r.version), r.revision);
    var at := LastDash(text, |text|);
    assert text[|nev|] == '-';
    SplitNevIff(r.name, r.epoch, r.version);
    if '-' in r.revision {
      NoDashLeft(text);
    } else {
      assert text[..|nev|] == nev && text[|nev| + 1..] == r.revision;
      LastDashIs(text, |nev|);
    }
  }

  lemma NoDashLeft(text: string)
    ensures SplitNevr(text).Some? ==> '-' !in SplitNevr(text).value.revision
  {
    hide SplitNev;
  }

  lemma LastDashIs(text: string, i: nat)
    requires i < |text| && text[i] == '-' && '-' !in text[i + 1..]
    ensures LastDash(text, |text|) == Some(i)
  {
    hide LastDash;
    var at := LastDash(text, |text|);
    forall j | i < j < |text|
      ensures text[j] in text[i + 1..]
    {
      assert text[i + 1..][j - i - 1] == text[j];
    }
  }

  /** Whatever text can be split, its parts print it again, but for a line feed that
      the first pattern leaves out before the last dash. */
  lemma SplitPrints(text: string)
    ensures var r := SplitNevr(text);
            r.Some? ==> '-' !in r.value.revision
                        && (|| text == r.value.Nevr()
                            || text == r.value.name + "-" + EpochVersion(r.value.epoch, r.value.version) + "\n-"
                              + r.value.revision)
  {
    hide Match, EpochVersion, Chomp, LastDash;
    NoDashLeft(text);
    var at := LastDash(text, |text|);
    if at.Some? {
      var nev := text[..at.value];
      AtDash(text, at.value);
      ChompCuts(nev);
      var first, second := Match(Numbered, Chomp(nev)), Match(Plain, nev);
      if first.Some? {
        MatchPrints(Numbered, Chomp(nev), first.value);
        NevrText(first.value.0, EpochVersion(first.value.1, first.value.2), text[at.value + 1..]);
      } else if second.Some? {
        MatchPrints(Plain, nev, second.value);
        NevrText(second.value.0, EpochVersion(second.value.1, second.value.2), text[at.value + 1..]);
      }
    }
  }

  /** A name without white space, an epoch of one to five digits or none, a version that
      starts with a digit, and no dash, underscore or white space in it: always given back. */
  lemma UsualRecipesSplit(r: Recipe)
    requires r.name != "" && !HasSpace(r.name) && GoodEpoch(r.epoch) && '-' !in r.revision
    requires r.version != "" && IsDigit(r.version[0]) && '-' !in r.version && '_' !in r.version && !HasSpace(r.version)
    ensures SplitNevr(r.Nevr()) == Some(r)
  {
    SplitInvertsNevr(r);
  }
}
