/** Exactly which lines of a locked signatures file pruning leaves. */
module PrunedLines {
  import opened Counting
  import opened LockedSigs
  import opened Options
  import opened PruneSigs
  import opened SigLines

  /** Neither the task nor the target of the line is excluded, and the target is for
      nativesdk where only these are wanted. */
  ghost predicate Wanted(f: Filter, line: string) {
    exists target, task ::
      && Names(line, target, task) && task !in f.tasks && target !in f.targets
      && (f.onlyNative ==> exists a, b :: target == a + "nativesdk" + b)
  }

  lemma WantedIff(f: Filter, line: string)
    ensures Wanted(f, line) <==> Keeps(f, line)
  {
    hide Names, TaskOf, TargetOf, Contains;
    ContainsIff(TargetOf(line), "nativesdk");
    forall target, task
      ensures Names(line, target, task) <==> TaskOf(line) == Some(task) && TargetOf(line) == target
    {
      LineNames(line, target, task);
    }
    if Keeps(f, line) { assert Names(line, TargetOf(line), TaskOf(line).value); }
  }

  /** Inside a value, lines that go on stay if they are wanted, and the closing line
      stays; outside, only lines that start a value stay. */
  ghost predicate Stays(f: Filter, lines: seq<string>, i: nat)
    requires i < |lines|
  {
    if InValue(lines[..i]) then IsValueLine(lines[i]) ==> Wanted(f, lines[i]) else StartsValue(lines[i])
  }

  ghost predicate ListsStaying(f: Filter, lines: seq<string>, at: seq<nat>) {
    Places(at, |lines|) && forall i :: 0 <= i < |lines| ==> (Stays(f, lines, i) <==> i in at)
  }

  lemma StayingSnoc(f: Filter, lines: seq<string>, n: nat, at: seq<nat>)
    requires |lines| == n + 1 && ListsStaying(f, lines[..n], at)
    ensures Stays(f, lines, n) ==> ListsStaying(f, lines, at + [n])
    ensures !Stays(f, lines, n) ==> ListsStaying(f, lines, at)
  {
    hide Wanted, InValue, IsValueLine, StartsValue;
    assert forall i :: 0 <= i < n ==> lines[..n][..i] == lines[..i] && lines[..n][i] == lines[i];
    assert forall i :: 0 <= i < n ==> (Stays(f, lines[..n], i) <==> Stays(f, lines, i));
  }

  /** Main result: the pruned file is the lines that stay, in order. */
  lemma {:induction false} PrunedPlaces(f: Filter, lines: seq<string>) returns (at: seq<nat>)
    requires !Prune(f, lines).failed
    ensures ListsStaying(f, lines, at) && Prune(f, lines).out == Picked(lines, at)
  {
    if lines == [] {
      at := [];
    } else {
      hide Wanted, IsValueLine, StartsValue, TaskOf, Keeps, Stays, InValue, ListsStaying;
      var n := |lines| - 1;
      PruneFailsIff(f, lines);
      PruneFailsIff(f, lines[..n]);
      PrefixIsFine(lines, n);
      var before := PrunedPlaces(f, lines[..n]);
      StayingSnoc(f, lines, n, before);
      PlacesOf(f, lines[..n], before);
      PickedSnoc(lines, n, before);
      LineStays(f, lines, n);
      at := if Stays(f, lines, n) then before + [n] else before;
    }
  }

  lemma PlacesOf(f: Filter, lines: seq<string>, at: seq<nat>)
    requires ListsStaying(f, lines, at)
    ensures Places(at, |lines|)
  {}

  lemma PrefixIsFine(lines: seq<string>, n: nat)
    requires n <= |lines| && !HasBadLine(lines)
    ensures !HasBadLine(lines[..n])
  {
    hide InValue, IsValueLine, TaskOf;
    assert forall i :: 0 <= i < n ==> lines[..n][..i] == lines[..i] && lines[..n][i] == lines[i];
  }

  lemma LineStays(f: Filter, lines: seq<string>, n: nat)
    requires |lines| == n + 1 && !HasBadLine(lines)
    ensures Prune(f, lines).out == Prune(f, lines[..n]).out + if Stays(f, lines, n) then [lines[n]] else []
  {
    hide TaskOf, IsValueLine, StartsValue, Wanted, Keeps, InValue;
    PrefixIsFine(lines, n);
    PruneFailsIff(f, lines[..n]);
    WantedIff(f, lines[n]);
    assert InValue(lines[..n]) && IsValueLine(lines[n]) ==> TaskOf(lines[n]).Some?;
  }
}
