/** The texts inside a version: letters that count alike, and numbers by their digits. */
module VersionTexts {
  import opened Sorting
  import opened Versions

  /** The same letter, in lower or in upper case. */
  predicate SameLetter(c: char, d: char) {
    || c == d
    || ('a' <= c <= 'z' && d as int == c as int - 32)
    || ('a' <= d <= 'z' && c as int == d as int - 32)
  }

  /** Two patches count alike exactly when their letters do. */
  lemma UpperMeans(s: string, t: string)
    ensures Upper(s) == Upper(t) <==> |s| == |t| && forall i :: 0 <= i < |s| ==> SameLetter(s[i], t[i])
  {
    assert forall i :: 0 <= i < |s| ==> Upper(s)[i] == UpperChar(s[i]);
    assert forall i :: 0 <= i < |t| ==> Upper(t)[i] == UpperChar(t[i]);
    if Upper(s) == Upper(t) {
      assert |s| == |Upper(s)| == |Upper(t)| == |t|;
    }
  }

  /** Zeros in front of a number do not count. */
  lemma {:induction false} LeadingZero(s: string)
    requires AllDigits(s)
    ensures AllDigits("0" + s) && ToNat("0" + s) == ToNat(s)
    decreases |s|
  {
    var t := "0" + s;
    if s == "" {
      assert t[..|t| - 1] == "";
    } else {
      assert t[..|t| - 1] == "0" + s[..|s| - 1];
      LeadingZero(s[..|s| - 1]);
    }
  }

  /** Of two numbers with as many digits, the greater is the one that is greater at the
      first digit that differs. */
  lemma {:induction false} DigitsDecide(s: string, t: string)
    requires AllDigits(s) && AllDigits(t) && |s| == |t|
    ensures ToNat(s) <= ToNat(t) <==> Alphabetical(s, t)
    decreases |s|
  {
    if s == "" {
    } else {
      var n := |s| - 1;
      DigitsDecide(s[..n], t[..n]);
      DigitsDecide(t[..n], s[..n]);
      AlphabeticalSnoc(s, t, n);
      BothWays(s[..n], t[..n]);
    }
  }

  lemma BothWays(s: string, t: string)
    ensures Alphabetical(s, t) || Alphabetical(t, s)
    ensures Alphabetical(s, t) && Alphabetical(t, s) ==> s == t
  {
    LexIsAlphabetical(s, t);
    LexIsAlphabetical(t, s);
    LexTotal(s, t);
    if LexLeq(s, t) && LexLeq(t, s) { LexAntisymmetric(s, t); }
  }

  lemma AlphabeticalSnoc(s: string, t: string, n: nat)
    requires |s| == |t| == n + 1
    ensures Alphabetical(s, t) <==> if s[..n] == t[..n] then s[n] <= t[n] else Alphabetical(s[..n], t[..n])
  {
    var a, b := s[..n], t[..n];
    assert s == a + [s[n]] && t == b + [t[n]];
    assert s <= t <==> s == t;
    assert a <= b <==> a == b;
    if k: nat :| SmallerAt(s, t, k) {
      if k < n {
        assert a[..k] == s[..k] && b[..k] == t[..k] && SmallerAt(a, b, k);
      }
    }
    if k: nat :| SmallerAt(a, b, k) {
      assert s[..k] == a[..k] && t[..k] == b[..k] && SmallerAt(s, t, k);
    }
    if a == b && s[n] < t[n] {
      assert SmallerAt(s, t, n);
    }
  }
}
