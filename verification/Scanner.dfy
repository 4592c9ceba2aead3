/** Scanning a text for the first place where a pattern matches, and the texts a pattern with
    a fixed opening cannot start in. */
module Scanner {
  import opened Basics
  import opened Text

  /** p could start at position k of s, as far as s goes. */
  ghost predicate AgreesAt(s: string, k: nat, p: string) {
    forall i :: 0 <= i < |p| && k + i < |s| ==> s[k + i] == p[i]
  }

  /** p starts nowhere in s, whatever follows s. */
  ghost predicate Free(s: string, p: string) {
    forall k: nat :: k < |s| ==> !AgreesAt(s, k, p)
  }

  predicate Contains(s: string, p: string) {
    Cut(s, p).Some?
  }

  lemma FreeConcat(a: string, b: string, p: string)
    requires Free(a, p) && Free(b, p)
    ensures Free(a + b, p)
  {
    forall k: nat | k < |a + b| ensures !AgreesAt(a + b, k, p) {
      if AgreesAt(a + b, k, p) {
        if k < |a| { AgreesLeft(a, b, k, p); } else { AgreesRight(a, b, k - |a|, p); }
      }
    }
  }

  lemma AgreesLeft(a: string, b: string, k: nat, p: string)
    requires AgreesAt(a + b, k, p)
    ensures AgreesAt(a, k, p)
  {
    forall i | 0 <= i < |p| && k + i < |a| ensures a[k + i] == p[i] { assert (a + b)[k + i] == p[i]; }
  }

  lemma AgreesRight(a: string, b: string, k: nat, p: string)
    requires AgreesAt(a + b, |a| + k, p)
    ensures AgreesAt(b, k, p)
  {
    forall i | 0 <= i < |p| && k + i < |b| ensures b[k + i] == p[i] { assert (a + b)[|a| + k + i] == p[i]; }
  }

  lemma StartsMeansAgrees(s: string, t: string, k: nat, p: string)
    requires k < |s| && StartsWith((s + t)[k..], p)
    ensures AgreesAt(s, k, p)
  {
    forall i | 0 <= i < |p| && k + i < |s| ensures s[k + i] == p[i] {
      assert (s + t)[k..][..|p|][i] == p[i];
    }
  }

  /** A text without p, closed by a character that does not occur in p. */
  lemma FreeClosed(s: string, c: char, p: string)
    requires !Contains(s, p) && c !in p
    ensures Free(s + [c], p)
  {
    CutIsFirst(s, p);
    forall k: nat | k < |s + [c]| ensures !AgreesAt(s + [c], k, p) {
      if k + |p| <= |s| {
        AgreesMeansStarts(s, [c], k, p);
        if k == |s| { assert p == "" && s[k..] == ""; CutEmpty(s); }
      } else {
        AgreesThrough(s, c, k, p);
      }
    }
  }

  lemma AgreesThrough(s: string, c: char, k: nat, p: string)
    requires k <= |s| < k + |p|
    ensures AgreesAt(s + [c], k, p) ==> c in p
  {
    if AgreesAt(s + [c], k, p) {
      assert (s + [c])[k + (|s| - k)] == p[|s| - k];
    }
  }

  lemma CutEmpty(s: string)
    ensures Cut(s, "").Some?
  {}

  lemma AgreesMeansStarts(s: string, t: string, k: nat, p: string)
    requires k + |p| <= |s|
    ensures AgreesAt(s + t, k, p) ==> StartsWith(s[k..], p)
  {
    if AgreesAt(s + t, k, p) {
      forall i | 0 <= i < |p| ensures s[k..][..|p|][i] == p[i] { assert (s + t)[k + i] == p[i]; }
      assert s[k..][..|p|] == p;
    }
  }

  /** A longer pattern starts in fewer places. */
  lemma FreeNarrow(s: string, p: string, q: string)
    requires Free(s, p) && StartsWith(q, p)
    ensures Free(s, q)
  {
    forall k: nat | k < |s| ensures !AgreesAt(s, k, q) {
      if AgreesAt(s, k, q) {
        forall i | 0 <= i < |p| && k + i < |s| ensures s[k + i] == p[i] { assert q[i] == q[..|p|][i]; }
        assert AgreesAt(s, k, p);
      }
    }
  }

  lemma FreeLetters(s: string, p: string)
    requires p != "" && p[0] !in s
    ensures Free(s, p)
  {
    forall k: nat | k < |s| ensures !AgreesAt(s, k, p) {
      assert s[k + 0] in s;
    }
  }

  lemma CutFree(s: string, p: string, t: string)
    requires Free(s, p)
    ensures Cut(s + p + t, p) == Some((s, t))
  {
    forall k | 0 <= k < |s| ensures !StartsWith((s + p + t)[k..], p) {
      assert s + p + t == s + (p + t);
      if StartsWith((s + p + t)[k..], p) { StartsMeansAgrees(s, p + t, k, p); }
    }
    CutFirst(s, p, t);
  }

  lemma Regrouped(s: string, before: string, p: string, after: string)
    ensures s + before + p + after == s + (before + p + after)
  {
    Assoc(s, before, p);
    Assoc(s, before + p, after);
  }

  lemma NoneInFront(a: string, b: string, p: string)
    requires !Contains(a + b, p)
    ensures !Contains(a, p)
  {
    if Contains(a, p) { CutExtend(a, p, b); }
  }

  lemma DropFront(s: string, t: string, k: nat)
    requires |s| <= k <= |s| + |t|
    ensures (s + t)[k..] == t[k - |s|..]
  {}

  /** A text free of p in front of another one does not hide the first p there. */
  lemma CutSkip(s: string, t: string, p: string)
    requires Free(s, p) && Contains(t, p)
    ensures Cut(s + t, p) == Some((s + Cut(t, p).value.0, Cut(t, p).value.1))
  {
    var before, after := Cut(t, p).value.0, Cut(t, p).value.1;
    CutIsFirst(t, p);
    Regrouped(s, before, p, after);
    forall k | 0 <= k < |s + before| ensures !StartsWith((s + t)[k..], p) {
      if k >= |s| {
        DropFront(s, t, k);
      } else if StartsWith((s + t)[k..], p) {
        StartsMeansAgrees(s, t, k, p);
      }
    }
    CutFirst(s + before, p, after);
  }

  // ----- Scanning with a matcher -----

  /** What a matcher says about a text it matches at its front. */
  type Matcher<R> = string -> Option<R>

  /** The first position where m matches: the text before it and what m found there. */
  function Scan<R>(t: string, m: Matcher<R>): (r: Option<(string, R)>)
    ensures r.Some? ==> |r.value.0| <= |t| && t[..|r.value.0|] == r.value.0
                        && m(t[|r.value.0|..]) == Some(r.value.1)
    decreases |t|
  {
    match m(t)
    case Some(found) => assert t[0..] == t; Some(("", found))
    case None =>
      if t == "" then None
      else match Scan(t[1..], m)
        case None => None
        case Some((before, found)) =>
          assert t[|before| + 1..] == t[1..][|before|..];
          Some(([t[0]] + before, found))
  }

  ghost predicate Opens<R>(m: Matcher<R>, p: string) {
    p != "" && forall x :: m(x).Some? ==> StartsWith(x, p)
  }

  function Shift<R>(s: string, r: Option<(string, R)>): Option<(string, R)> {
    match r case None => None case Some((before, found)) => Some((s + before, found))
  }

  lemma {:induction false} ScanIsFirst<R>(t: string, m: Matcher<R>)
    ensures Scan(t, m).Some? ==> forall k :: 0 <= k < |Scan(t, m).value.0| ==> m(t[k..]).None?
    ensures Scan(t, m).None? ==> forall k :: 0 <= k <= |t| ==> m(t[k..]).None?
    decreases |t|
  {
    if m(t).None? && t != "" {
      ScanIsFirst(t[1..], m);
      var n := if Scan(t, m).None? then |t| + 1 else |Scan(t, m).value.0|;
      forall k | 0 <= k < n ensures m(t[k..]).None? {
        if k > 0 { assert t[k..] == t[1..][k - 1..]; } else { assert t[0..] == t; }
      }
    } else {
      assert t[0..] == t;
      forall k | 0 <= k <= |t| && t == "" ensures t[k..] == t {}
    }
  }

  lemma ScanStep<R>(c: char, t: string, m: Matcher<R>)
    requires m([c] + t).None?
    ensures Scan([c] + t, m) == Shift([c], Scan(t, m))
  {
    assert ([c] + t)[1..] == t;
  }

  /** A text at none of whose positions m matches is passed over. */
  lemma {:induction false} ScanPass<R>(s: string, t: string, m: Matcher<R>)
    requires forall k :: 0 <= k < |s| ==> m(s[k..] + t).None?
    ensures Scan(s + t, m) == Shift(s, Scan(t, m))
    decreases |s|
  {
    if s == "" {
      assert s + t == t && (Scan(t, m).Some? ==> s + Scan(t, m).value.0 == Scan(t, m).value.0);
    } else {
      assert s[0..] == s && s + t == [s[0]] + (s[1..] + t);
      forall k | 0 <= k < |s[1..]| ensures m(s[1..][k..] + t).None? { assert s[1..][k..] == s[k + 1..]; }
      ScanPass(s[1..], t, m);
      ScanStep(s[0], s[1..] + t, m);
      if Scan(t, m).Some? {
        assert [s[0]] + (s[1..] + Scan(t, m).value.0) == s + Scan(t, m).value.0;
      }
    }
  }

  /** A text free of the opening of m is passed over. */
  lemma ScanSkip<R>(s: string, t: string, m: Matcher<R>, p: string)
    requires Free(s, p) && Opens(m, p)
    ensures Scan(s + t, m) == Shift(s, Scan(t, m))
  {
    forall k | 0 <= k < |s| ensures m(s[k..] + t).None? {
      assert s[k..] + t == (s + t)[k..];
      if StartsWith((s + t)[k..], p) { StartsMeansAgrees(s, t, k, p); }
    }
    ScanPass(s, t, m);
  }

  lemma ShiftTwice<R>(a: string, b: string, r: Option<(string, R)>)
    ensures Shift(a, Shift(b, r)) == Shift(a + b, r)
  {
    if r.Some? { Assoc(a, b, r.value.0); }
  }

  /** Passing over a and then over b is passing over both. */
  lemma ScanTwice<R>(a: string, b: string, t: string, m: Matcher<R>)
    requires Scan(a + (b + t), m) == Shift(a, Scan(b + t, m)) && Scan(b + t, m) == Shift(b, Scan(t, m))
    ensures Scan(a + b + t, m) == Shift(a + b, Scan(t, m))
  {
    Assoc(a, b, t);
    ShiftTwice(a, b, Scan(t, m));
  }

  lemma ScanNothing<R>(s: string, m: Matcher<R>, p: string)
    requires Free(s, p) && Opens(m, p)
    ensures Scan(s, m) == None
  {
    ScanSkip(s, "", m, p);
    assert s + "" == s;
  }

  lemma ScanHere<R>(t: string, m: Matcher<R>)
    requires m(t).Some?
    ensures Scan(t, m) == Some(("", m(t).value))
  {}
}
