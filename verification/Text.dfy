/** Strings read from the front: prefixes, first occurrences, stripping, lines. */
module Text {
  import opened Basics

  lemma Assoc(a: string, b: string, c: string)
    ensures a + b + c == a + (b + c)
  {}

  predicate StartsWith(t: string, p: string) {
    |p| <= |t| && t[..|p|] == p
  }

  /** p starts at none of the first n positions of t. */
  ghost predicate NoneBefore(t: string, n: nat, p: string)
    requires n <= |t|
  {
    forall k :: 0 <= k < n ==> !StartsWith(t[k..], p)
  }

  /** What stands before and after the first occurrence of p. */
  function Cut(t: string, p: string): (r: Option<(string, string)>)
    ensures r.Some? ==> t == r.value.0 + p + r.value.1
  {
    if StartsWith(t, p) then Some(("", t[|p|..]))
    else if t == "" then None
    else match Cut(t[1..], p)
      case None => None
      case Some((before, after)) => Some(([t[0]] + before, after))
  }

  lemma {:induction false} CutFirst(before: string, p: string, after: string)
    requires NoneBefore(before + p + after, |before|, p)
    ensures Cut(before + p + after, p) == Some((before, after))
    decreases |before|
  {
    var t := before + p + after;
    if before == "" {
      assert t == p + after;
    } else {
      assert t[0..] == t && !StartsWith(t[0..], p);
      assert t[1..] == before[1..] + p + after;
      assert [t[0]] + before[1..] == before;
      forall k | 0 <= k < |before| - 1 ensures !StartsWith(t[1..][k..], p) { assert t[1..][k..] == t[k + 1..]; }
      CutFirst(before[1..], p, after);
    }
  }

  lemma {:induction false} CutIsFirst(t: string, p: string)
    ensures Cut(t, p).None? ==> NoneBefore(t, |t|, p)
    ensures Cut(t, p).Some? ==> NoneBefore(t, |Cut(t, p).value.0|, p)
    decreases |t|
  {
    if !StartsWith(t, p) && t != "" {
      CutIsFirst(t[1..], p);
      var n := if Cut(t, p).None? then |t| else |Cut(t, p).value.0|;
      forall k | 0 <= k < n ensures !StartsWith(t[k..], p) {
        if k > 0 { assert t[k..] == t[1..][k - 1..]; } else { assert t[0..] == t; }
      }
    }
  }

  lemma {:induction false} CutNone(t: string, p: string)
    requires p != "" && NoneBefore(t, |t|, p)
    ensures Cut(t, p) == None
    decreases |t|
  {
    if t != "" {
      assert t[0..] == t;
      forall k | 0 <= k < |t| - 1 ensures !StartsWith(t[1..][k..], p) { assert t[1..][k..] == t[k + 1..]; }
      CutNone(t[1..], p);
    }
  }

  /** The first occurrence stays where it is when more text follows. */
  lemma {:induction false} CutExtend(t: string, p: string, more: string)
    requires Cut(t, p).Some?
    ensures Cut(t + more, p) == Some((Cut(t, p).value.0, Cut(t, p).value.1 + more))
    decreases |t|
  {
    if StartsWith(t, p) {
      StartExtends(t, p, more);
    } else {
      assert t != "";
      CutExtend(t[1..], p, more);
      RestExtends(t, more);
      if StartsWith(t + more, p) {
        CutInside(t, p, more);
      }
    }
  }

  lemma StartExtends(t: string, p: string, more: string)
    requires StartsWith(t, p)
    ensures StartsWith(t + more, p) && (t + more)[|p|..] == t[|p|..] + more
  {
    assert (t + more)[..|p|] == t[..|p|];
  }

  lemma RestExtends(t: string, more: string)
    requires t != ""
    ensures (t + more)[0] == t[0] && (t + more)[1..] == t[1..] + more
  {}

  /** A string with an occurrence of p is at least as long as p, so p cannot begin at its
      front only thanks to text that follows. */
  lemma CutInside(t: string, p: string, more: string)
    requires Cut(t, p).Some? && StartsWith(t + more, p)
    ensures StartsWith(t, p)
  {
    assert |t| >= |p|;
    assert (t + more)[..|p|] == t[..|p|];
  }

  // ----- Stripping -----

  type CharClass = char -> bool

  function LStrip(t: string, blank: CharClass): string {
    if t != "" && blank(t[0]) then LStrip(t[1..], blank) else t
  }

  function RStrip(t: string, blank: CharClass): string {
    if t != "" && blank(t[|t| - 1]) then RStrip(t[..|t| - 1], blank) else t
  }

  function Strip(t: string, blank: CharClass): string {
    RStrip(LStrip(t, blank), blank)
  }

  /** Neither end is blank. */
  predicate Trimmed(t: string, blank: CharClass) {
    t == "" || (!blank(t[0]) && !blank(t[|t| - 1]))
  }

  lemma {:induction false} RStripShape(t: string, blank: CharClass) returns (tail: string)
    ensures t == RStrip(t, blank) + tail && forall c :: c in tail ==> blank(c)
    ensures RStrip(t, blank) == "" || !blank(RStrip(t, blank)[|RStrip(t, blank)| - 1])
    decreases |t|
  {
    if t != "" && blank(t[|t| - 1]) {
      tail := RStripShape(t[..|t| - 1], blank);
      tail := tail + [t[|t| - 1]];
    } else {
      tail := "";
    }
  }

  lemma {:induction false} LStripShape(t: string, blank: CharClass) returns (head: string)
    ensures t == head + LStrip(t, blank) && forall c :: c in head ==> blank(c)
    ensures LStrip(t, blank) == "" || !blank(LStrip(t, blank)[0])
    decreases |t|
  {
    if t != "" && blank(t[0]) {
      head := LStripShape(t[1..], blank);
      head := [t[0]] + head;
    } else {
      head := "";
    }
  }

  /** Stripping removes blanks from both ends and nothing else. */
  lemma StripShape(t: string, blank: CharClass) returns (head: string, tail: string)
    ensures t == head + Strip(t, blank) + tail && Trimmed(Strip(t, blank), blank)
    ensures forall c :: c in head + tail ==> blank(c)
  {
    head := LStripShape(t, blank);
    tail := RStripShape(LStrip(t, blank), blank);
  }

  lemma {:induction false} LStripBlanks(head: string, t: string, blank: CharClass)
    requires forall c :: c in head ==> blank(c)
    ensures LStrip(head + t, blank) == LStrip(t, blank)
    decreases |head|
  {
    if head == "" {
      assert head + t == t;
    } else {
      assert head[0] in head;
      assert (head + t)[1..] == head[1..] + t;
      LStripBlanks(head[1..], t, blank);
    }
  }

  lemma {:induction false} RStripBlanks(t: string, tail: string, blank: CharClass)
    requires forall c :: c in tail ==> blank(c)
    ensures RStrip(t + tail, blank) == RStrip(t, blank)
    decreases |tail|
  {
    if tail == "" {
      assert t + tail == t;
    } else {
      assert tail[|tail| - 1] in tail;
      assert (t + tail)[..|t + tail| - 1] == t + tail[..|tail| - 1];
      RStripBlanks(t, tail[..|tail| - 1], blank);
    }
  }

  /** Blanks around a trimmed text do not change what stripping gives. */
  lemma StripPadded(head: string, t: string, tail: string, blank: CharClass)
    requires Trimmed(t, blank)
    requires forall c :: c in head + tail ==> blank(c)
    ensures Strip(head + t + tail, blank) == t
  {
    assert forall c :: c in head ==> c in head + tail;
    assert forall c :: c in tail ==> c in head + tail;
    assert head + t + tail == head + (t + tail);
    LStripBlanks(head, t + tail, blank);
    if t == "" {
      assert t + tail == tail + "";
      LStripBlanks(tail, "", blank);
    } else {
      RStripBlanks(t, tail, blank);
    }
  }

  // ----- Lines -----

  /** split("\n") */
  function Lines(t: string): (r: seq<string>)
    ensures r != []
  {
    if t == "" then [""]
    else
      var rest := Lines(t[1..]);
      if t[0] == '\n' then [""] + rest else [[t[0]] + rest[0]] + rest[1..]
  }

  /** "\n".join */
  function Join(lines: seq<string>): string {
    if lines == [] then ""
    else if |lines| == 1 then lines[0]
    else lines[0] + "\n" + Join(lines[1..])
  }

  predicate OneLine(t: string) {
    '\n' !in t
  }

  lemma JoinCons(c: char, rest: seq<string>)
    requires rest != []
    ensures Join([[c] + rest[0]] + rest[1..]) == [c] + Join(rest)
  {
    var lines := [[c] + rest[0]] + rest[1..];
    assert lines[1..] == rest[1..];
    if |rest| > 1 {
      Assoc([c], rest[0], "\n");
      Assoc([c], rest[0] + "\n", Join(rest[1..]));
    }
  }

  lemma {:induction false} JoinLines(t: string)
    ensures Join(Lines(t)) == t
    ensures forall l :: l in Lines(t) ==> OneLine(l)
    decreases |t|
  {
    if t != "" {
      JoinLines(t[1..]);
      var rest := Lines(t[1..]);
      assert rest[0] in rest;
      if t[0] == '\n' {
        assert ([""] + rest)[1..] == rest;
        assert t == "" + "\n" + t[1..];
        assert Join([""] + rest) == "" + "\n" + Join(rest);
      } else {
        var lines := [[t[0]] + rest[0]] + rest[1..];
        JoinCons(t[0], rest);
        assert [t[0]] + t[1..] == t;
        forall l | l in lines ensures OneLine(l) {
          if l != lines[0] { assert l in rest; }
        }
      }
    }
  }

  lemma {:induction false} LinesOfLine(l: string)
    requires OneLine(l)
    ensures Lines(l) == [l]
    decreases |l|
  {
    if l != "" {
      assert l[0] in l && [l[0]] + l[1..] == l;
      LinesOfLine(l[1..]);
    }
  }

  lemma {:induction false} LinesCons(l: string, t: string)
    requires OneLine(l)
    ensures Lines(l + "\n" + t) == [l] + Lines(t)
    decreases |l|
  {
    var u := l + "\n" + t;
    if l == "" {
      assert u[1..] == t;
    } else {
      assert l[0] in l && [l[0]] + l[1..] == l && u[0] == l[0];
      assert u[1..] == l[1..] + "\n" + t;
      LinesCons(l[1..], t);
      assert ([l[1..]] + Lines(t))[1..] == Lines(t);
    }
  }

  lemma {:induction false} LinesAcross(s: string, t: string)
    ensures Lines(s + "\n" + t) == Lines(s) + Lines(t)
    decreases |s|
  {
    var u := s + "\n" + t;
    if s == "" {
      assert u[0] == '\n' && u[1..] == t;
    } else {
      assert u[0] == s[0] && u[1..] == s[1..] + "\n" + t;
      LinesAcross(s[1..], t);
    }
  }

  lemma {:induction false} LinesJoin(lines: seq<string>)
    requires lines != [] && forall l :: l in lines ==> OneLine(l)
    ensures Lines(Join(lines)) == lines
    decreases |lines|
  {
    assert lines[0] in lines;
    if |lines| == 1 {
      LinesOfLine(lines[0]);
    } else {
      LinesCons(lines[0], Join(lines[1..]));
      LinesJoin(lines[1..]);
    }
  }
}
