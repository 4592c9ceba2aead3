/** The comment delimiters of the markdown decision log and the patterns that find them
    (packages/data-lake/data_lake/decision_log.py:46-57 and 170-175), as hand-written
    matchers at the front of a text. Every pattern has at most one way to match, so
    backtracking is resolved where it can happen: a name that runs into the closing arrow. */
module LogMarkup {
  import opened Basics
  import opened Text
  import opened Scanner

  const OPEN := "<!--"
  const BEGIN := "<!-- BEGIN entry id="
  const AGENT := "agent="
  const CLOSE := "-->"
  const END_ENTRY := "<!-- END entry -->"
  const REFLECTION := "<!-- reflection -->"
  const REFLECTION_END := "<!-- /reflection -->"
  const LABEL := "**Reflection:**"

  /** The characters str.strip and the class \s take as whitespace. */
  predicate PySpace(c: char) {
    var n := c as int;
    9 <= n <= 13 || 0x1C <= n <= 0x20 || n == 0x85 || n == 0xA0 || n == 0x1680 || 0x2000 <= n <= 0x200A
    || n == 0x2028 || n == 0x2029 || n == 0x202F || n == 0x205F || n == 0x3000
  }

  /** Among the first 128 characters these are tab, newline, vertical tab, form feed, carriage
      return, space and the four information separators. */
  lemma AsciiSpaces(c: char)
    requires c as int < 128
    ensures PySpace(c) <==> c in "\t\n\U{0B}\U{0C}\r \U{1C}\U{1D}\U{1E}\U{1F}"
  {}

  predicate IdChar(c: char) {
    !PySpace(c)
  }

  predicate AgentChar(c: char) {
    !PySpace(c) && c != '>'
  }

  predicate All(t: string, f: CharClass) {
    forall c :: c in t ==> f(c)
  }

  predicate IsId(t: string) {
    t != "" && All(t, IdChar)
  }

  predicate IsAgent(t: string) {
    t != "" && All(t, AgentChar)
  }

  predicate Blank(t: string) {
    All(t, PySpace)
  }

  /** How many characters of the class t starts with. */
  function RunLength(t: string, f: CharClass): (n: nat)
    ensures n <= |t| && All(t[..n], f) && (n < |t| ==> !f(t[n]))
  {
    if t == "" || !f(t[0]) then 0
    else
      var n := RunLength(t[1..], f);
      assert t[..1 + n] == [t[0]] + t[1..][..n];
      1 + n
  }

  lemma {:induction false} RunIs(s: string, t: string, f: CharClass)
    requires All(s, f) && (t == "" || !f(t[0]))
    ensures RunLength(s + t, f) == |s| && (s + t)[..|s|] == s && (s + t)[|s|..] == t
    decreases |s|
  {
    if s == "" {
      assert s + t == t;
    } else {
      assert s[0] in s && (s + t)[0] == s[0];
      assert (s + t)[1..] == s[1..] + t;
      forall c | c in s[1..] ensures f(c) { assert c in s; }
      RunIs(s[1..], t, f);
    }
  }

  lemma StripLead(ws: string, t: string)
    requires Blank(ws) && (t == "" || !PySpace(t[0]))
    ensures LStrip(ws + t, PySpace) == t
  {
    LStripBlanks(ws, t, PySpace);
  }

  // ----- The opening of an entry -----

  datatype Opening = Opening(id: string, agent: string, rest: string)

  /** <!-- BEGIN entry id=([^\s]+)\s+agent=([^\s>]+)\s*--> */
  function MatchBegin(t: string): (r: Option<Opening>)
    ensures r.Some? ==> |r.value.rest| < |t|
  {
    if !StartsWith(t, BEGIN) then None
    else
      var named := t[|BEGIN|..];
      var n := RunLength(named, IdChar);
      var spaced := named[n..];
      var agent := LStrip(spaced, PySpace);
      LStripShorter(spaced);
      if n == 0 || |agent| == |spaced| || !StartsWith(agent, AGENT) then None
      else MatchAgent(named[..n], agent[|AGENT|..])
  }

  /** ([^\s>]+)\s*-->, where the run may have to give back the "--" of the arrow. */
  function MatchAgent(id: string, t: string): (r: Option<Opening>)
    ensures r.Some? ==> |r.value.rest| < |t| && r.value.id == id
  {
    var m := RunLength(t, AgentChar);
    var behind := t[m..];
    LStripShorter(behind);
    if m >= 3 && t[m - 2..m] == "--" && StartsWith(behind, ">") then
      Some(Opening(id, t[..m - 2], behind[1..]))
    else if m >= 1 && StartsWith(LStrip(behind, PySpace), CLOSE) then
      Some(Opening(id, t[..m], LStrip(behind, PySpace)[|CLOSE|..]))
    else None
  }

  /** The same opening for one given id and agent, both taken literally. */
  function MatchExact(t: string, id: string, agent: string): (r: Option<string>)
    ensures r.Some? ==> |r.value| < |t|
  {
    if !StartsWith(t, BEGIN + id) then None
    else
      var spaced := t[|BEGIN + id|..];
      var named := LStrip(spaced, PySpace);
      LStripShorter(spaced);
      if |named| == |spaced| || !StartsWith(named, AGENT + agent) then None
      else
        var closing := LStrip(named[|AGENT + agent|..], PySpace);
        LStripShorter(named[|AGENT + agent|..]);
        if StartsWith(closing, CLOSE) then Some(closing[|CLOSE|..]) else None
  }

  lemma LStripShorter(t: string)
    ensures |LStrip(t, PySpace)| <= |t|
  {
    var head := LStripShape(t, PySpace);
  }

  /** An opening spelled out: what the two patterns describe. */
  function Written(id: string, gap: string, agent: string, gap2: string, rest: string): string {
    BEGIN + (id + (gap + (AGENT + (agent + (gap2 + (CLOSE + rest))))))
  }

  lemma AgentReads(id: string, agent: string, gap2: string, rest: string)
    requires IsAgent(agent) && Blank(gap2)
    ensures MatchAgent(id, agent + (gap2 + (CLOSE + rest))) == Some(Opening(id, agent, rest))
  {
    var t := agent + (gap2 + (CLOSE + rest));
    assert (CLOSE + rest)[|CLOSE|..] == rest && StartsWith(CLOSE + rest, CLOSE);
    if gap2 == "" {
      var run, behind := agent + "--", ">" + rest;
      assert t == run + behind;
      RunIs(run, behind, AgentChar);
      assert t[|run| - 2..|run|] == "--" && behind[1..] == rest;
    } else {
      assert gap2[0] in gap2;
      RunIs(agent, gap2 + (CLOSE + rest), AgentChar);
      StripLead(gap2, CLOSE + rest);
    }
  }

  lemma BeginReads(id: string, gap: string, agent: string, gap2: string, rest: string)
    requires IsId(id) && IsAgent(agent) && gap != "" && Blank(gap) && Blank(gap2)
    ensures MatchBegin(Written(id, gap, agent, gap2, rest)) == Some(Opening(id, agent, rest))
  {
    var tail := agent + (gap2 + (CLOSE + rest));
    var spaced := gap + (AGENT + tail);
    var t := Written(id, gap, agent, gap2, rest);
    assert t[|BEGIN|..] == id + spaced && StartsWith(t, BEGIN);
    assert gap[0] in gap && spaced[0] == gap[0];
    RunIs(id, spaced, IdChar);
    StripLead(gap, AGENT + tail);
    assert (AGENT + tail)[|AGENT|..] == tail && StartsWith(AGENT + tail, AGENT);
    AgentReads(id, agent, gap2, rest);
  }

  lemma ExactReads(id: string, gap: string, agent: string, gap2: string, rest: string)
    requires gap != "" && Blank(gap) && Blank(gap2)
    ensures MatchExact(Written(id, gap, agent, gap2, rest), id, agent) == Some(rest)
  {
    var behind := gap2 + (CLOSE + rest);
    var named := AGENT + agent + behind;
    assert AGENT + (agent + behind) == named;
    var t := Written(id, gap, agent, gap2, rest);
    assert t == BEGIN + id + (gap + named);
    assert t[..|BEGIN + id|] == BEGIN + id && t[|BEGIN + id|..] == gap + named;
    StripLead(gap, named);
    assert named[..|AGENT + agent|] == AGENT + agent && named[|AGENT + agent|..] == behind;
    StripLead(gap2, CLOSE + rest);
    assert (CLOSE + rest)[|CLOSE|..] == rest && StartsWith(CLOSE + rest, CLOSE);
  }

  lemma Behind(t: string, p: string)
    requires StartsWith(t, p)
    ensures t == p + t[|p|..]
  {}

  /** The end of an opening: blanks, the arrow and the rest. */
  lemma ArrowWritten(t: string) returns (gap: string)
    requires StartsWith(LStrip(t, PySpace), CLOSE)
    ensures Blank(gap) && t == gap + (CLOSE + LStrip(t, PySpace)[|CLOSE|..])
  {
    gap := LStripShape(t, PySpace);
    Behind(LStrip(t, PySpace), CLOSE);
  }

  lemma AgentWritten(id: string, t: string) returns (gap2: string)
    requires MatchAgent(id, t).Some?
    ensures var o := MatchAgent(id, t).value;
            IsAgent(o.agent) && Blank(gap2) && t == o.agent + (gap2 + (CLOSE + o.rest))
  {
    var m := RunLength(t, AgentChar);
    var behind := t[m..];
    assert t == t[..m] + behind;
    if m >= 3 && t[m - 2..m] == "--" && StartsWith(behind, ">") {
      gap2 := "";
      assert forall c :: c in t[..m - 2] ==> c in t[..m];
      assert t[..m] == t[..m - 2] + "--";
      Behind(behind, ">");
    } else {
      gap2 := ArrowWritten(behind);
    }
  }

  lemma BeginWritten(t: string) returns (gap: string, gap2: string)
    requires MatchBegin(t).Some?
    ensures var o := MatchBegin(t).value;
            && IsId(o.id) && IsAgent(o.agent) && gap != "" && Blank(gap) && Blank(gap2)
            && t == Written(o.id, gap, o.agent, gap2, o.rest)
  {
    var named := t[|BEGIN|..];
    Behind(t, BEGIN);
    var n := RunLength(named, IdChar);
    var spaced := named[n..];
    assert named == named[..n] + spaced;
    gap := LStripShape(spaced, PySpace);
    var agent := LStrip(spaced, PySpace);
    Behind(agent, AGENT);
    gap2 := AgentWritten(named[..n], agent[|AGENT|..]);
  }

  lemma ExactWritten(t: string, id: string, agent: string) returns (gap: string, gap2: string)
    requires MatchExact(t, id, agent).Some?
    ensures gap != "" && Blank(gap) && Blank(gap2)
    ensures t == Written(id, gap, agent, gap2, MatchExact(t, id, agent).value)
  {
    var spaced := t[|BEGIN + id|..];
    Behind(t, BEGIN + id);
    gap := LStripShape(spaced, PySpace);
    var named := LStrip(spaced, PySpace);
    var behind := named[|AGENT + agent|..];
    Behind(named, AGENT + agent);
    gap2 := ArrowWritten(behind);
    Regroup(id, gap, agent, behind);
  }

  lemma Regroup(id: string, gap: string, agent: string, behind: string)
    ensures BEGIN + id + (gap + (AGENT + agent + behind)) == BEGIN + (id + (gap + (AGENT + (agent + behind))))
  {
    assert AGENT + agent + behind == AGENT + (agent + behind);
  }

  /** On every text the pattern for one entry matches exactly where the general pattern
      matches and reads that id and agent, and both leave the same rest. */
  lemma MatchersAgree(t: string, id: string, agent: string, rest: string)
    requires IsId(id) && IsAgent(agent)
    ensures MatchExact(t, id, agent) == Some(rest) <==> MatchBegin(t) == Some(Opening(id, agent, rest))
  {
    if MatchBegin(t) == Some(Opening(id, agent, rest)) {
      var gap, gap2 := BeginWritten(t);
      ExactReads(id, gap, agent, gap2, rest);
    }
    if MatchExact(t, id, agent) == Some(rest) {
      var gap, gap2 := ExactWritten(t, id, agent);
      BeginReads(id, gap, agent, gap2, rest);
    }
  }

  // ----- Where an opening can stand -----

  /** An opening without the text behind it. */
  function OpeningText(id: string, gap: string, agent: string, gap2: string): string {
    BEGIN + (id + (gap + (AGENT + (agent + (gap2 + CLOSE)))))
  }

  lemma WrittenIs(id: string, gap: string, agent: string, gap2: string, rest: string)
    ensures Written(id, gap, agent, gap2, rest) == OpeningText(id, gap, agent, gap2) + rest
  {}

  /** More text behind an opening stays behind it. */
  lemma ExactLonger(u: string, more: string, id: string, agent: string)
    requires MatchExact(u, id, agent).Some?
    ensures MatchExact(u + more, id, agent) == Some(MatchExact(u, id, agent).value + more)
  {
    var rest := MatchExact(u, id, agent).value;
    var gap, gap2 := ExactWritten(u, id, agent);
    WrittenIs(id, gap, agent, gap2, rest);
    WrittenIs(id, gap, agent, gap2, rest + more);
    var opening := OpeningText(id, gap, agent, gap2);
    assert opening + rest + more == opening + (rest + more);
    ExactReads(id, gap, agent, gap2, rest + more);
  }

  /** A newline is never the last character of t, and "<" never follows one. */
  ghost predicate Tight(t: string) {
    forall k :: 0 <= k < |t| && t[k] == '\n' ==> k + 1 < |t| && t[k + 1] != '<'
  }

  /** Names hold no newline, and blanks no "<". */
  lemma TightPieces(a: string, gap: string, b: string, c: string)
    requires '\n' !in a && '<' !in gap && b != "" && '\n' !in b && b[0] != '<'
    requires c != "" && '<' !in c && c[|c| - 1] != '\n'
    ensures Tight(a + (gap + (b + c)))
  {
    var t := a + (gap + (b + c));
    forall k | 0 <= k < |t| && t[k] == '\n' ensures k + 1 < |t| && t[k + 1] != '<' {
      if |a| <= k < |a| + |gap| {
        assert t[k + 1] == if k + 1 < |a| + |gap| then gap[k + 1 - |a|] else b[0];
      } else if |a| + |gap| + |b| <= k {
        assert t[k] == c[k - |a| - |gap| - |b|];
        assert k + 1 < |t| && t[k + 1] == c[k + 1 - |a| - |gap| - |b|];
      }
    }
  }

  lemma OpeningIsTight(id: string, gap: string, agent: string, gap2: string)
    requires IsId(id) && IsAgent(agent) && Blank(gap) && Blank(gap2)
    ensures Tight(OpeningText(id, gap, agent, gap2))
  {
    assert PySpace('\n') && !PySpace('<');
    var a, b, c := BEGIN + id, AGENT + agent, gap2 + CLOSE;
    TightPieces(a, gap, b, c);
    assert OpeningText(id, gap, agent, gap2) == a + (gap + (b + c));
  }

  /** A tight text that starts u + "\n<" ends inside u. */
  lemma TightEnds(t: string, u: string, more: string)
    requires Tight(t) && StartsWith(u + ("\n<" + more), t)
    ensures |t| <= |u|
  {
    var s := u + ("\n<" + more);
    assert forall k :: 0 <= k < |t| ==> t[k] == s[..|t|][k] == s[k];
    assert s[|u|] == '\n' && s[|u| + 1] == '<';
  }

  /** An opening that starts in u does not reach over a newline with "<" behind it. */
  lemma ExactShorter(u: string, more: string, id: string, agent: string)
    requires IsId(id) && IsAgent(agent) && MatchExact(u + ("\n<" + more), id, agent).Some?
    ensures MatchExact(u, id, agent).Some?
  {
    var s := u + ("\n<" + more);
    var rest := MatchExact(s, id, agent).value;
    var gap, gap2 := ExactWritten(s, id, agent);
    var opening := OpeningText(id, gap, agent, gap2);
    WrittenIs(id, gap, agent, gap2, rest);
    OpeningIsTight(id, gap, agent, gap2);
    assert s[..|opening|] == opening;
    TightEnds(opening, u, more);
    assert u[..|opening|] == s[..|opening|];
    assert u == opening + u[|opening|..];
    WrittenIs(id, gap, agent, gap2, u[|opening|..]);
    ExactReads(id, gap, agent, gap2, u[|opening|..]);
  }

  /** The opening of the entry (id, agent) stands at position p of r. */
  predicate QuotedAt(r: string, p: nat, id: string, agent: string) {
    p <= |r| && MatchExact(r[p..], id, agent).Some?
  }

  /** It stands somewhere in r. */
  predicate Quotes(r: string, id: string, agent: string) {
    exists p: nat :: p <= |r| && QuotedAt(r, p, id, agent)
  }

  /** No opening of any entry stands in r. */
  predicate Unquoting(r: string) {
    forall p :: 0 <= p <= |r| ==> MatchBegin(r[p..]).None?
  }

  lemma UnquotingQuotesNone(r: string, id: string, agent: string)
    requires Unquoting(r) && IsId(id) && IsAgent(agent)
    ensures !Quotes(r, id, agent)
  {
    forall p: nat | p <= |r| ensures !QuotedAt(r, p, id, agent) {
      if MatchExact(r[p..], id, agent).Some? {
        MatchersAgree(r[p..], id, agent, MatchExact(r[p..], id, agent).value);
      }
    }
  }

  /** The first quote from `start` on, when there is one at q. */
  lemma {:induction false} FirstQuoteFrom(r: string, id: string, agent: string, start: nat, q: nat) returns (p: nat)
    requires start <= q && QuotedAt(r, q, id, agent)
    ensures start <= p <= |r| && QuotedAt(r, p, id, agent)
    ensures forall k: nat :: start <= k < p ==> !QuotedAt(r, k, id, agent)
    decreases q - start
  {
    if QuotedAt(r, start, id, agent) {
      p := start;
    } else {
      p := FirstQuoteFrom(r, id, agent, start + 1, q);
    }
  }

  lemma FirstQuote(r: string, id: string, agent: string) returns (p: nat)
    requires Quotes(r, id, agent)
    ensures p <= |r| && QuotedAt(r, p, id, agent)
    ensures forall k: nat :: k < p ==> !QuotedAt(r, k, id, agent)
  {
    var q: nat :| q <= |r| && QuotedAt(r, q, id, agent);
    p := FirstQuoteFrom(r, id, agent, 0, q);
  }

  // ----- Delimiters do not overlap -----

  /** "<" only in front, and the sixth character tells the delimiters apart. */
  ghost predicate IsDelimiter(p: string) {
    |p| >= 6 && p[..4] == OPEN && p[0] == '<' && '\n' !in p && forall i :: 1 <= i < |p| ==> p[i] != '<'
  }

  lemma BeginDelimiter()
    ensures IsDelimiter(BEGIN) && BEGIN[5] == 'B'
  {}

  lemma EndDelimiter()
    ensures IsDelimiter(END_ENTRY) && END_ENTRY[5] == 'E'
  {}

  lemma ReflectionDelimiter()
    ensures IsDelimiter(REFLECTION) && REFLECTION[5] == 'r'
  {}

  lemma ReflectionEndDelimiter()
    ensures IsDelimiter(REFLECTION_END) && REFLECTION_END[5] == '/'
  {}

  lemma Delimiters()
    ensures IsDelimiter(BEGIN) && IsDelimiter(END_ENTRY) && IsDelimiter(REFLECTION) && IsDelimiter(REFLECTION_END)
    ensures BEGIN[5] == 'B' && END_ENTRY[5] == 'E' && REFLECTION[5] == 'r' && REFLECTION_END[5] == '/'
  {
    BeginDelimiter();
    EndDelimiter();
    ReflectionDelimiter();
    ReflectionEndDelimiter();
  }

  lemma DelimitersApart(p: string, q: string)
    requires IsDelimiter(p) && IsDelimiter(q) && p[5] != q[5]
    ensures Free(p, q)
  {
    forall k: nat | k < |p| ensures !AgreesAt(p, k, q) {
      if k == 0 { assert p[k + 5] != q[5]; } else { assert p[k + 0] != q[0]; }
    }
  }
}
