/** Where the editor finds an entry in a decision log: at the section that was meant, exactly
    when nothing printed in front of it quotes its opening. */
module LogFinding {
  import opened Basics
  import opened Text
  import opened Scanner
  import opened LogMarkup
  import opened LogFormat
  import opened LogSections

  predicate Matches(s: Section, id: string, agent: string) {
    s.id == id && s.agent == agent
  }

  /** Where the first section of (id, agent) stands; the length when there is none. */
  function FirstIndex(ss: seq<Section>, id: string, agent: string): (k: nat)
    ensures k <= |ss| && (k < |ss| ==> Matches(ss[k], id, agent))
    ensures forall j :: 0 <= j < k ==> !Matches(ss[j], id, agent)
  {
    if ss == [] || Matches(ss[0], id, agent) then 0 else 1 + FirstIndex(ss[1..], id, agent)
  }

  /** A field printed in front of the reflection, or the reflection itself, holds the opening
      of the entry (id, agent). */
  predicate QuotesIn(s: Section, id: string, agent: string) {
    Quotes(s.base, id, agent) || (s.reflection.Some? && Quotes(s.reflection.value, id, agent))
  }

  // ----- The text of a section, piece by piece -----

  /** What stands in a body between its base and its reflection. */
  const BLOCK_START: string := "\n" + (REFLECTION + ("\n" + (LABEL + " ")))

  /** Everything in a body in front of the reflection itself. */
  function Front(e: Section): string {
    e.base + BLOCK_START
  }

  lemma LeadBehind(u: string)
    ensures BLOCK_START + u == "\n" + Lead(u)
  {
    assert REFLECTION + ("\n" + (LABEL + " ")) + u == Lead(u);
  }

  lemma FrontLead(e: Section, u: string)
    ensures Front(e) + u == e.base + "\n" + Lead(u)
  {
    LeadBehind(u);
    Assoc(e.base, BLOCK_START, u);
    Assoc(e.base, "\n", Lead(u));
  }

  /** The pieces between the fields hold no delimiter but those of the block. */
  lemma PiecesFree(p: string)
    requires Outer(p)
    ensures Free(REFLECTION + ("\n" + (LABEL + " ")), p) && Free(BLOCK_START, p) && Free(BLOCK_END, p)
  {
    Delimiters();
    LabelFree(p);
    DelimitersApart(REFLECTION, p);
    FreeConcat(LABEL, " ", p);
    FreeConcat("\n", LABEL + " ", p);
    FreeConcat(REFLECTION, "\n" + (LABEL + " "), p);
    FreeConcat("\n", REFLECTION + ("\n" + (LABEL + " ")), p);
    DelimitersApart(REFLECTION_END, p);
    FreeConcat(REFLECTION_END, "\n", p);
    FreeConcat("\n", REFLECTION_END + "\n", p);
  }

  lemma FrontFree(e: Section, p: string)
    requires Free(e.base + "\n", OPEN) && Outer(p)
    ensures Free(Front(e), p)
  {
    var start := REFLECTION + ("\n" + (LABEL + " "));
    FreeNarrow(e.base + "\n", OPEN, p);
    PiecesFree(p);
    FreeConcat(e.base + "\n", start, p);
    Assoc(e.base, "\n", start);
  }

  lemma BodyBehind(e: Section, behind: string)
    requires e.reflection.Some?
    ensures Body(e) + (END_ENTRY + behind)
            == Front(e) + (e.reflection.value + (BLOCK_END + (END_ENTRY + behind)))
  {
    var r, closing, end := e.reflection.value, BLOCK_END, END_ENTRY + behind;
    BodyWithBlock(e);
    FrontLead(e, Closing(r));
    Assoc(Front(e), r + closing, end);
    Assoc(r, closing, end);
  }

  lemma {:induction false} LogTextSplit(a: seq<Section>, b: seq<Section>)
    ensures LogText(a + b) == LogText(a) + LogText(b)
    decreases |a|
  {
    if a == [] {
      assert a + b == b;
    } else {
      assert (a + b)[1..] == a[1..] + b;
      LogTextSplit(a[1..], b);
      Assoc(SectionText(a[0]), LogText(a[1..]), LogText(b));
    }
  }

  lemma LogTextAt(ss: seq<Section>, k: nat, e: Section)
    requires k < |ss|
    ensures LogText(ss[k := e]) == LogText(ss[..k]) + (SectionText(e) + LogText(ss[k + 1..]))
  {
    var rest := ss[k + 1..];
    assert ss[k := e] == ss[..k] + ([e] + rest);
    assert ([e] + rest)[1..] == rest;
    LogTextSplit(ss[..k], [e] + rest);
  }

  function WithEnd(x: string): string {
    x + (END_ENTRY + "\n")
  }

  /** The line of the opening, with the newline in front of it. */
  function Line(s: Section): string {
    "\n" + BeginLine(s.id, s.agent)
  }

  /** A section: its opening, its base, and the block and the end. */
  lemma SectionPieces(s: Section)
    ensures SectionText(s) == Line(s) + (s.base + WithEnd(Block(s)))
  {
    Assoc("\n", BeginLine(s.id, s.agent), s.base + WithEnd(Block(s)));
    Assoc(s.base, Block(s), END_ENTRY + "\n");
  }

  lemma BlockPieces(r: string)
    ensures WithEnd(ReflectionBlock(r)) == BLOCK_START + (r + WithEnd(BLOCK_END))
  {
    LeadBehind(Closing(r));
    Assoc(BLOCK_START, Closing(r), END_ENTRY + "\n");
    Assoc(r, BLOCK_END, END_ENTRY + "\n");
  }

  // ----- What is passed over -----

  lemma ExactlyOpens(id: string, agent: string)
    ensures Opens(Exactly(id, agent), BEGIN)
  {
    forall x | Exactly(id, agent)(x).Some? ensures StartsWith(x, BEGIN) {
      assert MatchOne(x, id, agent).Some?;
      PrefixOfPrefix(x, BEGIN, BEGIN + id);
    }
  }

  lemma OtherOpening(s: Section, rest: string, id: string, agent: string)
    requires IsId(s.id) && IsAgent(s.agent) && IsId(id) && IsAgent(agent) && !Matches(s, id, agent)
    ensures MatchOne(BeginLine(s.id, s.agent) + rest, id, agent) == None
  {
    var t := BeginLine(s.id, s.agent) + rest;
    BeginLineReads(s.id, s.agent, rest);
    if MatchExact(t, id, agent).Some? {
      MatchersAgree(t, id, agent, MatchExact(t, id, agent).value);
    }
  }

  /** What `Exactly` passes over: s in front of t. */
  ghost predicate Passed(s: string, t: string, id: string, agent: string) {
    Scan(s + t, Exactly(id, agent)) == Shift(s, Scan(t, Exactly(id, agent)))
  }

  lemma PassFree(s: string, t: string, id: string, agent: string)
    requires Free(s, BEGIN)
    ensures Passed(s, t, id, agent)
  {
    ExactlyOpens(id, agent);
    ScanSkip(s, t, Exactly(id, agent), BEGIN);
  }

  lemma PassBoth(a: string, b: string, t: string, id: string, agent: string)
    requires Passed(a, b + t, id, agent) && Passed(b, t, id, agent)
    ensures Passed(a + b, t, id, agent)
  {
    ScanTwice(a, b, t, Exactly(id, agent));
  }

  /** The opening of another entry. */
  lemma PassLine(s: Section, t: string, id: string, agent: string)
    requires IsId(s.id) && IsAgent(s.agent) && IsId(id) && IsAgent(agent) && !Matches(s, id, agent)
    ensures Passed(Line(s), t, id, agent)
  {
    var line, m := BeginLine(s.id, s.agent), Exactly(id, agent);
    var tail := BeginLineTail(s.id, s.agent);
    PassFree(tail, t, id, agent);
    OtherOpening(s, t, id, agent);
    assert m(line + t) == MatchOne(line + t, id, agent);
    Assoc(['<'], tail, t);
    ScanStep('<', tail + t, m);
    PassBoth(['<'], tail, t, id, agent);
    FreeLetters("\n", BEGIN);
    PassFree("\n", line + t, id, agent);
    PassBoth("\n", line, t, id, agent);
  }

  /** Between u and t stands a newline with "<" behind it. */
  predicate Walled(u: string, t: string) {
    StartsWith(t, "\n<") || (NewlineEnded(u) && StartsWith(t, "<"))
  }

  /** An opening that starts in u does not reach over the wall. */
  lemma WalledMatch(u: string, q: nat, t: string, id: string, agent: string)
    requires Walled(u, t) && q < |u| && IsId(id) && IsAgent(agent) && MatchExact(u[q..] + t, id, agent).Some?
    ensures QuotedAt(u, q, id, agent)
  {
    var v := u[q..];
    if StartsWith(t, "\n<") {
      assert t == "\n<" + t[2..];
      ExactShorter(v, t[2..], id, agent);
    } else {
      var w := v[..|v| - 1];
      assert v == w + "\n";
      assert v + t == w + ("\n<" + t[1..]);
      ExactShorter(w, t[1..], id, agent);
      ExactLonger(w, "\n", id, agent);
    }
  }

  /** A text in front of a wall, up to its first quote. */
  lemma PassText(u: string, p: nat, t: string, id: string, agent: string)
    requires Walled(u, t) && IsId(id) && IsAgent(agent)
    requires p <= |u| && forall q: nat :: q < p ==> !QuotedAt(u, q, id, agent)
    ensures Passed(u[..p], u[p..] + t, id, agent)
  {
    var m := Exactly(id, agent);
    forall q | 0 <= q < p ensures m(u[..p][q..] + (u[p..] + t)).None? {
      assert u[..p][q..] + (u[p..] + t) == u[q..] + t;
      assert m(u[q..] + t) == MatchOne(u[q..] + t, id, agent);
      if MatchExact(u[q..] + t, id, agent).Some? { WalledMatch(u, q, t, id, agent); }
    }
    ScanPass(u[..p], u[p..] + t, m);
  }

  lemma PassAll(u: string, t: string, id: string, agent: string)
    requires Walled(u, t) && IsId(id) && IsAgent(agent) && !Quotes(u, id, agent)
    ensures Passed(u, t, id, agent)
  {
    assert u[..|u|] == u && u[|u|..] + t == t;
    PassText(u, |u|, t, id, agent);
  }

  lemma BaseWalled(s: Section, more: string)
    requires Printed(s)
    ensures Walled(s.base, WithEnd(Block(s)) + more)
  {
    if s.reflection.Some? {
      BlockPieces(s.reflection.value);
      assert StartsWith(BLOCK_START, "\n<");
    }
  }

  lemma ReflectionWalled(r: string, more: string)
    ensures Walled(r, WithEnd(BLOCK_END) + more)
  {
    assert StartsWith(BLOCK_END, "\n<");
  }

  lemma EndFree(x: string)
    requires Free(x, BEGIN)
    ensures Free(WithEnd(x), BEGIN)
  {
    Delimiters();
    DelimitersApart(END_ENTRY, BEGIN);
    FreeLetters("\n", BEGIN);
    FreeConcat(END_ENTRY, "\n", BEGIN);
    FreeConcat(x, END_ENTRY + "\n", BEGIN);
  }

  /** The opening and the base of a section that is not looked for and quotes nothing there. */
  lemma PassBase(s: Section, more: string, id: string, agent: string)
    requires Printed(s) && IsId(id) && IsAgent(agent) && !Matches(s, id, agent) && !Quotes(s.base, id, agent)
    ensures Passed(Line(s) + s.base, WithEnd(Block(s)) + more, id, agent)
  {
    var t := WithEnd(Block(s)) + more;
    BaseWalled(s, more);
    PassAll(s.base, t, id, agent);
    PassLine(s, s.base + t, id, agent);
    PassBoth(Line(s), s.base, t, id, agent);
  }

  /** The start of the block in front of what follows it. */
  lemma PassStart(s: Section, t: string, id: string, agent: string)
    requires Passed(Line(s) + s.base, BLOCK_START + t, id, agent)
    ensures Passed(Line(s) + s.base + BLOCK_START, t, id, agent)
  {
    Delimiters();
    PiecesFree(BEGIN);
    PassFree(BLOCK_START, t, id, agent);
    PassBoth(Line(s) + s.base, BLOCK_START, t, id, agent);
  }

  lemma PassBlock(s: Section, more: string, id: string, agent: string)
    requires IsId(id) && IsAgent(agent) && (s.reflection.Some? ==> !Quotes(s.reflection.value, id, agent))
    ensures Passed(WithEnd(Block(s)), more, id, agent)
  {
    Delimiters();
    PiecesFree(BEGIN);
    match s.reflection
    case None =>
      FreeLetters("", BEGIN);
      EndFree("");
      PassFree(WithEnd(""), more, id, agent);
    case Some(r) =>
      var end := WithEnd(BLOCK_END);
      EndFree(BLOCK_END);
      PassFree(end, more, id, agent);
      ReflectionWalled(r, more);
      PassAll(r, end + more, id, agent);
      PassBoth(r, end, more, id, agent);
      PassFree(BLOCK_START, r + end + more, id, agent);
      PassBoth(BLOCK_START, r + end, more, id, agent);
      BlockPieces(r);
  }

  /** A section of another entry that does not quote the opening looked for is passed over,
      whatever else its fields and its reflection contain. */
  lemma PassSection(s: Section, more: string, id: string, agent: string)
    requires Printed(s) && IsId(id) && IsAgent(agent) && !Matches(s, id, agent) && !QuotesIn(s, id, agent)
    ensures Passed(SectionText(s), more, id, agent)
  {
    PassBase(s, more, id, agent);
    PassBlock(s, more, id, agent);
    PassBoth(Line(s) + s.base, WithEnd(Block(s)), more, id, agent);
    SectionPieces(s);
    Assoc(Line(s), s.base, WithEnd(Block(s)));
  }

  ghost predicate Passable(ss: seq<Section>, id: string, agent: string) {
    forall s :: s in ss ==> Printed(s) && !Matches(s, id, agent) && !QuotesIn(s, id, agent)
  }

  lemma {:induction false} PassLog(ss: seq<Section>, more: string, id: string, agent: string)
    requires Passable(ss, id, agent) && IsId(id) && IsAgent(agent)
    ensures Passed(LogText(ss), more, id, agent)
    decreases |ss|
  {
    if ss == [] {
      FreeLetters("", BEGIN);
      PassFree("", more, id, agent);
    } else {
      assert ss[0] in ss;
      PassLog(ss[1..], more, id, agent);
      PassSection(ss[0], LogText(ss[1..]) + more, id, agent);
      PassBoth(SectionText(ss[0]), LogText(ss[1..]), more, id, agent);
    }
  }

  // ----- What is found -----

  lemma EndStands(rest: string, x: string)
    ensures Contains(rest + (x + END_ENTRY), END_ENTRY)
  {
    StartsInside(rest, x, END_ENTRY, "");
    assert END_ENTRY + "" == END_ENTRY;
  }

  lemma RestSplit(rest: string, x: string, more: string)
    ensures rest + (WithEnd(x) + more) == rest + (x + END_ENTRY) + ("\n" + more)
  {
    Assoc(x, END_ENTRY, "\n");
    Assoc(x + END_ENTRY, "\n", more);
    Assoc(rest, x + END_ENTRY, "\n" + more);
  }

  /** A quote with the end of its section behind it reads as an entry that ends in the
      section. */
  lemma QuoteMatches(u: string, x: string, more: string, id: string, agent: string)
    returns (body: string, after: string)
    requires MatchExact(u, id, agent).Some?
    ensures MatchOne(u + (WithEnd(x) + more), id, agent) == Some((body, after + ("\n" + more)))
  {
    var rest := MatchExact(u, id, agent).value;
    ExactLonger(u, WithEnd(x) + more, id, agent);
    var y := rest + (x + END_ENTRY);
    EndStands(rest, x);
    CutExtend(y, END_ENTRY, "\n" + more);
    RestSplit(rest, x, more);
    body, after := Cut(y, END_ENTRY).value.0, Cut(y, END_ENTRY).value.1;
  }

  /** The search comes as far as position p of u. */
  lemma PassUpTo(a: string, u: string, p: nat, end: string, id: string, agent: string)
    requires Walled(u, end) && IsId(id) && IsAgent(agent) && Passed(a, u + end, id, agent)
    requires p <= |u| && forall q: nat :: q < p ==> !QuotedAt(u, q, id, agent)
    ensures a + (u + end) == a + u[..p] + (u[p..] + end)
    ensures Passed(a + u[..p], u[p..] + end, id, agent)
  {
    assert u == u[..p] + u[p..];
    Assoc(u[..p], u[p..], end);
    Assoc(a, u[..p], u[p..] + end);
    PassText(u, p, end, id, agent);
    PassBoth(a, u[..p], u[p..] + end, id, agent);
  }

  lemma MatchHere(t: string, found: (string, string), id: string, agent: string)
    requires MatchOne(t, id, agent) == Some(found)
    ensures Scan(t, Exactly(id, agent)) == Some(("", found))
  {
    assert Exactly(id, agent)(t) == MatchOne(t, id, agent);
    ScanHere(t, Exactly(id, agent));
  }

  /** The first quote in u is found behind what is passed over, and what follows the section
      stays behind the end. */
  lemma QuoteIsFound(a: string, u: string, x: string, more: string, id: string, agent: string)
    returns (before: string, body: string, after: string)
    requires IsId(id) && IsAgent(agent) && Quotes(u, id, agent) && Walled(u, WithEnd(x) + more)
    requires Passed(a, u + (WithEnd(x) + more), id, agent)
    ensures Scan(a + (u + (WithEnd(x) + more)), Exactly(id, agent)) == Some((before, (body, after + ("\n" + more))))
    ensures |before| <= |a| + |u|
  {
    var end := WithEnd(x) + more;
    var p := FirstQuote(u, id, agent);
    PassUpTo(a, u, p, end, id, agent);
    body, after := QuoteMatches(u[p..], x, more, id, agent);
    MatchHere(u[p..] + end, (body, after + ("\n" + more)), id, agent);
    before := a + u[..p];
    assert before + "" == before;
  }

  /** In a section that quotes the opening of another entry the first quote is found. */
  lemma SectionQuoteFound(s: Section, more: string, id: string, agent: string)
    returns (before: string, body: string, after: string)
    requires Printed(s) && IsId(id) && IsAgent(agent) && !Matches(s, id, agent) && QuotesIn(s, id, agent)
    ensures Scan(SectionText(s) + more, Exactly(id, agent)) == Some((before, (body, after + ("\n" + more))))
    ensures |before| < |SectionText(s)|
  {
    var end := WithEnd(Block(s)) + more;
    SectionPieces(s);
    Assoc(Line(s), s.base + WithEnd(Block(s)), more);
    Assoc(s.base, WithEnd(Block(s)), more);
    if Quotes(s.base, id, agent) {
      BaseWalled(s, more);
      PassLine(s, s.base + end, id, agent);
      before, body, after := QuoteIsFound(Line(s), s.base, Block(s), more, id, agent);
    } else {
      var r, front := s.reflection.value, Line(s) + s.base;
      var behind := r + (WithEnd(BLOCK_END) + more);
      BlockPieces(r);
      Assoc(BLOCK_START, r + WithEnd(BLOCK_END), more);
      Assoc(r, WithEnd(BLOCK_END), more);
      PassBase(s, more, id, agent);
      PassStart(s, behind, id, agent);
      ReflectionWalled(r, more);
      before, body, after := QuoteIsFound(front + BLOCK_START, r, BLOCK_END, more, id, agent);
      Assoc(front, BLOCK_START, behind);
      Assoc(Line(s), s.base, end);
    }
  }

  /** At its own opening a section is found, and its body goes up to the first end. */
  lemma SectionIsFound(s: Section, more: string)
    requires IsId(s.id) && IsAgent(s.agent)
    ensures var rest := Body(s) + (END_ENTRY + ("\n" + more));
            && Cut(rest, END_ENTRY).Some?
            && Scan(SectionText(s) + more, Exactly(s.id, s.agent)) == Some(("\n", Cut(rest, END_ENTRY).value))
  {
    var behind := "\n" + more;
    var rest, t := Body(s) + (END_ENTRY + behind), Opened(s, behind);
    SectionOpens(s, more);
    FreeLetters("\n", BEGIN);
    PassFree("\n", t, s.id, s.agent);
    BeginLineReads(s.id, s.agent, rest);
    MatchersAgree(t, s.id, s.agent, rest);
    StartsInside("", Body(s), END_ENTRY, behind);
    assert "" + rest == rest;
    MatchHere(t, Cut(rest, END_ENTRY).value, s.id, s.agent);
  }

  // ----- Exactly when the entry that was meant is found -----

  /** No section in front of the first one of (id, agent) quotes its opening. */
  predicate Undisturbed(ss: seq<Section>, id: string, agent: string) {
    forall j {:trigger QuotesIn(ss[j], id, agent)} ::
      0 <= j < FirstIndex(ss, id, agent) ==> !QuotesIn(ss[j], id, agent)
  }

  /** What stands behind the entry looked for does not matter. */
  predicate PrintedUpTo(ss: seq<Section>, id: string, agent: string) {
    forall j {:trigger Printed(ss[j])} ::
      0 <= j <= FirstIndex(ss, id, agent) && j < |ss| ==> Printed(ss[j])
  }

  /** The first match in the file is the opening of the first section of (id, agent), or there
      is none of either. */
  ghost predicate FindsFirst(header: string, ss: seq<Section>, id: string, agent: string) {
    var k, found := FirstIndex(ss, id, agent), Scan(header + LogText(ss), Exactly(id, agent));
    if k < |ss| then found.Some? && found.value.0 == header + (LogText(ss[..k]) + "\n") else found.None?
  }

  /** The search comes as far as section j. */
  lemma SearchReaches(header: string, ss: seq<Section>, j: nat, id: string, agent: string)
    requires Free(header, BEGIN) && j < |ss| && Passable(ss[..j], id, agent) && IsId(id) && IsAgent(agent)
    ensures Scan(header + LogText(ss), Exactly(id, agent))
            == Shift(header, Shift(LogText(ss[..j]),
                                   Scan(SectionText(ss[j]) + LogText(ss[j + 1..]), Exactly(id, agent))))
  {
    assert ss[j := ss[j]] == ss;
    LogTextAt(ss, j, ss[j]);
    PassFree(header, LogText(ss), id, agent);
    PassLog(ss[..j], SectionText(ss[j]) + LogText(ss[j + 1..]), id, agent);
  }

  lemma UndisturbedFinds(header: string, ss: seq<Section>, id: string, agent: string)
    requires Free(header, BEGIN) && PrintedUpTo(ss, id, agent) && IsId(id) && IsAgent(agent)
    requires Undisturbed(ss, id, agent)
    ensures FindsFirst(header, ss, id, agent)
  {
    var k := FirstIndex(ss, id, agent);
    if k < |ss| {
      SearchReaches(header, ss, k, id, agent);
      SectionIsFound(ss[k], LogText(ss[k + 1..]));
    } else {
      FreeLetters("", BEGIN);
      ExactlyOpens(id, agent);
      ScanNothing("", Exactly(id, agent), BEGIN);
      PassFree(header, LogText(ss), id, agent);
      PassLog(ss, "", id, agent);
      assert LogText(ss) + "" == LogText(ss);
    }
  }

  /** The first section that quotes the opening, if one does. */
  lemma {:induction false} FirstQuoting(ss: seq<Section>, n: nat, id: string, agent: string) returns (j: nat)
    requires n <= |ss| && exists i :: 0 <= i < n && QuotesIn(ss[i], id, agent)
    ensures j < n && QuotesIn(ss[j], id, agent)
    ensures forall i :: 0 <= i < j ==> !QuotesIn(ss[i], id, agent)
    decreases n
  {
    if exists i :: 0 <= i < n - 1 && QuotesIn(ss[i], id, agent) {
      j := FirstQuoting(ss, n - 1, id, agent);
    } else {
      j := n - 1;
    }
  }

  lemma DisturbedFinds(header: string, ss: seq<Section>, id: string, agent: string)
    returns (j: nat, before: string, body: string, after: string)
    requires Free(header, BEGIN) && PrintedUpTo(ss, id, agent) && IsId(id) && IsAgent(agent)
    requires !Undisturbed(ss, id, agent)
    ensures j < FirstIndex(ss, id, agent) && QuotesIn(ss[j], id, agent) && |before| < |SectionText(ss[j])|
    ensures Scan(header + LogText(ss), Exactly(id, agent))
            == Some((header + (LogText(ss[..j]) + before), (body, after + ("\n" + LogText(ss[j + 1..])))))
  {
    j := FirstQuoting(ss, FirstIndex(ss, id, agent), id, agent);
    SearchReaches(header, ss, j, id, agent);
    before, body, after := SectionQuoteFound(ss[j], LogText(ss[j + 1..]), id, agent);
  }

  lemma LogTextGrows(ss: seq<Section>, j: nat, k: nat)
    requires j < k <= |ss|
    ensures |LogText(ss[..j])| + |SectionText(ss[j])| <= |LogText(ss[..k])|
  {
    var front := ss[..k];
    LogTextAt(front, j, front[j]);
    assert front[j := front[j]] == front && front[..j] == ss[..j];
  }

  /** The editor finds the entry that was meant, or nothing when there is none, if and only if
      neither a field nor a reflection printed in front of it quotes the opening of that entry.
      Other comments, and openings of other entries, do no harm. */
  lemma FindingIsExact(header: string, ss: seq<Section>, id: string, agent: string)
    requires Free(header, BEGIN) && PrintedUpTo(ss, id, agent) && IsId(id) && IsAgent(agent)
    ensures FindsFirst(header, ss, id, agent) <==> Undisturbed(ss, id, agent)
  {
    if Undisturbed(ss, id, agent) {
      UndisturbedFinds(header, ss, id, agent);
    } else {
      var j, before, body, after := DisturbedFinds(header, ss, id, agent);
      LogTextGrows(ss, j, FirstIndex(ss, id, agent));
    }
  }

  // ----- Texts that quote an opening -----

  /** For every id and agent the opening itself is one, also after stripping. */
  lemma OpeningQuotesItself(id: string, agent: string)
    ensures Quotes(BeginLine(id, agent), id, agent) && PyStrip(BeginLine(id, agent)) == BeginLine(id, agent)
  {
    var r := BeginLine(id, agent);
    assert "" + r + "" == r && r + "" == r && r[0..] == r;
    BeginLineWritten(id, agent, "");
    ExactReads(id, " ", agent, " ", "");
    assert QuotedAt(r, 0, id, agent);
    assert r[0] == '<' && r[|r| - 1] == '>';
    StripPadded("", r, "", PySpace);
  }

  lemma QuotesInside(head: string, t: string, tail: string, id: string, agent: string)
    requires Quotes(t, id, agent)
    ensures Quotes(head + (t + tail), id, agent)
  {
    var p: nat :| p <= |t| && QuotedAt(t, p, id, agent);
    var whole := head + (t + tail);
    assert whole[|head| + p..] == t[p..] + tail;
    ExactLonger(t[p..], tail, id, agent);
    assert QuotedAt(whole, |head| + p, id, agent);
  }

  /** A thesis that quotes an opening is printed with the quote. */
  lemma ThesisQuotes(e: Entry, id: string, agent: string)
    requires Quotes(PyStrip(e.thesis), id, agent)
    ensures QuotesIn(SectionOf(e), id, agent)
  {
    var thesis, tail := PyStrip(e.thesis), "\n" + Evidence(e.evidenceUrls);
    var rating := e.rating + ("\n" + ("\n" + (thesis + tail)));
    QuotesInside("\n", thesis, tail, id, agent);
    InFront("\n", "\n" + (thesis + tail), id, agent);
    InFront(e.rating, "\n" + ("\n" + (thesis + tail)), id, agent);
    InFront("\U{2014} ", rating, id, agent);
    InFront(" ", "\U{2014} " + rating, id, agent);
    InFront(e.issuedAt, " " + ("\U{2014} " + rating), id, agent);
    InFront("\n## ", e.issuedAt + (" " + ("\U{2014} " + rating)), id, agent);
  }

  lemma InFront(head: string, t: string, id: string, agent: string)
    requires Quotes(t, id, agent)
    ensures Quotes(head + t, id, agent)
  {
    QuotesInside(head, t, "", id, agent);
    assert t + "" == t;
  }
}
