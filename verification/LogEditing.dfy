/** Attaching reflections to a decision log: what the editor does to the sections, and which
    reflections the parser reads back. */
module LogEditing {
  import opened Basics
  import opened Text
  import opened Scanner
  import opened LogMarkup
  import opened LogFormat
  import opened LogSections
  import opened LogFinding

  // ----- The editor on sections -----

  /** A section with a new reflection: the newlines in front of the block become one. */
  function Edited(s: Section, r: string): Section {
    s.(base := RStrip(s.base, Newline), reflection := Some(r))
  }

  function EditFirst(ss: seq<Section>, id: string, agent: string, r: string): seq<Section> {
    if ss == [] then []
    else if Matches(ss[0], id, agent) then [Edited(ss[0], r)] + ss[1..]
    else [ss[0]] + EditFirst(ss[1..], id, agent, r)
  }

  predicate HasEntry(ss: seq<Section>, id: string, agent: string) {
    FirstIndex(ss, id, agent) < |ss|
  }

  lemma {:induction false} EditFirstIs(ss: seq<Section>, id: string, agent: string, r: string)
    ensures var k := FirstIndex(ss, id, agent);
            EditFirst(ss, id, agent, r) == if k < |ss| then ss[k := Edited(ss[k], r)] else ss
    decreases |ss|
  {
    if ss != [] {
      var s, rest := ss[0], ss[1..];
      assert ss == [s] + rest;
      if !Matches(s, id, agent) {
        var k := FirstIndex(rest, id, agent);
        assert FirstIndex(ss, id, agent) == 1 + k;
        EditFirstIs(rest, id, agent, r);
        if k < |rest| {
          assert ([s] + rest)[1 + k := Edited(rest[k], r)] == [s] + rest[k := Edited(rest[k], r)];
        }
      } else {
        assert ([s] + rest)[0 := Edited(s, r)] == [Edited(s, r)] + rest;
      }
    }
  }

  /** Nothing in front of the entry looked for quotes its opening, and the entry itself is not
      cut short. What else stands in front of it, and what stands behind it, does not matter. */
  ghost predicate Findable(ss: seq<Section>, id: string, agent: string) {
    var k := FirstIndex(ss, id, agent);
    PrintedUpTo(ss, id, agent) && Undisturbed(ss, id, agent) && (k < |ss| ==> Readable(ss[k]))
  }

  /** No opening of any entry stands in a text without comments. */
  lemma FreeQuotesNone(t: string, more: string, id: string, agent: string)
    requires Free(t + more, OPEN)
    ensures !Quotes(t, id, agent)
  {
    forall p: nat | p <= |t| ensures !QuotedAt(t, p, id, agent) {
      if MatchExact(t[p..], id, agent).Some? {
        assert p < |t|;
        forall i | 0 <= i < |OPEN| && p + i < |t + more| ensures (t + more)[p + i] == OPEN[i] {
          assert (BEGIN + id)[i] == t[p..][..|BEGIN + id|][i];
        }
        assert AgreesAt(t + more, p, OPEN);
      }
    }
  }

  lemma CleanQuotesNone(s: Section, id: string, agent: string)
    requires Clean(s) && IsId(id) && IsAgent(agent)
    ensures !QuotesIn(s, id, agent)
  {
    if s.reflection.Some? {
      FreeQuotesNone(s.base, "\n", id, agent);
      UnquotingQuotesNone(s.reflection.value, id, agent);
    } else {
      assert s.base + "" == s.base;
      FreeQuotesNone(s.base, "", id, agent);
    }
  }

  lemma CleanIsFindable(ss: seq<Section>, id: string, agent: string)
    requires AllClean(ss) && IsId(id) && IsAgent(agent)
    ensures Findable(ss, id, agent) && AllReadable(ss)
  {
    forall j | 0 <= j < |ss| ensures Readable(ss[j]) && !QuotesIn(ss[j], id, agent) {
      assert ss[j] in ss;
      CleanQuotesNone(ss[j], id, agent);
    }
  }

  // ----- Removing an old block -----

  lemma BlockOpens()
    ensures Opens(MatchBlock, OPEN)
  {
    Delimiters();
    forall x | MatchBlock(x).Some? ensures StartsWith(x, OPEN) { PrefixOfPrefix(x, OPEN, REFLECTION); }
  }

  function Inside(r: string): string {
    "\n" + (LABEL + (" " + (r + "\n")))
  }

  lemma InsideFree(r: string)
    requires !Contains(r, REFLECTION_END)
    ensures Free(Inside(r), REFLECTION_END)
  {
    Delimiters();
    LabelFree(REFLECTION_END);
    FreeClosed(r, '\n', REFLECTION_END);
    FreeConcat(" ", r + "\n", REFLECTION_END);
    FreeConcat(LABEL, " " + (r + "\n"), REFLECTION_END);
    FreeConcat("\n", LABEL + (" " + (r + "\n")), REFLECTION_END);
  }

  lemma LeadInside(r: string)
    ensures Lead(Closing(r)) == REFLECTION + (Inside(r) + REFLECTION_END + "\n")
  {
    ClosingSplit(r);
    var u := r + "\n";
    assert " " + Closing(r) == " " + u + (REFLECTION_END + "\n");
    assert "\n" + (LABEL + (" " + u + (REFLECTION_END + "\n"))) == Inside(r) + REFLECTION_END + "\n";
  }

  /** What a block leaves behind it. */
  function BehindNewline(t: string): string {
    if StartsWith(t, "\n") then t[1..] else t
  }

  /** A block goes up to the first end, with the newline behind it. */
  lemma BlockSkips(u: string)
    requires Contains(u, REFLECTION_END)
    ensures MatchBlock(REFLECTION + u) == Some(BehindNewline(Cut(u, REFLECTION_END).value.1))
  {
    assert (REFLECTION + u)[..|REFLECTION|] == REFLECTION && (REFLECTION + u)[|REFLECTION|..] == u;
  }

  lemma BlockMatches(r: string)
    requires !Contains(r, REFLECTION_END)
    ensures MatchBlock(Lead(Closing(r))) == Some("")
  {
    InsideFree(r);
    LeadInside(r);
    CutFree(Inside(r), REFLECTION_END, "\n");
    BlockSkips(Inside(r) + REFLECTION_END + "\n");
  }

  /** Blocks are looked for behind a text without comments. */
  lemma StripBehind(front: string, u: string)
    requires Free(front, OPEN)
    ensures StripBlocks(front + u) == front + StripBlocks(u)
  {
    BlockOpens();
    ScanSkip(front, u, MatchBlock, OPEN);
    var found := Scan(u, MatchBlock);
    if found.Some? { Assoc(front, found.value.0, StripBlocks(found.value.1)); }
  }

  lemma NothingToStrip(t: string)
    requires Free(t, OPEN)
    ensures StripBlocks(t) == t
  {
    BlockOpens();
    ScanNothing(t, MatchBlock, OPEN);
  }

  lemma ClosedBlockStripped(r: string)
    requires !Contains(r, REFLECTION_END)
    ensures StripBlocks(Lead(Closing(r))) == ""
  {
    BlockMatches(r);
    ScanHere(Lead(Closing(r)), MatchBlock);
    FreeLetters("", OPEN);
    NothingToStrip("");
  }

  lemma BlocksStripped(s: Section)
    requires Readable(s)
    ensures StripBlocks(Body(s)) == s.base + (if s.reflection.Some? then "\n" else "")
  {
    if s.reflection.None? {
      assert Body(s) == s.base;
      NothingToStrip(s.base);
    } else {
      var r := s.reflection.value;
      BodyWithBlock(s);
      StripBehind(s.base + "\n", Lead(Closing(r)));
      ClosedBlockStripped(r);
    }
  }

  lemma NewBodyIsEdited(s: Section, reflection: string)
    requires Readable(s)
    ensures NewBody(Body(s), reflection) == Body(Edited(s, PyStrip(reflection)))
  {
    BlocksStripped(s);
    RStripBlanks(s.base, "\n", Newline);
    assert s.base + "" == s.base;
  }

  lemma FreeHasNone(s: string, p: string)
    requires Free(s, p) && p != ""
    ensures !Contains(s, p)
  {
    forall k | 0 <= k < |s| ensures !StartsWith(s[k..], p) {
      assert s + "" == s;
      if StartsWith(s[k..], p) { StartsMeansAgrees(s, "", k, p); }
    }
    CutNone(s, p);
  }

  /** Cutting newlines off the end of a base leaves it framed. */
  lemma EditedIsFramed(s: Section, r: string)
    requires Framed(s) && Trimmed(r, PySpace)
    ensures Framed(Edited(s, r))
  {
    var base := RStrip(s.base, Newline);
    var tail := RStripShape(s.base, Newline);
    if s.reflection.None? {
      FreeHasNone(s.base, OPEN);
    } else {
      FreeHasNone(s.base + "\n", OPEN);
      NoneInFront(s.base, "\n", OPEN);
    }
    NoneInFront(base, tail, OPEN);
    FreeClosed(base, '\n', OPEN);
  }

  // ----- Editing the entry -----

  /** Inject, from what the search found. */
  lemma InjectIs(t: string, id: string, agent: string, reflection: string)
    ensures Inject(t, id, agent, reflection) ==
            match Scan(t, Exactly(id, agent))
            case None => (t, false)
            case Some((before, (body, after))) => (before + Rewritten(id, agent, body, after, reflection), true)
  {}

  /** What the editor writes behind the opening of an entry with this body, up to the end of
      the file; the body may end too early. */
  function NewText(body: string, more: string, reflection: string): string {
    match Cut(body + (END_ENTRY + ("\n" + more)), END_ENTRY)
    case None => ""
    case Some((found, after)) => NewBody(found, reflection) + (END_ENTRY + after)
  }

  lemma InjectShifted(t: string, header: string, front: string, before: string, body: string, after: string,
                      id: string, agent: string, reflection: string)
    requires Scan(t, Exactly(id, agent)) == Shift(header, Shift(front, Some((before, (body, after)))))
    ensures Inject(t, id, agent, reflection)
            == (header + (front + (before + Rewritten(id, agent, body, after, reflection))), true)
  {
    InjectIs(t, id, agent, reflection);
    var w := Rewritten(id, agent, body, after, reflection);
    Assoc(front, before, w);
    Assoc(header, front + before, w);
  }

  /** A file is cut around section k of its log. */
  ghost predicate Splits(text: string, header: string, ss: seq<Section>, k: nat, front: string, more: string) {
    k < |ss| && text == header + LogText(ss) && front == LogText(ss[..k]) && more == LogText(ss[k + 1..])
  }

  /** The edit of the entry that was meant. */
  lemma InjectAt(text: string, header: string, ss: seq<Section>, k: nat, front: string, more: string,
                 id: string, agent: string, reflection: string)
    requires Free(header, BEGIN) && PrintedUpTo(ss, id, agent) && IsId(id) && IsAgent(agent)
    requires Undisturbed(ss, id, agent) && k == FirstIndex(ss, id, agent) && Splits(text, header, ss, k, front, more)
    ensures var w := BeginLine(id, agent) + NewText(Body(ss[k]), more, reflection);
            Inject(text, id, agent, reflection) == (header + (front + ("\n" + w)), true)
  {
    SearchReaches(header, ss, k, id, agent);
    SectionIsFound(ss[k], more);
    var found := Cut(Body(ss[k]) + (END_ENTRY + ("\n" + more)), END_ENTRY).value;
    InjectShifted(text, header, front, "\n", found.0, found.1, id, agent, reflection);
  }

  /** The rewritten entry and what follows it, with the newline in front of it. */
  lemma NewTextIsSection(s: Section, more: string, reflection: string)
    requires Readable(s)
    ensures "\n" + (BeginLine(s.id, s.agent) + NewText(Body(s), more, reflection))
            == SectionText(Edited(s, PyStrip(reflection))) + more
  {
    NewBodyIsEdited(s, reflection);
    BodyCut(s, "\n" + more);
    SectionOpens(Edited(s, PyStrip(reflection)), more);
  }

  lemma InjectFound(text: string, header: string, ss: seq<Section>, k: nat, front: string, more: string,
                    id: string, agent: string, reflection: string)
    requires Free(header, BEGIN) && Findable(ss, id, agent) && IsId(id) && IsAgent(agent)
    requires k == FirstIndex(ss, id, agent) && Splits(text, header, ss, k, front, more)
    ensures Inject(text, id, agent, reflection)
            == (header + (front + (SectionText(Edited(ss[k], PyStrip(reflection))) + more)), true)
  {
    InjectAt(text, header, ss, k, front, more, id, agent, reflection);
    NewTextIsSection(ss[k], more, reflection);
  }

  lemma InjectFoundLog(header: string, ss: seq<Section>, id: string, agent: string, reflection: string,
                       text: string, once: string)
    requires Free(header, BEGIN) && Findable(ss, id, agent) && IsId(id) && IsAgent(agent) && HasEntry(ss, id, agent)
    requires text == LogText(ss) && once == LogText(EditFirst(ss, id, agent, PyStrip(reflection)))
    ensures Inject(header + text, id, agent, reflection) == (header + once, true)
  {
    var k, r := FirstIndex(ss, id, agent), PyStrip(reflection);
    InjectFound(header + text, header, ss, k, LogText(ss[..k]), LogText(ss[k + 1..]), id, agent, reflection);
    EditFirstIs(ss, id, agent, r);
    LogTextAt(ss, k, Edited(ss[k], r));
  }

  /** The editor edits the first section of that id and agent and leaves every other one as
      it is, whatever the new reflection and the later sections contain. */
  lemma InjectLog(header: string, ss: seq<Section>, id: string, agent: string, reflection: string)
    requires Free(header, BEGIN) && Findable(ss, id, agent) && IsId(id) && IsAgent(agent)
    ensures Inject(header + LogText(ss), id, agent, reflection)
            == (header + LogText(EditFirst(ss, id, agent, PyStrip(reflection))), HasEntry(ss, id, agent))
  {
    var once := EditFirst(ss, id, agent, PyStrip(reflection));
    if HasEntry(ss, id, agent) {
      InjectFoundLog(header, ss, id, agent, reflection, LogText(ss), LogText(once));
    } else {
      EditFirstIs(ss, id, agent, PyStrip(reflection));
      UndisturbedFinds(header, ss, id, agent);
      InjectIs(header + LogText(ss), id, agent, reflection);
    }
  }

  /** When a field or a reflection in front of the entry does quote its opening, the first
      section with a quote takes the edit: it is reported as done, the new block stands in that
      section, and everything in front of it and behind it, the entry that was meant included,
      is left as it was. */
  lemma QuotedOpeningMisleads(header: string, ss: seq<Section>, id: string, agent: string, reflection: string)
    returns (j: nat, edited: string)
    requires Free(header, BEGIN) && PrintedUpTo(ss, id, agent) && IsId(id) && IsAgent(agent)
    requires !Undisturbed(ss, id, agent)
    ensures j < FirstIndex(ss, id, agent) && QuotesIn(ss[j], id, agent)
    ensures Contains(edited, ReflectionBlock(PyStrip(reflection)))
    ensures Inject(header + LogText(ss), id, agent, reflection)
            == (header + (LogText(ss[..j]) + (edited + LogText(ss[j + 1..]))), true)
  {
    var before, body, after;
    j, before, body, after := DisturbedFinds(header, ss, id, agent);
    var front, more := LogText(ss[..j]), LogText(ss[j + 1..]);
    InjectIs(header + LogText(ss), id, agent, reflection);
    var line, text := BeginLine(id, agent), NewBody(body, reflection);
    var entry := line + (text + (END_ENTRY + (after + "\n")));
    edited := before + entry;
    PullOut(line, text, after, more);
    Regathered(header, front, before, entry, more);
    HoldsBlock(before, line, RStrip(StripBlocks(body), Newline), ReflectionBlock(PyStrip(reflection)),
               END_ENTRY + (after + "\n"));
  }

  lemma HoldsBlock(before: string, line: string, kept: string, block: string, tail: string)
    ensures Contains(before + (line + (kept + block + tail)), block)
  {
    StartsInside(before + line, kept, block, tail);
    Assoc(kept, block, tail);
    Assoc(before, line, kept + block + tail);
  }

  /** A quote in the thesis of one advice is enough: the reflection for the next advice goes
      into the entry of the first. */
  lemma QuotedThesisMisleads(e1: Entry, e2: Entry, reflection: string) returns (edited: string)
    requires IsId(e1.adviceId) && IsId(e2.adviceId) && IsAgent(e2.agent)
    requires e1.agent == e2.agent && e1.adviceId != e2.adviceId
    requires Quotes(PyStrip(e1.thesis), e2.adviceId, e2.agent)
    ensures Contains(edited, ReflectionBlock(PyStrip(reflection)))
    ensures Inject(HeaderFor(e2.agent) + (RenderEntry(e1) + RenderEntry(e2)), e2.adviceId, e2.agent, reflection)
            == (HeaderFor(e2.agent) + (edited + RenderEntry(e2)), true)
  {
    var s1, s2 := SectionOf(e1), SectionOf(e2);
    EntryIsPrinted(e1);
    EntryIsPrinted(e2);
    ThesisQuotes(e1, e2.adviceId, e2.agent);
    HeaderFree(e2.agent);
    LogOfTwo(s1, s2);
    edited := FirstOfTwoMisleads(HeaderFor(e2.agent), s1, s2, reflection);
  }

  lemma FirstOfTwoMisleads(header: string, s1: Section, s2: Section, reflection: string) returns (edited: string)
    requires Free(header, BEGIN) && Printed(s1) && Printed(s2)
    requires s1.id != s2.id && QuotesIn(s1, s2.id, s2.agent)
    ensures Contains(edited, ReflectionBlock(PyStrip(reflection)))
    ensures Inject(header + LogText([s1, s2]), s2.id, s2.agent, reflection)
            == (header + (edited + SectionText(s2)), true)
  {
    var ss := [s1, s2];
    assert ss[1..] == [s2] && ss[..0] == [];
    assert FirstIndex(ss, s2.id, s2.agent) == 1;
    assert QuotesIn(ss[0], s2.id, s2.agent);
    var j;
    j, edited := QuotedOpeningMisleads(header, ss, s2.id, s2.agent, reflection);
    LogOfTwo(s1, s2);
    assert "" + (edited + SectionText(s2)) == edited + SectionText(s2);
  }

  lemma LogOfTwo(s1: Section, s2: Section)
    ensures LogText([s1, s2]) == SectionText(s1) + SectionText(s2) && LogText([s2]) == SectionText(s2)
  {
    assert [s1, s2][1..] == [s2] && [s2][1..] == [];
    assert LogText([s2]) == SectionText(s2) + LogText([]);
    assert SectionText(s2) + "" == SectionText(s2);
  }

  lemma Regathered(header: string, front: string, before: string, entry: string, more: string)
    ensures header + (front + before) + (entry + more) == header + (front + (before + entry + more))
  {
    Assoc(header, front + before, entry + more);
    Assoc(front, before, entry + more);
    Assoc(before, entry, more);
  }

  lemma PullOut(line: string, text: string, after: string, more: string)
    ensures line + (text + (END_ENTRY + (after + ("\n" + more))))
            == line + (text + (END_ENTRY + (after + "\n"))) + more
  {
    Assoc(after, "\n", more);
    Assoc(END_ENTRY, after + "\n", more);
    Assoc(text, END_ENTRY + (after + "\n"), more);
    Assoc(line, text + (END_ENTRY + (after + "\n")), more);
  }

  // ----- What attaching means for a reader of the log -----

  lemma EditedIsClean(s: Section, r: string)
    requires Clean(s) && Trimmed(r, PySpace) && Harmless(r)
    ensures Clean(Edited(s, r))
  {
    EditedIsFramed(s, r);
  }

  lemma EditKeepsClean(ss: seq<Section>, id: string, agent: string, r: string)
    requires AllClean(ss) && Trimmed(r, PySpace) && Harmless(r)
    ensures AllClean(EditFirst(ss, id, agent, r))
  {
    EditFirstIs(ss, id, agent, r);
    var k := FirstIndex(ss, id, agent);
    if k < |ss| {
      assert ss[k] in ss;
      EditedIsClean(ss[k], r);
    }
  }

  // ----- Which reflections are read back -----

  lemma {:induction false} FindBehind(ss: seq<Section>, rest: string)
    requires AllReadable(ss)
    ensures FindAll(LogText(ss) + rest) == FindAll(LogText(ss)) + FindAll(rest)
    decreases |ss|
  {
    if ss == [] {
      assert LogText(ss) + rest == rest;
      ScanNothingToFind();
    } else {
      var s, more := ss[0], LogText(ss[1..]);
      assert s in ss;
      FindBehind(ss[1..], rest);
      FindSection(s, more + rest);
      FindSection(s, more);
      Assoc(SectionText(s), more, rest);
      Prepend(Found(s.id, s.agent, Body(s)), FindAll(more), FindAll(rest));
    }
  }

  lemma Prepend(f: Found, a: seq<Found>, b: seq<Found>)
    ensures [f] + (a + b) == [f] + a + b
  {}

  lemma ScanNothingToFind()
    ensures FindAll("") == []
  {
    FreeLetters("", BEGIN);
    ScanNothing("", MatchEntry, BEGIN);
  }

  /** With an end-of-entry delimiter in the reflection the entry ends there. */
  lemma CutShortBody(e: Section, behind: string)
    requires Framed(e) && e.reflection.Some? && Contains(e.reflection.value, END_ENTRY)
    ensures var (a, b) := Cut(e.reflection.value, END_ENTRY).value;
            Cut(Body(e) + (END_ENTRY + behind), END_ENTRY)
            == Some((e.base + "\n" + Lead(a), b + (BLOCK_END + (END_ENTRY + behind))))
  {
    var r := e.reflection.value;
    var a := Cut(r, END_ENTRY).value.0;
    var tail := BLOCK_END + (END_ENTRY + behind);
    CutExtend(r, END_ENTRY, tail);
    Delimiters();
    FrontFree(e, END_ENTRY);
    CutSkip(Front(e), r + tail, END_ENTRY);
    FrontLead(e, a);
    BodyBehind(e, behind);
  }

  lemma CutShort(e: Section, behind: string)
    requires Framed(e) && e.reflection.Some? && Contains(e.reflection.value, END_ENTRY)
    ensures var a := Cut(e.reflection.value, END_ENTRY).value.0;
            && MatchEntry(Opened(e, behind)).Some?
            && MatchEntry(Opened(e, behind)).value.0 == Found(e.id, e.agent, e.base + "\n" + Lead(a))
  {
    CutShortBody(e, behind);
    BeginLineReads(e.id, e.agent, Body(e) + (END_ENTRY + behind));
  }

  lemma StripShorter(t: string)
    ensures |PyStrip(t)| <= |t|
  {
    var head, tail := StripShape(t, PySpace);
  }

  /** What is read from a block cut short is shorter than the reflection was. */
  lemma ShortBlockReads(base: string, a: string, r: string)
    requires Free(base, OPEN) && |a| + |END_ENTRY| <= |r|
    ensures ReflectionOf(base + Lead(a)) != Some(r)
  {
    ReflectionOpens();
    ScanSkip(base, Lead(a), MatchReflection, OPEN);
    var found := Scan(Lead(a), MatchReflection);
    if found.Some? {
      StripShorter(found.value.1);
      assert |found.value.1| + |REFLECTION| + |LABEL| + |REFLECTION_END| <= |Lead(a)[|found.value.0|..]|;
    }
  }

  lemma OpenBlockReads(base: string, r: string)
    requires Free(base, OPEN) && Trimmed(r, PySpace) && Contains(r, REFLECTION_END)
    ensures ReflectionOf(base + Lead(Closing(r))) != Some(r)
  {
    var a := Cut(r, REFLECTION_END).value.0;
    CutExtend(r, REFLECTION_END, "\n" + (REFLECTION_END + "\n"));
    assert r != "" && Closing(r)[0] == r[0];
    assert LStrip(Closing(r), PySpace) == Closing(r);
    BlockReads(base, Closing(r));
    StripShorter(a);
  }

  /** The first entry read from a section: its reflection comes back exactly when neither
      delimiter stands in it. */
  lemma SectionReadsBack(e: Section, more: string)
    requires Framed(e) && e.reflection.Some?
    ensures var found := FindAll(SectionText(e) + more);
            found != [] && (ReflectionOf(found[0].body) == e.reflection <==> Closed(e.reflection.value))
  {
    var r := e.reflection.value;
    if Contains(r, END_ENTRY) {
      Delimiters();
      LabelFree(BEGIN);
      SectionOpens(e, more);
      FindSkip("\n", Opened(e, "\n" + more));
      CutShort(e, "\n" + more);
      ScanHere(Opened(e, "\n" + more), MatchEntry);
      ShortBlockReads(e.base + "\n", Cut(r, END_ENTRY).value.0, r);
    } else {
      FindSection(e, more);
      if Contains(r, REFLECTION_END) {
        BodyWithBlock(e);
        OpenBlockReads(e.base + "\n", r);
      } else {
        ReadsReflection(e);
      }
    }
  }

  lemma ParsedAt(text: string)
    ensures |ParseEntries(text)| == |FindAll(text)|
    ensures forall k :: 0 <= k < |FindAll(text)| ==> ParseEntries(text)[k] == Summarize(FindAll(text)[k])
  {}

  /** The file behind an edited entry. */
  lemma EditedFile(header: string, ss: seq<Section>, id: string, agent: string, reflection: string)
    returns (front: seq<Section>, e: Section, more: string)
    requires Free(header, BEGIN) && Findable(ss, id, agent) && IsId(id) && IsAgent(agent) && HasEntry(ss, id, agent)
    requires AllReadable(ss[..FirstIndex(ss, id, agent)])
    ensures Inject(header + LogText(ss), id, agent, reflection).0
            == header + (LogText(front) + (SectionText(e) + more))
    ensures AllReadable(front) && |front| == FirstIndex(ss, id, agent)
    ensures Framed(e) && e.reflection == Some(PyStrip(reflection))
  {
    var k, r := FirstIndex(ss, id, agent), PyStrip(reflection);
    front, e, more := ss[..k], Edited(ss[k], r), LogText(ss[k + 1..]);
    InjectLog(header, ss, id, agent, reflection);
    EditFirstIs(ss, id, agent, r);
    LogTextAt(ss, k, e);
    var head, tail := StripShape(reflection, PySpace);
    EditedIsFramed(ss[k], r);
  }

  /** A reflection that was attached is read back, stripped, at the place of its entry exactly
      when it contains neither the end-of-entry nor the end-of-reflection delimiter. */
  lemma ReadBackIsExact(header: string, ss: seq<Section>, id: string, agent: string, reflection: string)
    requires Free(header, BEGIN) && Findable(ss, id, agent) && IsId(id) && IsAgent(agent) && HasEntry(ss, id, agent)
    requires AllReadable(ss[..FirstIndex(ss, id, agent)])
    ensures var k := FirstIndex(ss, id, agent);
            var after := ParseEntries(Inject(header + LogText(ss), id, agent, reflection).0);
            && k < |after|
            && (after[k].reflection == Some(PyStrip(reflection)) <==> Closed(PyStrip(reflection)))
  {
    var front, e, more := EditedFile(header, ss, id, agent, reflection);
    SectionReadsBack(e, more);
    FindBehind(front, SectionText(e) + more);
    FindLog(front);
    var log := LogText(front) + (SectionText(e) + more);
    FindSkip(header, log);
    ParsedAt(header + log);
    var found := FindAll(SectionText(e) + more);
    assert (FindAll(LogText(front)) + found)[|front|] == found[0];
  }

  lemma ShownUpdate(ss: seq<Section>, k: nat, e: Section)
    requires k < |ss|
    ensures ShownAll(ss[k := e]) == ShownAll(ss)[k := Shown(e)]
  {}

  lemma EditKeepsReadable(ss: seq<Section>, id: string, agent: string, r: string)
    requires AllReadable(ss) && Trimmed(r, PySpace) && Closed(r)
    ensures AllReadable(EditFirst(ss, id, agent, r))
  {
    EditFirstIs(ss, id, agent, r);
    var k := FirstIndex(ss, id, agent);
    if k < |ss| {
      assert ss[k] in ss;
      EditedIsFramed(ss[k], r);
    }
  }

  /** Attaching a reflection that can be read back changes the reflection of one entry, and
      nothing else a reader sees except the text of that entry. */
  lemma AttachReadsBack(header: string, ss: seq<Section>, id: string, agent: string, reflection: string)
    requires Free(header, BEGIN) && AllReadable(ss) && IsId(id) && IsAgent(agent) && HasEntry(ss, id, agent)
    requires Undisturbed(ss, id, agent) && Closed(PyStrip(reflection))
    ensures var k := FirstIndex(ss, id, agent);
            var shown := ParseEntries(header + LogText(ss));
            var after := ParseEntries(Inject(header + LogText(ss), id, agent, reflection).0);
            && k < |shown| == |after| && after == shown[k := after[k]]
            && after[k].adviceId == id && after[k].agent == agent
            && after[k].reflection == Some(PyStrip(reflection))
  {
    var k, r := FirstIndex(ss, id, agent), PyStrip(reflection);
    var head, tail := StripShape(reflection, PySpace);
    assert forall j :: 0 <= j < |ss| ==> ss[j] in ss;
    InjectLog(header, ss, id, agent, reflection);
    EditFirstIs(ss, id, agent, r);
    EditKeepsReadable(ss, id, agent, r);
    ParseLog(header, ss);
    ParseLog(header, EditFirst(ss, id, agent, r));
    ShownUpdate(ss, k, Edited(ss[k], r));
  }
}
