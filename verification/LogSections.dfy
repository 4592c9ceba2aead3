/** A decision log as a header and a list of sections, and why the printer, the parser and
    the editor agree on it. */
module LogSections {
  import opened Basics
  import opened Text
  import opened Scanner
  import opened LogMarkup
  import opened LogFormat

  /** One entry of a log file: what stands in front of its reflection, and the reflection. */
  datatype Section = Section(id: string, agent: string, base: string, reflection: Option<string>)

  function Block(s: Section): string {
    match s.reflection case None => "" case Some(r) => ReflectionBlock(r)
  }

  function Body(s: Section): string {
    s.base + Block(s)
  }

  function SectionText(s: Section): string {
    "\n" + (BeginLine(s.id, s.agent) + (Body(s) + (END_ENTRY + "\n")))
  }

  /** A section from its opening on, with what stands behind its end. */
  function Opened(s: Section, behind: string): string {
    BeginLine(s.id, s.agent) + (Body(s) + (END_ENTRY + behind))
  }

  lemma SectionOpens(s: Section, more: string)
    ensures SectionText(s) + more == "\n" + Opened(s, "\n" + more)
  {
    var line, body := BeginLine(s.id, s.agent), Body(s);
    assert "\n" + (line + (body + (END_ENTRY + "\n"))) + more == "\n" + (line + (body + (END_ENTRY + ("\n" + more))));
  }

  function LogText(ss: seq<Section>): string {
    if ss == [] then "" else SectionText(ss[0]) + LogText(ss[1..])
  }

  predicate NewlineEnded(t: string) {
    t != "" && t[|t| - 1] == '\n'
  }

  /** What printing guarantees, whatever stands in the fields: names as the entry pattern can
      read them, and a newline in front of the end or of the block. */
  predicate Printed(s: Section) {
    IsId(s.id) && IsAgent(s.agent) && (s.reflection.None? ==> NewlineEnded(s.base))
  }

  /** No comment opens in front of the reflection block. */
  ghost predicate Framed(s: Section) {
    && Printed(s)
    && match s.reflection
       case None => Free(s.base, OPEN)
       case Some(r) => Free(s.base + "\n", OPEN) && Trimmed(r, PySpace)
  }

  ghost predicate Readable(s: Section) {
    Framed(s) && (s.reflection.Some? ==> Closed(s.reflection.value))
  }

  /** Neither of the two delimiters that end what the parser is reading. */
  predicate Closed(r: string) {
    !Contains(r, END_ENTRY) && !Contains(r, REFLECTION_END)
  }

  /** The reflection can be read back and does not quote the opening of an entry. */
  predicate Harmless(r: string) {
    Closed(r) && Unquoting(r)
  }

  ghost predicate Clean(s: Section) {
    Framed(s) && (s.reflection.Some? ==> Harmless(s.reflection.value))
  }

  ghost predicate AllReadable(ss: seq<Section>) {
    forall s :: s in ss ==> Readable(s)
  }

  ghost predicate AllClean(ss: seq<Section>) {
    forall s :: s in ss ==> Clean(s)
  }

  // ----- Which delimiters cannot start where -----

  lemma ContainsNarrow(s: string, p: string, q: string)
    requires StartsWith(q, p) && q != "" && Contains(s, q)
    ensures Contains(s, p)
  {
    if !Contains(s, p) {
      CutIsFirst(s, p);
      forall k | 0 <= k < |s| ensures !StartsWith(s[k..], q) {
        if StartsWith(s[k..], q) { PrefixOfPrefix(s[k..], p, q); }
      }
      CutNone(s, q);
    }
  }

  lemma PrefixOfPrefix(t: string, p: string, q: string)
    requires StartsWith(q, p) && StartsWith(t, q)
    ensures StartsWith(t, p)
  {
    assert t[..|p|] == t[..|q|][..|p|];
  }

  /** A reflection in which no comment opens is harmless. */
  lemma CommentFreeIsHarmless(r: string)
    requires !Contains(r, OPEN)
    ensures Harmless(r)
  {
    Delimiters();
    if Contains(r, END_ENTRY) { ContainsNarrow(r, OPEN, END_ENTRY); }
    if Contains(r, REFLECTION_END) { ContainsNarrow(r, OPEN, REFLECTION_END); }
    CutIsFirst(r, OPEN);
    forall p | 0 <= p <= |r| ensures MatchBegin(r[p..]).None? {
      if MatchBegin(r[p..]).Some? { PrefixOfPrefix(r[p..], OPEN, BEGIN); }
    }
  }

  /** Delimiters the body of a section must not run into. */
  ghost predicate Outer(p: string) {
    IsDelimiter(p) && p[5] != 'r' && p[5] != '/'
  }

  lemma LabelFree(p: string)
    requires p != "" && p[0] == '<'
    ensures Free("\n", p) && Free(" ", p) && Free(LABEL, p)
  {
    FreeLetters("\n", p);
    FreeLetters(" ", p);
    FreeLetters(LABEL, p);
  }

  lemma LeadFree(u: string, p: string)
    requires Outer(p) && Free(u, p)
    ensures Free(Lead(u), p)
  {
    Delimiters();
    LabelFree(p);
    FreeConcat(" ", u, p);
    FreeConcat(LABEL, " " + u, p);
    FreeConcat("\n", LABEL + (" " + u), p);
    DelimitersApart(REFLECTION, p);
    FreeConcat(REFLECTION, "\n" + (LABEL + (" " + u)), p);
  }

  lemma ClosingSplit(r: string)
    ensures Closing(r) == r + "\n" + (REFLECTION_END + "\n")
    ensures Closing(r) == r + "\n" + REFLECTION_END + "\n"
  {}

  lemma ClosingFree(r: string, p: string)
    requires Outer(p) && !Contains(r, p)
    ensures Free(Closing(r), p)
  {
    Delimiters();
    LabelFree(p);
    FreeClosed(r, '\n', p);
    DelimitersApart(REFLECTION_END, p);
    FreeConcat(REFLECTION_END, "\n", p);
    FreeConcat(r + "\n", REFLECTION_END + "\n", p);
    ClosingSplit(r);
  }

  lemma BodyWithBlock(s: Section)
    requires s.reflection.Some?
    ensures Body(s) == s.base + "\n" + Lead(Closing(s.reflection.value))
  {
    Assoc(s.base, "\n", Lead(Closing(s.reflection.value)));
  }

  lemma BodyFree(s: Section, p: string)
    requires Framed(s) && Outer(p) && (s.reflection.Some? ==> !Contains(s.reflection.value, p))
    ensures Free(Body(s), p)
  {
    match s.reflection
    case None =>
      FreeNarrow(s.base, OPEN, p);
      assert Body(s) == s.base;
    case Some(r) =>
      ClosingFree(r, p);
      LeadFree(Closing(r), p);
      FreeNarrow(s.base + "\n", OPEN, p);
      FreeConcat(s.base + "\n", Lead(Closing(r)), p);
      BodyWithBlock(s);
  }

  /** A name has no space, and the delimiter has one in front of its "B". */
  lemma NameStart(name: string, next: string, k: nat)
    requires All(name, IdChar) && next != "" && next[0] != 'B' && k <= |name|
    ensures !AgreesAt(name + (" " + next), k, BEGIN)
  {
    var t := name + (" " + next);
    assert PySpace(' ') && t[|name|] == ' ' && t[|name| + 1] == next[0];
    if k + 4 > |name| {
      assert t[k + (|name| - k)] != BEGIN[|name| - k];
    } else if k + 4 < |name| {
      assert t[k + 4] in name;
      assert t[k + 4] != BEGIN[4];
    } else {
      assert t[k + 5] != BEGIN[5];
    }
  }

  lemma NameFree(name: string, next: string)
    requires All(name, IdChar) && next != "" && next[0] != 'B' && Free(next, BEGIN)
    ensures Free(name + (" " + next), BEGIN)
  {
    var t := name + (" " + next);
    assert t == name + " " + next;
    forall k: nat | k < |t| ensures !AgreesAt(t, k, BEGIN) {
      if k <= |name| {
        NameStart(name, next, k);
      } else if AgreesAt(t, k, BEGIN) {
        AgreesRight(name + " ", next, k - |name + " "|, BEGIN);
      }
    }
  }

  /** Behind its first character the opening of an entry holds no other opening. */
  lemma BeginLineTail(id: string, agent: string) returns (tail: string)
    requires IsId(id) && IsAgent(agent)
    ensures BeginLine(id, agent) == ['<'] + tail && Free(tail, BEGIN)
  {
    FreeLetters(BEGIN[1..], BEGIN);
    FreeLetters(AGENT, BEGIN);
    FreeLetters(CLOSE, BEGIN);
    NameFree(agent, CLOSE);
    var named := AGENT + (agent + (" " + CLOSE));
    FreeConcat(AGENT, agent + (" " + CLOSE), BEGIN);
    NameFree(id, named);
    tail := BEGIN[1..] + (id + (" " + named));
    FreeConcat(BEGIN[1..], id + (" " + named), BEGIN);
    assert BEGIN == ['<'] + BEGIN[1..];
    assert BeginLine(id, agent) == BEGIN + (id + (" " + named));
  }

  lemma BeginLineWritten(id: string, agent: string, rest: string)
    ensures BeginLine(id, agent) + rest == Written(id, " ", agent, " ", rest)
  {}

  lemma BeginLineReads(id: string, agent: string, rest: string)
    requires IsId(id) && IsAgent(agent)
    ensures MatchBegin(BeginLine(id, agent) + rest) == Some(Opening(id, agent, rest))
  {
    BeginLineWritten(id, agent, rest);
    BeginReads(id, " ", agent, " ", rest);
  }

  // ----- Parsing a log -----

  lemma FindSkip(s: string, t: string)
    requires Free(s, BEGIN)
    ensures FindAll(s + t) == FindAll(t)
  {
    ScanSkip(s, t, MatchEntry, BEGIN);
  }

  lemma BodyCut(s: Section, more: string)
    requires Framed(s) && (s.reflection.Some? ==> !Contains(s.reflection.value, END_ENTRY))
    ensures Cut(Body(s) + (END_ENTRY + more), END_ENTRY) == Some((Body(s), more))
  {
    Delimiters();
    BodyFree(s, END_ENTRY);
    var body := Body(s);
    CutFree(body, END_ENTRY, more);
    assert body + END_ENTRY + more == body + (END_ENTRY + more);
  }

  lemma SectionMatches(s: Section, more: string)
    requires Framed(s) && (s.reflection.Some? ==> !Contains(s.reflection.value, END_ENTRY))
    ensures MatchEntry(Opened(s, more)) == Some((Found(s.id, s.agent, Body(s)), more))
  {
    BodyCut(s, more);
    BeginLineReads(s.id, s.agent, Body(s) + (END_ENTRY + more));
  }

  lemma FindSection(s: Section, more: string)
    requires Framed(s) && (s.reflection.Some? ==> !Contains(s.reflection.value, END_ENTRY))
    ensures FindAll(SectionText(s) + more) == [Found(s.id, s.agent, Body(s))] + FindAll(more)
  {
    Delimiters();
    LabelFree(BEGIN);
    var t := Opened(s, "\n" + more);
    SectionOpens(s, more);
    FindSkip("\n", t);
    SectionMatches(s, "\n" + more);
    ScanHere(t, MatchEntry);
    FindSkip("\n", more);
  }

  // ----- Reading a reflection -----

  lemma LeadReads(u: string)
    ensures MatchReflection(Lead(u)) ==
            (match Cut(LStrip(u, PySpace), REFLECTION_END) case None => None case Some((v, w)) => Some(v))
  {
    var labelled := LABEL + (" " + u);
    assert Lead(u)[..|REFLECTION|] == REFLECTION && Lead(u)[|REFLECTION|..] == "\n" + labelled;
    StripLead("\n", labelled);
    assert labelled[..|LABEL|] == LABEL && labelled[|LABEL|..] == " " + u;
    LStripBlanks(" ", u, PySpace);
  }

  /** What the parser cuts out of a printed block is the reflection and perhaps a newline. */
  lemma ClosingReads(r: string)
    requires Trimmed(r, PySpace) && !Contains(r, REFLECTION_END)
    ensures var v := Cut(LStrip(Closing(r), PySpace), REFLECTION_END);
            v.Some? && PyStrip(v.value.0) == r
  {
    Delimiters();
    var tail := REFLECTION_END + "\n";
    if r == "" {
      StripLead("\n", tail);
      assert Closing(r) == "\n" + tail;
      CutFree("", REFLECTION_END, "\n");
      assert "" + REFLECTION_END + "\n" == tail;
    } else {
      assert Closing(r)[0] == r[0];
      FreeClosed(r, '\n', REFLECTION_END);
      CutFree(r + "\n", REFLECTION_END, "\n");
      ClosingSplit(r);
      StripPadded("", r, "\n", PySpace);
      assert "" + r + "\n" == r + "\n";
    }
  }

  lemma ReflectionOpens()
    ensures Opens(MatchReflection, OPEN)
  {
    Delimiters();
    forall x | MatchReflection(x).Some? ensures StartsWith(x, OPEN) { PrefixOfPrefix(x, OPEN, REFLECTION); }
  }

  /** The first block is the one the parser reads, if it is closed. */
  lemma BlockReads(base: string, u: string)
    requires Free(base, OPEN) && Contains(LStrip(u, PySpace), REFLECTION_END)
    ensures ReflectionOf(base + Lead(u)) == Some(PyStrip(Cut(LStrip(u, PySpace), REFLECTION_END).value.0))
  {
    ReflectionOpens();
    LeadReads(u);
    ScanSkip(base, Lead(u), MatchReflection, OPEN);
    ScanHere(Lead(u), MatchReflection);
  }

  lemma ReadsReflection(s: Section)
    requires Readable(s)
    ensures ReflectionOf(Body(s)) == s.reflection
  {
    match s.reflection
    case None =>
      ReflectionOpens();
      assert Body(s) == s.base;
      ScanNothing(s.base, MatchReflection, OPEN);
    case Some(r) =>
      BodyWithBlock(s);
      ClosingReads(r);
      BlockReads(s.base + "\n", Closing(r));
  }

  // ----- Printing, then parsing -----

  function Shown(s: Section): Summary {
    Summary(s.id, s.agent, PyStrip(Body(s)), s.reflection)
  }

  function ShownAll(ss: seq<Section>): seq<Summary> {
    seq(|ss|, i requires 0 <= i < |ss| => Shown(ss[i]))
  }

  lemma {:induction false} FindLog(ss: seq<Section>)
    requires AllReadable(ss)
    ensures |FindAll(LogText(ss))| == |ss|
    ensures forall i :: 0 <= i < |ss| ==> FindAll(LogText(ss))[i] == Found(ss[i].id, ss[i].agent, Body(ss[i]))
    decreases |ss|
  {
    if ss == [] {
      ScanNothing("", MatchEntry, BEGIN);
    } else {
      assert ss[0] in ss;
      FindSection(ss[0], LogText(ss[1..]));
      FindLog(ss[1..]);
    }
  }

  /** Parsing a log gives back its entries, in order, with their stripped reflections. */
  lemma ParseLog(header: string, ss: seq<Section>)
    requires Free(header, BEGIN) && AllReadable(ss)
    ensures ParseEntries(header + LogText(ss)) == ShownAll(ss)
  {
    FindSkip(header, LogText(ss));
    FindLog(ss);
    forall i | 0 <= i < |ss| ensures ParseEntries(header + LogText(ss))[i] == Shown(ss[i]) {
      assert ss[i] in ss;
      ReadsReflection(ss[i]);
    }
  }

  // ----- What the printer writes is a section -----

  function SectionOf(e: Entry): Section {
    Section(e.adviceId, e.agent, BaseText(e), if HasReflection(e) then Some(PyStrip(e.reflection.value)) else None)
  }

  /** Fields without a comment delimiter, or a harmless reflection; names as the entry pattern
      can read them. */
  ghost predicate EntryClean(e: Entry) {
    && IsId(e.adviceId) && IsAgent(e.agent)
    && !Contains(e.issuedAt, OPEN) && !Contains(e.rating, OPEN) && !Contains(e.thesis, OPEN)
    && (forall u :: u in e.evidenceUrls ==> !Contains(u, OPEN))
    && (HasReflection(e) ==> Harmless(PyStrip(e.reflection.value)))
  }

  lemma RenderIsSection(e: Entry)
    ensures RenderEntry(e) == SectionText(SectionOf(e))
  {
    var line, base, block := "\n" + BeginLine(e.adviceId, e.agent), BaseText(e), Block(SectionOf(e));
    assert RenderEntry(e) == line + base + block + END_ENTRY + "\n";
    EntryRegrouped(line, base, block, END_ENTRY, "\n");
    Assoc("\n", BeginLine(e.adviceId, e.agent), base + block + (END_ENTRY + "\n"));
  }

  lemma EntryRegrouped(line: string, base: string, block: string, end: string, last: string)
    ensures line + base + block + end + last == line + (base + block + (end + last))
  {
    Assoc(line, base, block);
    Assoc(line, base + block, end);
    Assoc(line, base + block + end, last);
    Assoc(base + block, end, last);
  }

  lemma EvidenceEnds(urls: seq<string>)
    ensures Evidence(urls) == "" || NewlineEnded(Evidence(urls))
  {}

  lemma EndsBehind(a: string, b: string)
    requires NewlineEnded(b)
    ensures NewlineEnded(a + b)
  {}

  lemma BaseEnds(e: Entry)
    ensures NewlineEnded(BaseText(e))
  {
    EvidenceEnds(e.evidenceUrls);
    var lines := "\n" + Evidence(e.evidenceUrls);
    EndsBehind(PyStrip(e.thesis), lines);
    var text := "\n" + ("\n" + (PyStrip(e.thesis) + lines));
    EndsBehind(e.rating, text);
    EndsBehind("\U{2014} ", e.rating + text);
    EndsBehind(" ", "\U{2014} " + (e.rating + text));
    EndsBehind(e.issuedAt, " " + ("\U{2014} " + (e.rating + text)));
    EndsBehind("\n## ", e.issuedAt + (" " + ("\U{2014} " + (e.rating + text))));
  }

  /** Every entry with readable names is printed as a section, whatever its other fields are. */
  lemma EntryIsPrinted(e: Entry)
    requires IsId(e.adviceId) && IsAgent(e.agent)
    ensures Printed(SectionOf(e)) && RenderEntry(e) == SectionText(SectionOf(e))
  {
    RenderIsSection(e);
    BaseEnds(e);
  }

  lemma ContainsMore(head: string, s: string, tail: string, p: string)
    requires Contains(s, p)
    ensures Contains(head + s + tail, p)
  {
    var before, after := Cut(s, p).value.0, Cut(s, p).value.1;
    StartsInside(head, before, p, after + tail);
    Assoc(head, s, tail);
    Assoc(before, p, after);
    Assoc(before, p + after, tail);
    Assoc(p, after, tail);
  }

  lemma StartsInside(head: string, before: string, p: string, after: string)
    ensures Contains(head + (before + (p + after)), p)
  {
    var t := head + (before + (p + after));
    CutIsFirst(t, p);
    assert t[|head| + |before|..] == p + after;
    if p == "" { CutEmpty(t); }
  }

  lemma StripClean(t: string, p: string)
    requires p != "" && !Contains(t, p)
    ensures !Contains(PyStrip(t), p) && Trimmed(PyStrip(t), PySpace)
  {
    var head, tail := StripShape(t, PySpace);
    if Contains(PyStrip(t), p) { ContainsMore(head, PyStrip(t), tail, p); }
  }

  /** A field, the character printed behind it, and something free of comments. */
  lemma FieldFree(field: string, sep: string, rest: string)
    requires !Contains(field, OPEN) && |sep| == 1 && sep[0] !in OPEN && Free(rest, OPEN)
    ensures Free(field + (sep + rest), OPEN)
  {
    FreeClosed(field, sep[0], OPEN);
    FreeConcat(field + [sep[0]], rest, OPEN);
    assert field + [sep[0]] + rest == field + (sep + rest);
  }

  lemma LettersFree(letters: string, rest: string)
    requires '<' !in letters && Free(rest, OPEN)
    ensures Free(letters + rest, OPEN)
  {
    FreeLetters(letters, OPEN);
    FreeConcat(letters, rest, OPEN);
  }

  /** The lines of a block with a newline behind each of them. */
  function Ended(lines: seq<string>): string {
    if lines == [] then "" else lines[0] + ("\n" + Ended(lines[1..]))
  }

  lemma {:induction false} JoinEnded(lines: seq<string>)
    requires lines != []
    ensures Join(lines) + "\n" == Ended(lines)
    decreases |lines|
  {
    if |lines| > 1 {
      JoinEnded(lines[1..]);
      assert lines[0] + "\n" + Join(lines[1..]) + "\n" == lines[0] + ("\n" + (Join(lines[1..]) + "\n"));
    } else {
      assert Ended(lines[1..]) == "";
    }
  }

  lemma BulletFree(url: string, rest: string)
    requires !Contains(url, OPEN) && Free(rest, OPEN)
    ensures Free("- " + url + ("\n" + rest), OPEN)
  {
    FieldFree(url, "\n", rest);
    LettersFree("- ", url + ("\n" + rest));
    assert "- " + url + ("\n" + rest) == "- " + (url + ("\n" + rest));
  }

  lemma {:induction false} BulletsFree(urls: seq<string>)
    requires forall u :: u in urls ==> !Contains(u, OPEN)
    ensures Free(Ended(Bullets(urls)), OPEN)
    decreases |urls|
  {
    if urls == [] {
      FreeLetters("", OPEN);
    } else {
      assert urls[0] in urls;
      BulletsFree(urls[1..]);
      BulletFree(urls[0], Ended(Bullets(urls[1..])));
      assert Bullets(urls)[1..] == Bullets(urls[1..]);
    }
  }

  lemma EvidenceFree(urls: seq<string>)
    requires forall u :: u in urls ==> !Contains(u, OPEN)
    ensures Free(Evidence(urls), OPEN)
  {
    if urls == [] {
      FreeLetters("", OPEN);
    } else {
      BulletsFree(urls);
      JoinEnded(Bullets(urls));
      LettersFree("\n**Evidence:**\n", Join(Bullets(urls)) + "\n");
      assert Evidence(urls) == "\n**Evidence:**\n" + (Join(Bullets(urls)) + "\n");
    }
  }

  lemma BaseFree(e: Entry)
    requires EntryClean(e)
    ensures Free(BaseText(e), OPEN)
  {
    EvidenceFree(e.evidenceUrls);
    StripClean(e.thesis, OPEN);
    var thesis := PyStrip(e.thesis) + ("\n" + Evidence(e.evidenceUrls));
    FieldFree(PyStrip(e.thesis), "\n", Evidence(e.evidenceUrls));
    LettersFree("\n", thesis);
    var rating := e.rating + ("\n" + ("\n" + thesis));
    FieldFree(e.rating, "\n", "\n" + thesis);
    LettersFree("\U{2014} ", rating);
    FieldFree(e.issuedAt, " ", "\U{2014} " + rating);
    LettersFree("\n## ", e.issuedAt + (" " + ("\U{2014} " + rating)));
  }

  /** Printing an entry with clean fields adds a clean section. */
  lemma PrintedIsClean(e: Entry)
    requires EntryClean(e)
    ensures Clean(SectionOf(e)) && RenderEntry(e) == SectionText(SectionOf(e))
  {
    EntryIsPrinted(e);
    BaseFree(e);
    FreeLetters("\n", OPEN);
    FreeConcat(BaseText(e), "\n", OPEN);
    if HasReflection(e) {
      var head, tail := StripShape(e.reflection.value, PySpace);
    }
  }

  lemma NoteFree()
    ensures Free(NOTE, OPEN)
  {
    FreeLetters("agent emits is logged here.\n", OPEN);
    LettersFree("\U{2014} every advice this ", "agent emits is logged here.\n");
    LettersFree("> Append-only markdown ", "\U{2014} every advice this " + "agent emits is logged here.\n");
  }

  lemma OriginFree()
    ensures Free(ORIGIN, OPEN)
  {
    var hint := "Do not edit by hand.\n\n";
    FreeLetters(hint, OPEN);
    LettersFree("(v2.5 T1.11). ", hint);
    LettersFree("`data_lake.decision_log` ", "(v2.5 T1.11). " + hint);
    LettersFree("> Generated by ", "`data_lake.decision_log` " + ("(v2.5 T1.11). " + hint));
  }

  lemma HeaderFree(agent: string)
    requires IsAgent(agent)
    ensures Free(HeaderFor(agent), BEGIN)
  {
    NoteFree();
    OriginFree();
    FreeConcat(NOTE, ORIGIN, OPEN);
    var title := "decision log\n\n" + (NOTE + ORIGIN);
    LettersFree("decision log\n\n", NOTE + ORIGIN);
    FreeNarrow(title, OPEN, BEGIN);
    NameFree(agent, title);
    FreeLetters("# ", BEGIN);
    FreeConcat("# ", agent + (" " + title), BEGIN);
  }
}
