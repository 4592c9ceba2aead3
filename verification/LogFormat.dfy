/** The markdown decision log (packages/data-lake/data_lake/decision_log.py): its printer, its
    parser and its in-place editor, at character level. */
module LogFormat {
  import opened Basics
  import opened Text
  import opened Scanner
  import opened LogMarkup

  // ----- Printing -----

  /** issued_at arrives already printed in ISO form. */
  datatype Entry = Entry(adviceId: string, agent: string, issuedAt: string, rating: string,
                         thesis: string, evidenceUrls: seq<string>, reflection: Option<string>)

  function PyStrip(t: string): string {
    Strip(t, PySpace)
  }

  // The lines of the header, in pieces short enough to be searched one by one: that no comment
  // opens in them is proved piece by piece.

  const NOTE: string :=
    "> Append-only markdown " + ("\U{2014} every advice this " + "agent emits is logged here.\n")

  const ORIGIN: string :=
    "> Generated by " + ("`data_lake.decision_log` " + ("(v2.5 T1.11). " + "Do not edit by hand.\n\n"))

  function HeaderFor(agent: string): string {
    "# " + (agent + (" " + ("decision log\n\n" + (NOTE + ORIGIN))))
  }

  function BeginLine(id: string, agent: string): string {
    BEGIN + id + " " + AGENT + agent + " " + CLOSE
  }

  function Lead(u: string): string {
    REFLECTION + ("\n" + (LABEL + (" " + u)))
  }

  /** What stands in a body behind its reflection. */
  const BLOCK_END: string := "\n" + (REFLECTION_END + "\n")

  function Closing(r: string): string {
    r + BLOCK_END
  }

  /** The block for an already stripped reflection. */
  function ReflectionBlock(r: string): string {
    "\n" + Lead(Closing(r))
  }

  function Bullets(urls: seq<string>): seq<string> {
    if urls == [] then [] else ["- " + urls[0]] + Bullets(urls[1..])
  }

  function Evidence(urls: seq<string>): string {
    if urls == [] then "" else "\n**Evidence:**\n" + Join(Bullets(urls)) + "\n"
  }

  /** The part of a body in front of the reflection. */
  function BaseText(e: Entry): string {
    "\n## " + (e.issuedAt + (" " + ("\U{2014} " + (e.rating + ("\n" + ("\n"
    + (PyStrip(e.thesis) + ("\n" + Evidence(e.evidenceUrls)))))))))
  }

  /** None and the empty string are both "no reflection". */
  predicate HasReflection(e: Entry) {
    e.reflection.Some? && e.reflection.value != ""
  }

  function RenderEntry(e: Entry): string {
    "\n" + BeginLine(e.adviceId, e.agent) + BaseText(e)
    + (if HasReflection(e) then ReflectionBlock(PyStrip(e.reflection.value)) else "")
    + END_ENTRY + "\n"
  }

  // ----- Parsing -----

  datatype Found = Found(id: string, agent: string, body: string)

  /** The whole entry pattern: an opening and everything up to the first end. */
  function MatchEntry(t: string): (r: Option<(Found, string)>)
    ensures r.Some? ==> |r.value.1| < |t|
  {
    match MatchBegin(t)
    case None => None
    case Some(o) =>
      match Cut(o.rest, END_ENTRY)
      case None => None
      case Some((body, after)) => Some((Found(o.id, o.agent, body), after))
  }

  /** finditer: matches from left to right, each behind the one before. */
  function FindAll(t: string): seq<Found>
    decreases |t|
  {
    match Scan(t, MatchEntry)
    case None => []
    case Some((before, found)) => [found.0] + FindAll(found.1)
  }

  function MatchReflection(t: string): (r: Option<string>)
    ensures r.Some? ==> |r.value| + |REFLECTION| + |LABEL| + |REFLECTION_END| <= |t|
  {
    if !StartsWith(t, REFLECTION) then None
    else
      var labelled := LStrip(t[|REFLECTION|..], PySpace);
      LStripShorter(t[|REFLECTION|..]);
      if !StartsWith(labelled, LABEL) then None
      else
        LStripShorter(labelled[|LABEL|..]);
        match Cut(LStrip(labelled[|LABEL|..], PySpace), REFLECTION_END)
        case None => None
        case Some((r, after)) => Some(r)
  }

  function ReflectionOf(body: string): Option<string> {
    match Scan(body, MatchReflection)
    case None => None
    case Some((before, r)) => Some(PyStrip(r))
  }

  datatype Summary = Summary(adviceId: string, agent: string, body: string, reflection: Option<string>)

  function Summarize(f: Found): Summary {
    Summary(f.id, f.agent, PyStrip(f.body), ReflectionOf(f.body))
  }

  function ParseEntries(text: string): seq<Summary> {
    var found := FindAll(text);
    seq(|found|, i requires 0 <= i < |found| => Summarize(found[i]))
  }

  // ----- Editing -----

  /** One reflection block with the newline behind it, if there is one. */
  function MatchBlock(t: string): (r: Option<string>)
    ensures r.Some? ==> |r.value| < |t|
  {
    if !StartsWith(t, REFLECTION) then None
    else match Cut(t[|REFLECTION|..], REFLECTION_END)
      case None => None
      case Some((inside, after)) => Some(if StartsWith(after, "\n") then after[1..] else after)
  }

  function StripBlocks(t: string): string
    decreases |t|
  {
    match Scan(t, MatchBlock)
    case None => t
    case Some((before, after)) => before + StripBlocks(after)
  }

  predicate Newline(c: char) {
    c == '\n'
  }

  function NewBody(body: string, reflection: string): string {
    RStrip(StripBlocks(body), Newline) + ReflectionBlock(PyStrip(reflection))
  }

  /** The entry pattern for one given id and agent: the body and what follows the entry. */
  function MatchOne(t: string, id: string, agent: string): Option<(string, string)> {
    match MatchExact(t, id, agent)
    case None => None
    case Some(rest) => Cut(rest, END_ENTRY)
  }

  function Exactly(id: string, agent: string): Matcher<(string, string)> {
    t => MatchOne(t, id, agent)
  }

  /** The entry as the editor writes it, and the text behind it. */
  function Rewritten(id: string, agent: string, body: string, after: string, reflection: string): string {
    BeginLine(id, agent) + (NewBody(body, reflection) + (END_ENTRY + after))
  }

  function Inject(text: string, id: string, agent: string, reflection: string): (string, bool) {
    match Scan(text, Exactly(id, agent))
    case None => (text, false)
    case Some((before, (body, after))) =>
      (before + Rewritten(id, agent, body, after, reflection), true)
  }

  /** No entry for (id, agent) starts among the first n positions. */
  ghost predicate NoEntryBefore(text: string, n: int, id: string, agent: string) {
    forall k :: 0 <= k < n && k <= |text| ==> MatchOne(text[k..], id, agent).None?
  }

  lemma ExactlyScans(text: string, id: string, agent: string)
    ensures var r := Scan(text, Exactly(id, agent));
            && (r.None? ==> NoEntryBefore(text, |text| + 1, id, agent))
            && (r.Some? ==> NoEntryBefore(text, |r.value.0|, id, agent)
                            && MatchOne(text[|r.value.0|..], id, agent) == Some(r.value.1))
  {
    ScanIsFirst(text, Exactly(id, agent));
    forall k | 0 <= k <= |text| ensures Exactly(id, agent)(text[k..]) == MatchOne(text[k..], id, agent) {}
  }

  lemma MatchOneShape(t: string, id: string, agent: string) returns (opening: string)
    requires MatchOne(t, id, agent).Some?
    ensures var (body, after) := MatchOne(t, id, agent).value;
            && t == opening + (body + (END_ENTRY + after)) && !Contains(body, END_ENTRY)
            && MatchExact(t, id, agent) == Some(body + (END_ENTRY + after))
  {
    var rest := MatchExact(t, id, agent).value;
    var gap, gap2 := ExactWritten(t, id, agent);
    opening := BEGIN + (id + (gap + (AGENT + (agent + (gap2 + CLOSE)))));
    assert t == opening + rest;
    CutLeavesNone(rest, END_ENTRY);
    var (body, after) := Cut(rest, END_ENTRY).value;
    assert rest == body + (END_ENTRY + after);
  }

  /** On any text the editor touches one entry: the text before and behind the first match is
      copied, and the entry gets the plain opening and the new body. */
  lemma InjectIsLocal(text: string, id: string, agent: string, reflection: string)
    returns (before: string, opening: string, body: string, after: string)
    requires Inject(text, id, agent, reflection).1
    ensures text == before + (opening + (body + (END_ENTRY + after)))
    ensures NoEntryBefore(text, |before|, id, agent) && !Contains(body, END_ENTRY)
    ensures MatchExact(text[|before|..], id, agent) == Some(body + (END_ENTRY + after))
    ensures Inject(text, id, agent, reflection).0
            == before + (BeginLine(id, agent) + (NewBody(body, reflection) + (END_ENTRY + after)))
  {
    ExactlyScans(text, id, agent);
    before := Scan(text, Exactly(id, agent)).value.0;
    opening := MatchOneShape(text[|before|..], id, agent);
    body, after := MatchOne(text[|before|..], id, agent).value.0, MatchOne(text[|before|..], id, agent).value.1;
    assert text == before + text[|before|..];
  }

  /** A text is reported as not found, and left alone, exactly when no entry matches in it. */
  lemma InjectMisses(text: string, id: string, agent: string, reflection: string)
    ensures !Inject(text, id, agent, reflection).1 <==> NoEntryBefore(text, |text| + 1, id, agent)
    ensures !Inject(text, id, agent, reflection).1 ==> Inject(text, id, agent, reflection).0 == text
  {
    ExactlyScans(text, id, agent);
  }

  lemma CutLeavesNone(t: string, p: string)
    requires p != "" && Cut(t, p).Some?
    ensures !Contains(Cut(t, p).value.0, p)
  {
    var before, after := Cut(t, p).value.0, Cut(t, p).value.1;
    assert before + (p + after) == t;
    if Contains(before, p) {
      CutExtend(before, p, p + after);
    }
  }
}
