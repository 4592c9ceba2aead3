/** The files of the decision log and every run of appends and reflections on them
    (packages/data-lake/data_lake/decision_log.py:60-116). */
module DecisionLog {
  import opened Basics
  import opened Text
  import opened Scanner
  import opened LogMarkup
  import opened LogFormat
  import opened LogSections
  import opened LogFinding
  import opened LogEditing

  /** One file for each agent slug. */
  type Files = map<string, string>

  /** Reading a file as text: every way of ending a line becomes a newline. */
  function ReadText(t: string): string {
    if t == "" then ""
    else if t[0] == '\r' then "\n" + ReadText(if |t| > 1 && t[1] == '\n' then t[2..] else t[1..])
    else [t[0]] + ReadText(t[1..])
  }

  /** A file is read as it was written exactly when it holds no carriage return. */
  lemma {:induction false} ReadTextIsExact(t: string)
    ensures ReadText(t) == t <==> '\r' !in t
    ensures '\r' !in ReadText(t)
    decreases |t|
  {
    if t != "" {
      ReadTextIsExact(if t[0] == '\r' && |t| > 1 && t[1] == '\n' then t[2..] else t[1..]);
      assert t == [t[0]] + t[1..];
      if t[0] != '\r' { assert ReadText(t)[1..] == ReadText(t[1..]); }
    }
  }

  /** A carriage return, with a newline behind it or without, is read as one newline. */
  lemma {:induction false} LineEndsAreRead(l: string, t: string)
    requires '\r' !in l
    ensures ReadText(l + ("\r\n" + t)) == l + ("\n" + ReadText(t))
    ensures t == "" || t[0] != '\n' ==> ReadText(l + ("\r" + t)) == l + ("\n" + ReadText(t))
    ensures ReadText(l + ("\n" + t)) == l + ("\n" + ReadText(t))
    decreases |l|
  {
    if l == "" {
      assert l + ("\r\n" + t) == "\r\n" + t && l + ("\r" + t) == "\r" + t && l + ("\n" + t) == "\n" + t;
      assert ("\r\n" + t)[2..] == t && ("\r" + t)[1..] == t && ("\n" + t)[1..] == t;
      assert l + ("\n" + ReadText(t)) == "\n" + ReadText(t);
    } else {
      assert l[0] in l;
      LineEndsAreRead(l[1..], t);
      ReadFirst(l, "\r\n" + t);
      ReadFirst(l, "\r" + t);
      ReadFirst(l, "\n" + t);
      assert [l[0]] + (l[1..] + ("\n" + ReadText(t))) == l + ("\n" + ReadText(t));
    }
  }

  lemma ReadFirst(l: string, t: string)
    requires l != "" && l[0] != '\r'
    ensures ReadText(l + t) == [l[0]] + ReadText(l[1..] + t)
  {
    assert (l + t)[1..] == l[1..] + t;
  }

  function Appended(files: Files, e: Entry): Files {
    files[e.agent := (if e.agent in files then ReadText(files[e.agent]) else HeaderFor(e.agent)) + RenderEntry(e)]
  }

  /** The file is written only when the entry was found. */
  function Attached(files: Files, agent: string, adviceId: string, reflection: string): (Files, bool) {
    if agent !in files then (files, false)
    else
      var (text, found) := Inject(ReadText(files[agent]), adviceId, agent, reflection);
      (if found then files[agent := text] else files, found)
  }

  function Entries(files: Files, agent: string): seq<Summary> {
    if agent in files then ParseEntries(ReadText(files[agent])) else []
  }

  class DecisionLog {
    var files: Files

    constructor ()
      ensures files == map[]
    {
      files := map[];
    }

    method Append(entry: Entry)
      modifies this
      ensures files == Appended(old(files), entry)
    {
      var existing := HeaderFor(entry.agent);
      if entry.agent in files {
        existing := ReadText(files[entry.agent]);
      }
      files := files[entry.agent := existing + RenderEntry(entry)];
    }

    method AttachReflection(agent: string, adviceId: string, reflection: string) returns (found: bool)
      modifies this
      ensures (files, found) == Attached(old(files), agent, adviceId, reflection)
    {
      if agent !in files {
        return false;
      }
      var r := Inject(ReadText(files[agent]), adviceId, agent, reflection);
      if !r.1 {
        return false;
      }
      files := files[agent := r.0];
      return true;
    }

    method IterEntries(agent: string) returns (entries: seq<Summary>)
      ensures entries == Entries(files, agent)
    {
      if agent !in files {
        return [];
      }
      return ParseEntries(ReadText(files[agent]));
    }
  }

  // ----- Runs -----

  datatype Op = Append(entry: Entry) | Attach(agent: string, adviceId: string, reflection: string)

  function Step(files: Files, op: Op): Files {
    match op
    case Append(e) => Appended(files, e)
    case Attach(agent, adviceId, reflection) => Attached(files, agent, adviceId, reflection).0
  }

  /** The files after the first n operations, from none. */
  function Run(ops: seq<Op>, n: nat): Files
    requires n <= |ops|
  {
    if n == 0 then map[] else Step(Run(ops, n - 1), ops[n - 1])
  }

  /** No carriage return is printed. */
  predicate Plain(s: Section) {
    IsId(s.id) && IsAgent(s.agent) && '\r' !in s.base && (s.reflection.Some? ==> '\r' !in s.reflection.value)
  }

  /** Fields as `EntryClean` asks, and nothing that reading the file would change. */
  ghost predicate CleanOp(op: Op) {
    match op
    case Append(e) => EntryClean(e) && Plain(SectionOf(e))
    case Attach(agent, adviceId, reflection) =>
      IsId(adviceId) && IsAgent(agent) && Harmless(PyStrip(reflection)) && '\r' !in PyStrip(reflection)
  }

  ghost predicate CleanOps(ops: seq<Op>) {
    forall op :: op in ops ==> CleanOp(op)
  }

  // ----- What a log is meant to say -----

  /** An advice of the agent and the last reflection given to it. */
  datatype Note = Note(adviceId: string, reflection: Option<string>)

  function NoteOf(e: Entry): Note {
    Note(e.adviceId, if HasReflection(e) then Some(PyStrip(e.reflection.value)) else None)
  }

  function Reflect(notes: seq<Note>, adviceId: string, r: string): seq<Note> {
    if notes == [] then []
    else if notes[0].adviceId == adviceId then [notes[0].(reflection := Some(r))] + notes[1..]
    else [notes[0]] + Reflect(notes[1..], adviceId, r)
  }

  predicate Noted(notes: seq<Note>, adviceId: string) {
    exists i :: 0 <= i < |notes| && notes[i].adviceId == adviceId
  }

  /** The history of one agent: its advice in order, each with its last reflection. */
  function History(ops: seq<Op>, n: nat, agent: string): seq<Note>
    requires n <= |ops|
  {
    if n == 0 then []
    else
      var before := History(ops, n - 1, agent);
      match ops[n - 1]
      case Append(e) => if e.agent == agent then before + [NoteOf(e)] else before
      case Attach(a, adviceId, r) => if a == agent then Reflect(before, adviceId, PyStrip(r)) else before
  }

  // ----- Why the files say it -----

  /** The sections of one agent's file. */
  function Sections(ops: seq<Op>, n: nat, agent: string): seq<Section>
    requires n <= |ops|
  {
    if n == 0 then []
    else
      var before := Sections(ops, n - 1, agent);
      match ops[n - 1]
      case Append(e) => if e.agent == agent then before + [SectionOf(e)] else before
      case Attach(a, adviceId, r) => if a == agent then EditFirst(before, adviceId, agent, PyStrip(r)) else before
  }

  ghost predicate IsLogOf(files: Files, agent: string, ss: seq<Section>) {
    && AllClean(ss) && (forall s :: s in ss ==> s.agent == agent && Plain(s))
    && (agent in files <==> ss != [])
    && (agent in files ==> Free(HeaderFor(agent), BEGIN) && files[agent] == HeaderFor(agent) + LogText(ss))
  }

  lemma BeginLinePlain(id: string, agent: string)
    requires IsId(id) && IsAgent(agent)
    ensures '\r' !in BeginLine(id, agent)
  {
    assert PySpace('\r');
    assert '\r' !in BEGIN && '\r' !in AGENT && '\r' !in CLOSE;
  }

  lemma BlockPlain(r: string)
    requires '\r' !in r
    ensures '\r' !in ReflectionBlock(r)
  {
    assert '\r' !in REFLECTION && '\r' !in REFLECTION_END && '\r' !in LABEL;
  }

  lemma SectionPlain(s: Section)
    requires Plain(s)
    ensures '\r' !in SectionText(s)
  {
    BeginLinePlain(s.id, s.agent);
    if s.reflection.Some? { BlockPlain(s.reflection.value); }
    assert '\r' !in Body(s) && '\r' !in END_ENTRY;
  }

  lemma {:induction false} LogPlain(ss: seq<Section>)
    requires forall s :: s in ss ==> Plain(s)
    ensures '\r' !in LogText(ss)
    decreases |ss|
  {
    if ss != [] {
      assert ss[0] in ss;
      SectionPlain(ss[0]);
      LogPlain(ss[1..]);
    }
  }

  lemma HeaderPlain(agent: string)
    requires IsAgent(agent)
    ensures '\r' !in HeaderFor(agent)
  {
    assert PySpace('\r');
    NotePlain();
    OriginPlain();
  }

  lemma NotePlain()
    ensures '\r' !in NOTE
  {}

  lemma OriginPlain()
    ensures '\r' !in ORIGIN
  {}

  /** The file is read as the header and the sections that were written. */
  lemma ReadsLog(files: Files, agent: string, ss: seq<Section>)
    requires IsLogOf(files, agent, ss) && agent in files
    ensures ReadText(files[agent]) == HeaderFor(agent) + LogText(ss)
  {
    assert ss[0] in ss;
    HeaderPlain(agent);
    LogPlain(ss);
    ReadTextIsExact(files[agent]);
  }

  lemma LogTextSnoc(ss: seq<Section>, s: Section)
    ensures LogText(ss + [s]) == LogText(ss) + SectionText(s)
  {
    LogTextSplit(ss, [s]);
    assert LogText([s]) == SectionText(s) + LogText([]);
    assert SectionText(s) + "" == SectionText(s);
  }

  lemma AppendedText(files: Files, ss: seq<Section>, e: Entry)
    requires IsLogOf(files, e.agent, ss)
    ensures Appended(files, e)[e.agent] == HeaderFor(e.agent) + (LogText(ss) + RenderEntry(e))
  {
    var header, log, entry := HeaderFor(e.agent), LogText(ss), RenderEntry(e);
    if e.agent in files {
      ReadsLog(files, e.agent, ss);
      Assoc(header, log, entry);
    } else {
      assert log == "" && log + entry == entry;
    }
  }

  lemma SectionsSnoc(ss: seq<Section>, s: Section, agent: string)
    requires AllClean(ss) && (forall x :: x in ss ==> x.agent == agent && Plain(x))
    requires Clean(s) && s.agent == agent && Plain(s)
    ensures AllClean(ss + [s]) && forall x :: x in ss + [s] ==> x.agent == agent && Plain(x)
  {}

  lemma AppendKeeps(files: Files, ss: seq<Section>, e: Entry)
    requires IsLogOf(files, e.agent, ss) && CleanOp(Append(e))
    ensures IsLogOf(Appended(files, e), e.agent, ss + [SectionOf(e)])
  {
    var s := SectionOf(e);
    PrintedIsClean(e);
    HeaderFree(e.agent);
    LogTextSnoc(ss, s);
    SectionsSnoc(ss, s, e.agent);
    AppendedText(files, ss, e);
    assert e.agent in Appended(files, e);
  }

  /** The sections after an attach are clean, of the same agent and as many. */
  lemma EditKeepsSections(ss: seq<Section>, agent: string, adviceId: string, r: string)
    requires AllClean(ss) && (forall s :: s in ss ==> s.agent == agent && Plain(s))
    requires Trimmed(r, PySpace) && Harmless(r) && '\r' !in r
    ensures var edited := EditFirst(ss, adviceId, agent, r);
            AllClean(edited) && |edited| == |ss| && forall s :: s in edited ==> s.agent == agent && Plain(s)
  {
    EditFirstIs(ss, adviceId, agent, r);
    EditKeepsClean(ss, adviceId, agent, r);
    var k := FirstIndex(ss, adviceId, agent);
    if k < |ss| {
      assert ss[k] in ss;
      var tail := RStripShape(ss[k].base, Newline);
    }
  }

  lemma AttachKeeps(files: Files, ss: seq<Section>, agent: string, adviceId: string, reflection: string)
    requires IsLogOf(files, agent, ss) && CleanOp(Attach(agent, adviceId, reflection))
    ensures IsLogOf(Attached(files, agent, adviceId, reflection).0, agent,
                    EditFirst(ss, adviceId, agent, PyStrip(reflection)))
    ensures Attached(files, agent, adviceId, reflection).1 <==> HasEntry(ss, adviceId, agent)
  {
    var r := PyStrip(reflection);
    var head, tail := StripShape(reflection, PySpace);
    EditKeepsSections(ss, agent, adviceId, r);
    EditFirstIs(ss, adviceId, agent, r);
    if agent in files {
      ReadsLog(files, agent, ss);
      CleanIsFindable(ss, adviceId, agent);
      InjectLog(HeaderFor(agent), ss, adviceId, agent, reflection);
    }
  }

  lemma {:induction false} FilesAreLogs(ops: seq<Op>, n: nat, agent: string)
    requires n <= |ops| && CleanOps(ops)
    ensures IsLogOf(Run(ops, n), agent, Sections(ops, n, agent))
  {
    if n > 0 {
      FilesAreLogs(ops, n - 1, agent);
      var files, ss := Run(ops, n - 1), Sections(ops, n - 1, agent);
      assert ops[n - 1] in ops;
      match ops[n - 1]
      case Append(e) =>
        if e.agent == agent { AppendKeeps(files, ss, e); }
      case Attach(a, adviceId, r) =>
        if a == agent { AttachKeeps(files, ss, agent, adviceId, r); }
    }
  }

  function Notes(ss: seq<Section>): seq<Note> {
    if ss == [] then [] else [Note(ss[0].id, ss[0].reflection)] + Notes(ss[1..])
  }

  lemma {:induction false} NotesAt(ss: seq<Section>)
    ensures |Notes(ss)| == |ss|
    ensures forall i :: 0 <= i < |ss| ==> Notes(ss)[i] == Note(ss[i].id, ss[i].reflection)
    decreases |ss|
  {
    if ss != [] { NotesAt(ss[1..]); }
  }

  lemma {:induction false} NotesSnoc(ss: seq<Section>, s: Section)
    ensures Notes(ss + [s]) == Notes(ss) + [Note(s.id, s.reflection)]
    decreases |ss|
  {
    if ss == [] {
      assert ss + [s] == [s] && [s][1..] == [];
    } else {
      assert (ss + [s])[1..] == ss[1..] + [s];
      NotesSnoc(ss[1..], s);
    }
  }

  lemma {:induction false} NotesEdit(ss: seq<Section>, agent: string, adviceId: string, r: string)
    requires forall s :: s in ss ==> s.agent == agent
    ensures Notes(EditFirst(ss, adviceId, agent, r)) == Reflect(Notes(ss), adviceId, r)
    decreases |ss|
  {
    if ss != [] {
      assert ss[0] in ss;
      var edited := EditFirst(ss, adviceId, agent, r);
      assert Notes(ss)[1..] == Notes(ss[1..]);
      if Matches(ss[0], adviceId, agent) {
        assert edited[1..] == ss[1..];
      } else {
        assert edited[1..] == EditFirst(ss[1..], adviceId, agent, r);
        NotesEdit(ss[1..], agent, adviceId, r);
      }
    }
  }

  lemma {:induction false} NotesAreHistory(ops: seq<Op>, n: nat, agent: string)
    requires n <= |ops| && CleanOps(ops)
    ensures Notes(Sections(ops, n, agent)) == History(ops, n, agent)
  {
    if n > 0 {
      NotesAreHistory(ops, n - 1, agent);
      FilesAreLogs(ops, n - 1, agent);
      var ss := Sections(ops, n - 1, agent);
      match ops[n - 1]
      case Append(e) =>
        if e.agent == agent { NotesSnoc(ss, SectionOf(e)); }
      case Attach(a, adviceId, r) =>
        if a == agent { NotesEdit(ss, agent, adviceId, PyStrip(r)); }
    }
  }

  /** After every run of appends and reflections with clean fields, reading an agent's log
      gives its advice in order, each with the last reflection attached to it. */
  lemma LogsTellTheHistory(ops: seq<Op>, n: nat, agent: string)
    requires n <= |ops| && CleanOps(ops)
    ensures var entries, notes := Entries(Run(ops, n), agent), History(ops, n, agent);
            && |entries| == |notes|
            && forall i :: 0 <= i < |notes| ==>
                 entries[i].agent == agent && Note(entries[i].adviceId, entries[i].reflection) == notes[i]
  {
    var ss := Sections(ops, n, agent);
    FilesAreLogs(ops, n, agent);
    NotesAreHistory(ops, n, agent);
    NotesAt(ss);
    assert forall s :: s in ss ==> Clean(s);
    if ss != [] {
      ReadsLog(Run(ops, n), agent, ss);
      ParseLog(HeaderFor(agent), ss);
      assert forall i :: 0 <= i < |ss| ==> ss[i] in ss;
    }
  }

  /** An attach is reported as done exactly when the agent has an advice of that id. */
  lemma AttachFinds(ops: seq<Op>, n: nat, agent: string, adviceId: string, reflection: string)
    requires n <= |ops| && CleanOps(ops) && CleanOp(Attach(agent, adviceId, reflection))
    ensures Attached(Run(ops, n), agent, adviceId, reflection).1 <==> Noted(History(ops, n, agent), adviceId)
  {
    var ss := Sections(ops, n, agent);
    FilesAreLogs(ops, n, agent);
    NotesAreHistory(ops, n, agent);
    NotesAt(ss);
    AttachKeeps(Run(ops, n), ss, agent, adviceId, reflection);
    var k := FirstIndex(ss, adviceId, agent);
    if k < |ss| { assert Notes(ss)[k].adviceId == adviceId; }
    assert forall i :: 0 <= i < |ss| ==> ss[i] in ss;
  }
}
