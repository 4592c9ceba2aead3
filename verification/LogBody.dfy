/** What a reader of the decision log finds in the body of an entry
    (packages/data-lake/data_lake/decision_log.py:144-163 and 201-215). */
module LogBody {
  import opened Basics
  import opened Text
  import opened Scanner
  import opened LogMarkup
  import opened LogFormat
  import opened LogSections
  import opened LogFinding
  import opened LogEditing
  import opened LogReplacing
  import opened DecisionLog

  // ----- Stripping around a text that is kept -----

  predicate Solid(m: string) {
    m != "" && Trimmed(m, PySpace)
  }

  lemma BlankFront(head: string, rest: string)
    requires Blank(head)
    ensures forall i :: 0 <= i < |head| ==> PySpace((head + rest)[i])
  {
    forall i | 0 <= i < |head| ensures PySpace((head + rest)[i]) { assert head[i] in head; }
  }

  lemma BlankBack(rest: string, tail: string)
    requires Blank(tail)
    ensures forall i :: |rest| <= i < |rest + tail| ==> PySpace((rest + tail)[i])
  {
    forall i | |rest| <= i < |rest + tail| ensures PySpace((rest + tail)[i]) { assert tail[i - |rest|] in tail; }
  }

  /** Where stripping cuts: in front of what is not blank, and behind it. */
  lemma StripCuts(t: string) returns (from: nat, to: nat)
    ensures from <= to <= |t| && PyStrip(t) == t[from..to]
    ensures forall i :: 0 <= i < |t| && !PySpace(t[i]) ==> from <= i < to
    ensures from < to ==> !PySpace(t[from])
  {
    var head, tail := StripShape(t, PySpace);
    var s := PyStrip(t);
    assert Blank(head) && Blank(tail) by { assert forall c :: c in head || c in tail ==> c in head + tail; }
    from, to := |head|, |head| + |s|;
    Assoc(head, s, tail);
    BlankFront(head, s + tail);
    BlankBack(head + s, tail);
  }

  /** Stripping cuts nothing off a text that is not blank at its ends. */
  lemma StripAround(a: string, m: string, b: string) returns (c: string, d: string)
    requires Solid(m)
    ensures PyStrip(a + m + b) == c + m + d
    ensures |c| <= |a| && c == a[|a| - |c|..] && |d| <= |b| && d == b[..|d|]
    ensures Blank(a) ==> c == ""
  {
    var t := a + m + b;
    var from, to := StripCuts(t);
    assert t[|a|] == m[0] && t[|a| + |m| - 1] == m[|m| - 1];
    c, d := a[from..], b[..to - |a| - |m|];
    assert t[from..to] == c + m + d;
    if Blank(a) { BlankFront(a, m + b); Assoc(a, m, b); }
  }

  /** It is one line of what is left, if it was one before. */
  lemma LineSurvives(a: string, l: string, b: string)
    requires Solid(l) && OneLine(l) && (a == "" || NewlineEnded(a)) && (b == "" || b[0] == '\n')
    ensures l in Lines(PyStrip(a + l + b))
    ensures Blank(a) ==> Lines(PyStrip(a + l + b))[0] == l
  {
    var c, d := StripAround(a, l, b);
    LineFirst(l, d);
    if c == "" {
      assert c + l + d == l + d;
    } else {
      var front := c[..|c| - 1];
      assert c == front + "\n" && c + l + d == front + "\n" + (l + d);
      LinesAcross(front, l + d);
      assert Lines(l + d)[0] in Lines(l + d);
    }
  }

  lemma LineFirst(l: string, d: string)
    requires OneLine(l) && (d == "" || d[0] == '\n')
    ensures Lines(l + d)[0] == l
  {
    if d == "" {
      assert l + d == l;
      LinesOfLine(l);
    } else {
      assert l + d == l + "\n" + d[1..];
      LinesCons(l, d[1..]);
    }
  }

  /** The same for the newlines at the end that an edit cuts off. */
  lemma RStripAround(a: string, m: string, b: string) returns (d: string)
    requires Solid(m)
    ensures RStrip(a + m + b, Newline) == a + m + d && |d| <= |b| && d == b[..|d|]
  {
    assert PySpace('\n');
    assert (a + m)[|a + m| - 1] == m[|m| - 1];
    assert RStrip(a + m, Newline) == a + m;
    RStripBehind(a + m, b);
    var tail := RStripShape(b, Newline);
    d := RStrip(b, Newline);
  }

  // ----- The body of an entry -----

  /** What stands in front of the block of an entry: what was printed, or that without the
      newlines at its end. */
  predicate IsBaseOf(base: string, e: Entry) {
    base == BaseText(e) || base == RStrip(BaseText(e), Newline)
  }

  /** A text of the printed part, with what is printed around it. */
  lemma PartSurvives(s: Section, e: Entry, a: string, m: string, b: string) returns (d: string)
    requires IsBaseOf(s.base, e) && Solid(m) && BaseText(e) == a + m + b
    ensures Body(s) == a + m + d
    ensures b == "" || b[0] == '\n' ==> d == "" || d[0] == '\n'
  {
    var kept := RStripAround(a, m, b);
    d := (if s.base == BaseText(e) then b else kept) + Block(s);
    Assoc(a + m, if s.base == BaseText(e) then b else kept, Block(s));
  }

  lemma LineIsInBody(s: Section, e: Entry, a: string, l: string, b: string)
    requires IsBaseOf(s.base, e) && BaseText(e) == a + l + b
    requires Solid(l) && OneLine(l) && (a == "" || NewlineEnded(a)) && (b == "" || b[0] == '\n')
    ensures l in Lines(PyStrip(Body(s)))
    ensures Blank(a) ==> Lines(PyStrip(Body(s)))[0] == l
  {
    var d := PartSurvives(s, e, a, l, b);
    LineSurvives(a, l, d);
  }

  function TitleLine(e: Entry): string {
    "## " + e.issuedAt + " \U{2014} " + e.rating
  }

  /** What is printed behind the title. */
  function Rest(e: Entry): string {
    "\n" + ("\n" + (PyStrip(e.thesis) + ("\n" + Evidence(e.evidenceUrls))))
  }

  lemma TitleParts(time: string, rating: string, rest: string)
    ensures "\n## " + (time + (" " + ("\U{2014} " + (rating + rest))))
            == "\n" + ("## " + time + " \U{2014} " + rating) + rest
  {
    var dash := " \U{2014} ";
    assert " " + ("\U{2014} " + (rating + rest)) == dash + (rating + rest);
    Assoc("## " + time, dash, rating + rest);
    Assoc("## " + time + dash, rating, rest);
    Assoc("## ", time, dash + (rating + rest));
    Assoc("\n", "## " + time + dash + rating, rest);
    assert "\n## " + (time + (dash + (rating + rest))) == "\n" + ("## " + (time + (dash + (rating + rest))));
  }

  lemma BaseIs(e: Entry)
    ensures BaseText(e) == "\n" + TitleLine(e) + Rest(e)
  {
    TitleParts(e.issuedAt, e.rating, Rest(e));
  }

  lemma TitleStands(s: Section, e: Entry)
    requires IsBaseOf(s.base, e) && OneLine(e.issuedAt) && OneLine(e.rating) && Solid(e.rating)
    ensures Lines(PyStrip(Body(s)))[0] == TitleLine(e)
  {
    var title := TitleLine(e);
    BaseIs(e);
    assert title[0] == '#' && title[|title| - 1] == e.rating[|e.rating| - 1];
    LineIsInBody(s, e, "\n", title, Rest(e));
  }

  lemma {:induction false} EndedAt(lines: seq<string>, i: nat) returns (a: string, b: string)
    requires i < |lines|
    ensures Ended(lines) == a + lines[i] + ("\n" + b) && (a == "" || NewlineEnded(a))
    decreases i
  {
    if i == 0 {
      a, b := "", Ended(lines[1..]);
      assert a + lines[0] == lines[0];
    } else {
      a, b := EndedAt(lines[1..], i - 1);
      var first := lines[0] + "\n";
      assert Ended(lines) == first + a + lines[i] + ("\n" + b);
      a := first + a;
    }
  }

  lemma {:induction false} BulletsAt(urls: seq<string>, i: nat)
    requires i < |urls|
    ensures i < |Bullets(urls)| && Bullets(urls)[i] == "- " + urls[i]
    decreases i
  {
    if i > 0 { BulletsAt(urls[1..], i - 1); }
  }

  lemma EvidenceAt(urls: seq<string>, i: nat) returns (a: string, b: string)
    requires i < |urls|
    ensures Evidence(urls) == a + ("- " + urls[i]) + ("\n" + b) && NewlineEnded(a)
  {
    var bullets, caption := Bullets(urls), "\n**Evidence:**\n";
    BulletsAt(urls, i);
    JoinEnded(bullets);
    a, b := EndedAt(bullets, i);
    Assoc(caption, Join(bullets), "\n");
    Assoc(caption, a + bullets[i], "\n" + b);
    Assoc(caption, a, bullets[i]);
    a := caption + a;
  }

  /** What is printed in front of the evidence. */
  function Introduction(e: Entry): string {
    "\n" + TitleLine(e) + ("\n" + ("\n" + (PyStrip(e.thesis) + "\n")))
  }

  lemma BaseParts(e: Entry)
    ensures BaseText(e) == Introduction(e) + Evidence(e.evidenceUrls)
  {
    var thesis, evidence := PyStrip(e.thesis), Evidence(e.evidenceUrls);
    BaseIs(e);
    Assoc(thesis, "\n", evidence);
    Assoc("\n", thesis + "\n", evidence);
    Assoc("\n", "\n" + (thesis + "\n"), evidence);
    Assoc("\n" + TitleLine(e), "\n" + ("\n" + (thesis + "\n")), evidence);
  }

  lemma UrlStands(s: Section, e: Entry, i: nat)
    requires IsBaseOf(s.base, e) && i < |e.evidenceUrls| && OneLine(e.evidenceUrls[i]) && Solid(e.evidenceUrls[i])
    ensures "- " + e.evidenceUrls[i] in Lines(PyStrip(Body(s)))
  {
    var l := "- " + e.evidenceUrls[i];
    var a, b := EvidenceAt(e.evidenceUrls, i);
    BaseParts(e);
    Assoc(Introduction(e), a + l, "\n" + b);
    Assoc(Introduction(e), a, l);
    assert l[0] == '-' && l[|l| - 1] == e.evidenceUrls[i][|e.evidenceUrls[i]| - 1];
    EndsBehind(Introduction(e), a);
    LineIsInBody(s, e, Introduction(e) + a, l, "\n" + b);
  }

  lemma ThesisParts(e: Entry)
    ensures BaseText(e) == "\n" + TitleLine(e) + "\n\n" + PyStrip(e.thesis) + ("\n" + Evidence(e.evidenceUrls))
  {
    var title, behind := "\n" + TitleLine(e), PyStrip(e.thesis) + ("\n" + Evidence(e.evidenceUrls));
    BaseIs(e);
    assert "\n" + ("\n" + behind) == "\n\n" + behind;
    Assoc(title, "\n\n", behind);
    Assoc(title + "\n\n", PyStrip(e.thesis), "\n" + Evidence(e.evidenceUrls));
  }

  lemma HoldsMiddle(a: string, m: string, b: string)
    ensures Contains(a + m + b, m)
  {
    StartsInside("", a, m, b);
    Assoc(a, m, b);
    assert "" + (a + (m + b)) == a + (m + b);
  }

  lemma ThesisStands(s: Section, e: Entry)
    requires IsBaseOf(s.base, e)
    ensures Contains(PyStrip(Body(s)), PyStrip(e.thesis))
  {
    var m := PyStrip(e.thesis);
    if m == "" {
      CutEmpty(PyStrip(Body(s)));
    } else {
      var head, tail := StripShape(e.thesis, PySpace);
      var a, b := "\n" + TitleLine(e) + "\n\n", "\n" + Evidence(e.evidenceUrls);
      ThesisParts(e);
      var d := PartSurvives(s, e, a, m, b);
      var before, after := StripAround(a, m, d);
      HoldsMiddle(before, m, after);
    }
  }

  /** A body tells the advice: its first line is the title with time and rating, each evidence
      URL has a line of its own, and the thesis stands in it. Times, ratings and URLs are
      single lines, and ratings and URLs not blank at their ends. */
  ghost predicate Tells(body: string, e: Entry) {
    && (OneLine(e.issuedAt) && OneLine(e.rating) && Solid(e.rating) ==>
          Lines(body)[0] == "## " + e.issuedAt + " \U{2014} " + e.rating)
    && (forall u :: u in e.evidenceUrls && OneLine(u) && Solid(u) ==> "- " + u in Lines(body))
    && Contains(body, PyStrip(e.thesis))
  }

  lemma BodyTells(s: Section, e: Entry)
    requires IsBaseOf(s.base, e)
    ensures Tells(PyStrip(Body(s)), e)
  {
    if OneLine(e.issuedAt) && OneLine(e.rating) && Solid(e.rating) { TitleStands(s, e); }
    forall u | u in e.evidenceUrls && OneLine(u) && Solid(u) ensures "- " + u in Lines(PyStrip(Body(s))) {
      var i :| 0 <= i < |e.evidenceUrls| && e.evidenceUrls[i] == u;
      UrlStands(s, e, i);
    }
    ThesisStands(s, e);
  }

  // ----- Over every run -----

  /** The entries appended to the log of one agent, in order. */
  function AppendedTo(ops: seq<Op>, n: nat, agent: string): seq<Entry>
    requires n <= |ops|
  {
    if n == 0 then []
    else
      var before := AppendedTo(ops, n - 1, agent);
      if ops[n - 1].Append? && ops[n - 1].entry.agent == agent then before + [ops[n - 1].entry] else before
  }

  ghost predicate AreBasesOf(ss: seq<Section>, es: seq<Entry>) {
    |ss| == |es| && forall i :: 0 <= i < |ss| ==> IsBaseOf(ss[i].base, es[i])
  }

  lemma EditKeepsBases(ss: seq<Section>, es: seq<Entry>, id: string, agent: string, r: string)
    requires AreBasesOf(ss, es)
    ensures AreBasesOf(EditFirst(ss, id, agent, r), es)
  {
    EditFirstIs(ss, id, agent, r);
    var k := FirstIndex(ss, id, agent);
    if k < |ss| { RStripTwice(BaseText(es[k])); }
  }

  lemma OneMoreBase(ss: seq<Section>, es: seq<Entry>, e: Entry)
    requires AreBasesOf(ss, es)
    ensures AreBasesOf(ss + [SectionOf(e)], es + [e])
  {}

  lemma {:induction false} SectionsAreAppended(ops: seq<Op>, n: nat, agent: string)
    requires n <= |ops|
    ensures AreBasesOf(Sections(ops, n, agent), AppendedTo(ops, n, agent))
  {
    if n > 0 {
      SectionsAreAppended(ops, n - 1, agent);
      var ss, es := Sections(ops, n - 1, agent), AppendedTo(ops, n - 1, agent);
      match ops[n - 1] {
        case Append(e) => OneMoreBase(ss, es, e);
        case Attach(_, adviceId, r) => EditKeepsBases(ss, es, adviceId, agent, PyStrip(r));
      }
    }
  }

  /** After every run with clean fields, reflections attached or not, the entries that are read
      from an agent's log tell the advice that was appended to it, in order. */
  lemma LogsTellTheAdvice(ops: seq<Op>, n: nat, agent: string)
    requires n <= |ops| && CleanOps(ops)
    ensures var entries, advice := Entries(Run(ops, n), agent), AppendedTo(ops, n, agent);
            |entries| == |advice| && forall i :: 0 <= i < |advice| ==> Tells(entries[i].body, advice[i])
  {
    var ss, advice := Sections(ops, n, agent), AppendedTo(ops, n, agent);
    EntriesAreSections(ops, n, agent);
    SectionsAreAppended(ops, n, agent);
    forall i | 0 <= i < |ss| ensures Tells(PyStrip(Body(ss[i])), advice[i]) { BodyTells(ss[i], advice[i]); }
  }

  lemma EntriesAreSections(ops: seq<Op>, n: nat, agent: string)
    requires n <= |ops| && CleanOps(ops)
    ensures Entries(Run(ops, n), agent) == ShownAll(Sections(ops, n, agent))
  {
    var ss := Sections(ops, n, agent);
    FilesAreLogs(ops, n, agent);
    assert forall s :: s in ss ==> Clean(s);
    if ss != [] {
      ReadsLog(Run(ops, n), agent, ss);
      ParseLog(HeaderFor(agent), ss);
    }
  }

  lemma HeaderParts(agent: string, rest: string)
    ensures "# " + (agent + (" " + ("decision log\n\n" + rest)))
            == "# " + agent + " decision log" + "\n" + ("\n" + rest)
  {
    var caption := " decision log";
    assert " " + ("decision log\n\n" + rest) == caption + ("\n" + ("\n" + rest));
    Assoc("# ", agent, caption + ("\n" + ("\n" + rest)));
    Assoc("# " + agent, caption, "\n" + ("\n" + rest));
    Assoc("# " + agent + caption, "\n", "\n" + rest);
  }

  /** The title of a log names its agent. */
  lemma HeaderNamesAgent(agent: string)
    requires IsAgent(agent)
    ensures Lines(HeaderFor(agent))[0] == "# " + agent + " decision log"
  {
    var title := "# " + agent + " decision log";
    assert PySpace('\n') && OneLine(title);
    HeaderParts(agent, NOTE + ORIGIN);
    LinesCons(title, "\n" + (NOTE + ORIGIN));
  }
}
