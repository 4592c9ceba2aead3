/** Attaching a second reflection to an entry of a decision log: exactly when it replaces the
    first one (packages/data-lake/data_lake/decision_log.py:180-192). */
module LogReplacing {
  import opened Basics
  import opened Text
  import opened Scanner
  import opened LogMarkup
  import opened LogFormat
  import opened LogSections
  import opened LogFinding
  import opened LogEditing

  lemma RStripTwice(t: string)
    ensures RStrip(RStrip(t, Newline), Newline) == RStrip(t, Newline)
  {
    var tail := RStripShape(t, Newline);
  }

  /** An edit leaves its entry where it is found, whatever the new reflection is. */
  lemma EditKeepsPlace(ss: seq<Section>, id: string, agent: string, r: string)
    requires Findable(ss, id, agent) && HasEntry(ss, id, agent) && Trimmed(r, PySpace)
    ensures var k := FirstIndex(ss, id, agent);
            var once := ss[k := Edited(ss[k], r)];
            && FirstIndex(once, id, agent) == k && Framed(once[k])
            && PrintedUpTo(once, id, agent) && Undisturbed(once, id, agent)
  {
    var k := FirstIndex(ss, id, agent);
    var once := ss[k := Edited(ss[k], r)];
    EditedIsFramed(ss[k], r);
    assert forall j :: 0 <= j < k ==> once[j] == ss[j];
    assert Matches(once[k], id, agent);
    var n := FirstIndex(once, id, agent);
    assert n == k;
  }

  /** The editor can take back what it wrote for r: no end of an entry stands in it, and
      removing the blocks from its block leaves only newlines. */
  predicate Removable(r: string) {
    !Contains(r, END_ENTRY) && RStrip(StripBlocks(ReflectionBlock(r)), Newline) == ""
  }

  lemma {:induction false} RStripBehind(t: string, u: string)
    requires RStrip(t, Newline) == t
    ensures RStrip(t + u, Newline) == t + RStrip(u, Newline)
    decreases |u|
  {
    if u == "" {
      assert t + u == t;
    } else if Newline(u[|u| - 1]) {
      assert (t + u)[..|t + u| - 1] == t + u[..|u| - 1];
      RStripBehind(t, u[..|u| - 1]);
    }
  }

  /** Blocks are removed from an edited body as from its block alone. */
  lemma BodyStripped(base: string, u: string)
    requires Free(base + "\n", OPEN) && RStrip(base, Newline) == base
    ensures RStrip(StripBlocks(base + "\n" + u), Newline) == base + RStrip("\n" + StripBlocks(u), Newline)
  {
    StripBehind(base + "\n", u);
    Assoc(base, "\n", StripBlocks(u));
    RStripBehind(base, "\n" + StripBlocks(u));
  }

  lemma BlockStripped(r: string)
    ensures StripBlocks(ReflectionBlock(r)) == "\n" + StripBlocks(Lead(Closing(r)))
  {
    FreeLetters("\n", OPEN);
    StripBehind("\n", Lead(Closing(r)));
  }

  /** The second edit makes of an entry what it would have made of the first one. */
  ghost predicate SameEntry(s: Section, e: Section, more: string, reflection: string) {
    NewText(Body(e), more, reflection) == NewText(Body(s), more, reflection)
  }

  /** An entry that ends in its reflection leaves the rest of it behind. */
  lemma CutShortDiffers(s: Section, r: string, more: string, reflection: string)
    requires Readable(s) && Trimmed(r, PySpace) && Contains(r, END_ENTRY)
    ensures !SameEntry(s, Edited(s, r), more, reflection)
  {
    var e := Edited(s, r);
    EditedIsFramed(s, r);
    RStripTwice(s.base);
    NewBodyIsEdited(s, reflection);
    CutShortBody(e, "\n" + more);
    BodyCut(s, "\n" + more);
    BodyStripped(e.base, Lead(Cut(r, END_ENTRY).value.0));
  }

  lemma WholeEntryDiffers(s: Section, r: string, more: string, reflection: string)
    requires Readable(s) && Trimmed(r, PySpace) && !Contains(r, END_ENTRY)
    ensures SameEntry(s, Edited(s, r), more, reflection) <==> Removable(r)
  {
    var e, block := Edited(s, r), ReflectionBlock(PyStrip(reflection));
    EditedIsFramed(s, r);
    RStripTwice(s.base);
    NewBodyIsEdited(s, reflection);
    BodyCut(e, "\n" + more);
    BodyCut(s, "\n" + more);
    BodyWithBlock(e);
    BodyStripped(e.base, Lead(Closing(r)));
    BlockStripped(r);
    var left := RStrip(StripBlocks(ReflectionBlock(r)), Newline);
    var end := END_ENTRY + ("\n" + more);
    assert NewBody(Body(e), reflection) == e.base + left + block;
    assert NewBody(Body(s), reflection) == e.base + block;
    assert |e.base + left + block + end| == |e.base + block + end| + |left|;
    if left == "" { assert e.base + left == e.base; }
  }

  lemma SameBehind(a: string, x: string, y: string)
    ensures a + x == a + y <==> x == y
  {
    assert (a + x)[|a|..] == x && (a + y)[|a|..] == y;
  }

  lemma SameFile(header: string, front: string, line: string, x: string, y: string)
    ensures header + (front + ("\n" + (line + x))) == header + (front + ("\n" + (line + y))) <==> x == y
  {
    SameBehind(line, x, y);
    SameBehind("\n", line + x, line + y);
    SameBehind(front, "\n" + (line + x), "\n" + (line + y));
    SameBehind(header, front + ("\n" + (line + x)), front + ("\n" + (line + y)));
  }

  lemma SameEntryIsRemovable(s: Section, r: string, more: string, reflection: string)
    requires Readable(s) && Trimmed(r, PySpace)
    ensures SameEntry(s, Edited(s, r), more, reflection) <==> Removable(r)
  {
    if Contains(r, END_ENTRY) {
      CutShortDiffers(s, r, more, reflection);
    } else {
      WholeEntryDiffers(s, r, more, reflection);
    }
  }

  /** The log after an edit is cut around the same section. */
  lemma SplitsOnce(text: string, header: string, ss: seq<Section>, k: nat, front: string, more: string, e: Section)
    requires Splits(text, header, ss, k, front, more)
    ensures Splits(header + (front + (SectionText(e) + more)), header, ss[k := e], k, front, more)
  {
    LogTextAt(ss, k, e);
    assert ss[k := e][..k] == ss[..k] && ss[k := e][k + 1..] == ss[k + 1..];
  }

  /** The second of two edits: `once` is the file after the first one. */
  lemma SecondEdit(text: string, header: string, ss: seq<Section>, k: nat, front: string, more: string,
                   id: string, agent: string, r: string, reflection: string, once: string)
    requires Free(header, BEGIN) && Findable(ss, id, agent) && IsId(id) && IsAgent(agent) && Trimmed(r, PySpace)
    requires k == FirstIndex(ss, id, agent) && Splits(text, header, ss, k, front, more)
    requires once == header + (front + (SectionText(Edited(ss[k], r)) + more))
    ensures var w := BeginLine(id, agent) + NewText(Body(Edited(ss[k], r)), more, reflection);
            Inject(once, id, agent, reflection) == (header + (front + ("\n" + w)), true)
  {
    EditKeepsPlace(ss, id, agent, r);
    SplitsOnce(text, header, ss, k, front, more, Edited(ss[k], r));
    InjectAt(once, header, ss[k := Edited(ss[k], r)], k, front, more, id, agent, reflection);
  }

  lemma AttachTwiceTo(text: string, header: string, ss: seq<Section>, k: nat, front: string, more: string,
                      id: string, agent: string, r1: string, r2: string, once: string)
    requires Free(header, BEGIN) && Findable(ss, id, agent) && IsId(id) && IsAgent(agent)
    requires k == FirstIndex(ss, id, agent) && Splits(text, header, ss, k, front, more)
    requires once == Inject(text, id, agent, r1).0
    ensures Inject(once, id, agent, r2) == Inject(text, id, agent, r2) <==> Removable(PyStrip(r1))
  {
    var s, r := ss[k], PyStrip(r1);
    var head, tail := StripShape(r1, PySpace);
    InjectFound(text, header, ss, k, front, more, id, agent, r1);
    SecondEdit(text, header, ss, k, front, more, id, agent, r, r2, once);
    InjectAt(text, header, ss, k, front, more, id, agent, r2);
    SameFile(header, front, BeginLine(id, agent), NewText(Body(Edited(s, r)), more, r2), NewText(Body(s), more, r2));
    SameEntryIsRemovable(s, r, more, r2);
  }

  /** Attaching r1 and then r2 leaves the same file as attaching r2 alone if and only if there
      is no entry to attach them to, or the block of r1 can be taken back. */
  lemma AttachTwice(header: string, ss: seq<Section>, id: string, agent: string, r1: string, r2: string)
    requires Free(header, BEGIN) && Findable(ss, id, agent) && IsId(id) && IsAgent(agent)
    ensures var text := header + LogText(ss);
            Inject(Inject(text, id, agent, r1).0, id, agent, r2) == Inject(text, id, agent, r2)
            <==> HasEntry(ss, id, agent) ==> Removable(PyStrip(r1))
  {
    var text, k := header + LogText(ss), FirstIndex(ss, id, agent);
    if k < |ss| {
      AttachTwiceTo(text, header, ss, k, LogText(ss[..k]), LogText(ss[k + 1..]), id, agent, r1, r2,
                    Inject(text, id, agent, r1).0);
    } else {
      InjectLog(header, ss, id, agent, r1);
      EditFirstIs(ss, id, agent, PyStrip(r1));
    }
  }

  // ----- Which reflections can be taken back -----

  lemma ClosedIsRemovable(r: string)
    requires Closed(r)
    ensures Removable(r)
  {
    ClosedBlockStripped(r);
    BlockStripped(r);
    assert RStrip("\n", Newline) == RStrip("", Newline);
  }

  /** A text with a delimiter in it is not made of newlines. */
  lemma NotBlank(t: string, end: string)
    requires end != "" && end[0] == '<'
    ensures RStrip(t + end, Newline) != ""
  {
    var tail := RStripShape(t + end, Newline);
    assert (t + end)[|t|] == '<' && "" + tail == tail;
    assert '<' !in tail && '<' in t + end;
  }

  lemma NoBlocks(t: string)
    requires !Contains(t, REFLECTION)
    ensures StripBlocks(t) == t
  {
    CutIsFirst(t, REFLECTION);
    forall k | 0 <= k < |t| ensures MatchBlock(t[k..] + "").None? { assert t[k..] + "" == t[k..]; }
    assert t + "" == t;
    ScanPass(t, "", MatchBlock);
  }

  const LABEL_LINE: string := "\n" + (LABEL + " ")

  lemma LabelCut(r: string)
    requires Contains(r, REFLECTION_END)
    ensures Cut(LABEL_LINE + Closing(r), REFLECTION_END).Some?
    ensures Cut(LABEL_LINE + Closing(r), REFLECTION_END).value.1 == Cut(r, REFLECTION_END).value.1 + BLOCK_END
  {
    Delimiters();
    LabelFree(REFLECTION_END);
    FreeConcat(LABEL, " ", REFLECTION_END);
    FreeConcat("\n", LABEL + " ", REFLECTION_END);
    CutExtend(r, REFLECTION_END, BLOCK_END);
    CutSkip(LABEL_LINE, Closing(r), REFLECTION_END);
  }

  lemma LeadLabel(u: string)
    ensures Lead(u) == REFLECTION + (LABEL_LINE + u)
  {
    Assoc("\n", LABEL + " ", u);
    Assoc(LABEL, " ", u);
  }

  /** What stands behind the first end in a reflection is looked at again. */
  lemma OpenBlockStripped(r: string)
    requires Contains(r, REFLECTION_END)
    ensures StripBlocks(Lead(Closing(r)))
            == StripBlocks(BehindNewline(Cut(r, REFLECTION_END).value.1 + BLOCK_END))
  {
    LabelCut(r);
    LeadLabel(Closing(r));
    BlockSkips(LABEL_LINE + Closing(r));
    ScanHere(Lead(Closing(r)), MatchBlock);
  }

  /** A reflection that opens no block can be taken back exactly when it can be read back. */
  lemma RemovableIsClosed(r: string)
    requires !Contains(r, REFLECTION)
    ensures Removable(r) <==> Closed(r)
  {
    if Closed(r) {
      ClosedIsRemovable(r);
    } else if !Contains(r, END_ENTRY) {
      var b := Cut(r, REFLECTION_END).value.1;
      var left := BehindNewline(b + BLOCK_END);
      OpenBlockStripped(r);
      NoneBehind(r);
      NoBlocks(left);
      BlockStripped(r);
      var t := EndsInDelimiter(b);
      Assoc("\n", t, REFLECTION_END + "\n");
      NotBlank("\n" + t, REFLECTION_END + "\n");
    }
  }

  lemma EndsInDelimiter(b: string) returns (t: string)
    ensures BehindNewline(b + BLOCK_END) == t + (REFLECTION_END + "\n")
  {
    var end, left := REFLECTION_END + "\n", BehindNewline(b + BLOCK_END);
    assert b + BLOCK_END == b + "\n" + end;
    t := left[..|left| - |end|];
    assert left[|left| - |end|..] == end;
  }

  lemma BehindNewlineShape(t: string) returns (skipped: string)
    ensures t == skipped + BehindNewline(t)
  {
    skipped := t[..|t| - |BehindNewline(t)|];
  }

  /** Behind the first end of a block no block opens, if none opened in front. */
  lemma NoneBehind(r: string)
    requires Contains(r, REFLECTION_END) && !Contains(r, REFLECTION)
    ensures !Contains(BehindNewline(Cut(r, REFLECTION_END).value.1 + BLOCK_END), REFLECTION)
  {
    var (a, b) := Cut(r, REFLECTION_END).value;
    var behind := b + BLOCK_END;
    ClosingHasNone(r);
    var skipped := BehindNewlineShape(behind);
    Assoc(a + REFLECTION_END, b, BLOCK_END);
    assert behind + "" == behind && Closing(r) + "" == Closing(r);
    if Contains(BehindNewline(behind), REFLECTION) {
      ContainsMore(skipped, BehindNewline(behind), "", REFLECTION);
      ContainsMore(a + REFLECTION_END, behind, "", REFLECTION);
    }
  }

  lemma ClosingHasNone(r: string)
    requires !Contains(r, REFLECTION)
    ensures !Contains(Closing(r), REFLECTION)
  {
    Delimiters();
    FreeClosed(r, '\n', REFLECTION);
    DelimitersApart(REFLECTION_END, REFLECTION);
    FreeLetters("\n", REFLECTION);
    FreeConcat(REFLECTION_END, "\n", REFLECTION);
    FreeConcat(r + "\n", REFLECTION_END + "\n", REFLECTION);
    ClosingSplit(r);
    FreeHasNone(Closing(r), REFLECTION);
  }

  lemma NestedBlockStripped()
    ensures StripBlocks(REFLECTION + BLOCK_END) == ""
  {
    FreeLetters("\n", REFLECTION_END);
    CutFree("\n", REFLECTION_END, "\n");
    assert "\n" + REFLECTION_END + "\n" == BLOCK_END;
    BlockSkips(BLOCK_END);
    assert BehindNewline("\n") == "";
    ScanHere(REFLECTION + BLOCK_END, MatchBlock);
    NoBlocks("");
  }

  /** Read back and taken back are different things: this reflection ends its block and opens
      another one, which the code removes as well. */
  lemma NestedBlockIsRemovable()
    ensures Removable(REFLECTION_END + REFLECTION) && !Closed(REFLECTION_END + REFLECTION)
  {
    var r := REFLECTION_END + REFLECTION;
    Delimiters();
    DelimitersApart(REFLECTION_END, END_ENTRY);
    DelimitersApart(REFLECTION, END_ENTRY);
    FreeConcat(REFLECTION_END, REFLECTION, END_ENTRY);
    FreeHasNone(r, END_ENTRY);
    FreeLetters("", REFLECTION_END);
    CutFree("", REFLECTION_END, REFLECTION);
    assert "" + REFLECTION_END + REFLECTION == r;
    OpenBlockStripped(r);
    NestedBlockStripped();
    BlockStripped(r);
    assert RStrip("\n", Newline) == RStrip("", Newline);
  }

  lemma ContainsItself(p: string)
    ensures Contains(p, p)
  {
    assert StartsWith(p, p);
  }

  /** Neither closing delimiter can be taken back. */
  lemma DelimitersStay()
    ensures !Removable(END_ENTRY) && !Removable(REFLECTION_END)
    ensures PyStrip(END_ENTRY) == END_ENTRY && PyStrip(REFLECTION_END) == REFLECTION_END
  {
    Delimiters();
    ContainsItself(END_ENTRY);
    ContainsItself(REFLECTION_END);
    DelimitersApart(REFLECTION_END, REFLECTION);
    FreeHasNone(REFLECTION_END, REFLECTION);
    RemovableIsClosed(REFLECTION_END);
    DelimiterStrips(END_ENTRY);
    DelimiterStrips(REFLECTION_END);
  }

  lemma DelimiterStrips(p: string)
    requires p != "" && p[0] == '<' && p[|p| - 1] == '>'
    ensures PyStrip(p) == p
  {
    assert "" + p + "" == p;
    StripPadded("", p, "", PySpace);
  }

  /** In every log, an entry that was given the end of an entry or of a block as its reflection
      keeps part of it when a second one is attached. */
  lemma AttachTwiceCanFail(header: string, ss: seq<Section>, id: string, agent: string, r1: string, r2: string)
    requires Free(header, BEGIN) && Findable(ss, id, agent) && IsId(id) && IsAgent(agent) && HasEntry(ss, id, agent)
    requires r1 == END_ENTRY || r1 == REFLECTION_END
    ensures var text := header + LogText(ss);
            Inject(Inject(text, id, agent, r1).0, id, agent, r2) != Inject(text, id, agent, r2)
  {
    DelimitersStay();
    AttachTwice(header, ss, id, agent, r1, r2);
  }
}
