/** The incremental event-stream reader of the chat page (apps/dashboard/src/lib/sse.ts).
    It follows section 9.2.6 of the WHATWG HTML Living Standard only in part: a field value
    is trimmed at both ends, only "\n" ends a line, and a chunk without data gives nothing. */
module SseSplitter {
  import opened Basics
  import opened Text

  const BREAK := "\n\n"

  /** The characters that String.prototype.trim removes. */
  predicate JsBlank(c: char) {
    var n := c as int;
    9 <= n <= 13 || n == 0x20 || n == 0xA0 || n == 0x1680 || 0x2000 <= n <= 0x200A
    || n == 0x2028 || n == 0x2029 || n == 0x202F || n == 0x205F || n == 0x3000 || n == 0xFEFF
  }

  /** Among the first 128 characters these are tab, newline, vertical tab, form feed, carriage
      return and space. */
  lemma AsciiBlanks(c: char)
    requires c as int < 128
    ensures JsBlank(c) <==> c in "\t\n\U{0B}\U{0C}\r "
  {}

  function Trim(t: string): string {
    Strip(t, JsBlank)
  }

  // ----- One chunk -----

  datatype SseToken = SseToken(event: Option<string>, data: string)

  datatype Fields = Fields(event: Option<string>, data: seq<string>)

  const NO_FIELDS := Fields(None, [])

  function ReadLine(f: Fields, line: string): Fields {
    if StartsWith(line, "event:") then f.(event := Some(Trim(line[6..])))
    else if StartsWith(line, "data:") then f.(data := f.data + [Trim(line[5..])])
    else f
  }

  /** The fields after the first n lines. */
  function ReadLines(lines: seq<string>, n: nat): Fields
    requires n <= |lines|
  {
    if n == 0 then NO_FIELDS else ReadLine(ReadLines(lines, n - 1), lines[n - 1])
  }

  function Finish(f: Fields): Option<SseToken> {
    if f.data == [] then None else Some(SseToken(f.event, Join(f.data)))
  }

  function Parsed(chunk: string): Option<SseToken> {
    Finish(ReadLines(Lines(chunk), |Lines(chunk)|))
  }

  method ParseSseChunk(chunk: string) returns (token: Option<SseToken>)
    ensures token == Parsed(chunk)
  {
    var event: Option<string> := None;
    var data: seq<string> := [];
    var lines := Lines(chunk);
    for i := 0 to |lines|
      invariant Fields(event, data) == ReadLines(lines, i)
    {
      if StartsWith(lines[i], "event:") {
        event := Some(Trim(lines[i][6..]));
      } else if StartsWith(lines[i], "data:") {
        data := data + [Trim(lines[i][5..])];
      }
    }
    if data == [] {
      return None;
    }
    return Some(SseToken(event, Join(data)));
  }

  // ----- What a chunk says -----

  /** The trimmed values of the lines that start with the field, in order. */
  function Values(lines: seq<string>, field: string): seq<string> {
    if lines == [] then [] else ValueOf(lines[0], field) + Values(lines[1..], field)
  }

  function ValueOf(l: string, field: string): seq<string> {
    if StartsWith(l, field) then [Trim(l[|field|..])] else []
  }

  lemma OneValue(l: string, field: string)
    ensures Values([l], field) == ValueOf(l, field)
  {
    assert [l][1..] == [];
  }

  lemma {:induction false} ValuesConcat(a: seq<string>, b: seq<string>, field: string)
    ensures Values(a + b, field) == Values(a, field) + Values(b, field)
    decreases |a|
  {
    if a == [] {
      assert a + b == b;
    } else {
      assert (a + b)[1..] == a[1..] + b;
      ValuesConcat(a[1..], b, field);
    }
  }

  lemma ValuesSnoc(lines: seq<string>, n: nat, field: string)
    requires n < |lines|
    ensures Values(lines[..n + 1], field) == Values(lines[..n], field) + ValueOf(lines[n], field)
  {
    assert lines[..n + 1] == lines[..n] + [lines[n]];
    ValuesConcat(lines[..n], [lines[n]], field);
    OneValue(lines[n], field);
  }

  function Last(values: seq<string>): Option<string> {
    if values == [] then None else Some(values[|values| - 1])
  }

  lemma NotBoth(l: string)
    ensures !(StartsWith(l, "event:") && StartsWith(l, "data:"))
  {
    if StartsWith(l, "event:") { assert l[..6][0] == 'e'; }
    if StartsWith(l, "data:") { assert l[..5][0] == 'd'; }
  }

  /** One more line, on fields that hold the values so far. */
  lemma LineIsRead(f: Fields, l: string, data: seq<string>, events: seq<string>)
    requires f.data == data && f.event == Last(events)
    ensures ReadLine(f, l).data == data + ValueOf(l, "data:")
    ensures ReadLine(f, l).event == Last(events + ValueOf(l, "event:"))
  {
    NotBoth(l);
  }

  ghost predicate AreRead(f: Fields, lines: seq<string>) {
    f.data == Values(lines, "data:") && f.event == Last(Values(lines, "event:"))
  }

  lemma OneMoreIsRead(f: Fields, lines: seq<string>, n: nat)
    requires n < |lines| && AreRead(f, lines[..n])
    ensures AreRead(ReadLine(f, lines[n]), lines[..n + 1])
  {
    ValuesSnoc(lines, n, "data:");
    ValuesSnoc(lines, n, "event:");
    LineIsRead(f, lines[n], Values(lines[..n], "data:"), Values(lines[..n], "event:"));
  }

  lemma {:induction false} LinesAreRead(lines: seq<string>, n: nat)
    requires n <= |lines|
    ensures AreRead(ReadLines(lines, n), lines[..n])
  {
    if n > 0 {
      LinesAreRead(lines, n - 1);
      OneMoreIsRead(ReadLines(lines, n - 1), lines, n - 1);
    }
  }

  /** A chunk without a data line gives nothing; otherwise its data are the trimmed values of
      the data lines, one a line, and its event the value of the last event line. */
  lemma ParsedIsExact(chunk: string)
    ensures var data, events := Values(Lines(chunk), "data:"), Values(Lines(chunk), "event:");
            && (Parsed(chunk).None? <==> data == [])
            && (data != [] ==> Parsed(chunk).value.data == Join(data) && Parsed(chunk).value.event == Last(events))
  {
    var lines := Lines(chunk);
    LinesAreRead(lines, |lines|);
    assert lines[..|lines|] == lines;
  }

  lemma SameValues(a: string, b: string)
    requires Values(Lines(a), "data:") == Values(Lines(b), "data:")
    requires Values(Lines(a), "event:") == Values(Lines(b), "event:")
    ensures Parsed(a) == Parsed(b)
  {
    ParsedIsExact(a);
    ParsedIsExact(b);
  }

  lemma ValuesWithout(before: seq<string>, l: string, after: seq<string>, field: string)
    requires !StartsWith(l, field)
    ensures Values(before + [l] + after, field) == Values(before + after, field)
  {
    ValuesConcat(before + [l], after, field);
    ValuesConcat(before, [l], field);
    ValuesConcat(before, after, field);
    OneValue(l, field);
  }

  /** A line of any other kind, a comment or an id say, changes nothing. */
  lemma OtherLinesAreIgnored(before: seq<string>, l: string, after: seq<string>)
    requires !StartsWith(l, "data:") && !StartsWith(l, "event:") && before + after != []
    requires OneLine(l) && forall x :: x in before + after ==> OneLine(x)
    ensures Parsed(Join(before + [l] + after)) == Parsed(Join(before + after))
  {
    LinesJoin(before + [l] + after);
    LinesJoin(before + after);
    ValuesWithout(before, l, after, "data:");
    ValuesWithout(before, l, after, "event:");
    SameValues(Join(before + [l] + after), Join(before + after));
  }

  // ----- The stream -----

  /** The chunks that are complete in s. */
  function Chunks(s: string): seq<string>
    decreases |s|
  {
    match Cut(s, BREAK)
    case None => []
    case Some((chunk, after)) => [chunk] + Chunks(after)
  }

  /** What is left behind the last complete chunk of s. */
  function Rest(s: string): string
    decreases |s|
  {
    match Cut(s, BREAK)
    case None => s
    case Some((chunk, after)) => Rest(after)
  }

  function TokensOf(chunks: seq<string>): seq<SseToken> {
    if chunks == [] then [] else Yield(chunks[0]) + TokensOf(chunks[1..])
  }

  function Yield(chunk: string): seq<SseToken> {
    match Parsed(chunk) case None => [] case Some(token) => [token]
  }

  /** The first n pieces of the stream put together. */
  function Received(pieces: seq<string>, n: nat): string
    requires n <= |pieces|
  {
    if n == 0 then "" else Received(pieces, n - 1) + pieces[n - 1]
  }

  /** What the reader yields for a text that arrives in one piece. */
  function Tokens(s: string): seq<SseToken> {
    TokensOf(Chunks(s))
  }

  lemma {:induction false} TokensOfConcat(a: seq<string>, b: seq<string>)
    ensures TokensOf(a + b) == TokensOf(a) + TokensOf(b)
    decreases |a|
  {
    if a == [] {
      assert a + b == b;
    } else {
      assert (a + b)[1..] == a[1..] + b;
      TokensOfConcat(a[1..], b);
    }
  }

  /** Yielding the token of the first chunk, if it has one, and going on behind its break. */
  lemma TokensStep(s: string)
    requires Cut(s, BREAK).Some?
    ensures Tokens(s) == Yield(Cut(s, BREAK).value.0) + Tokens(Cut(s, BREAK).value.1)
  {
    assert Chunks(s)[1..] == Chunks(Cut(s, BREAK).value.1);
  }

  /** One more piece: the tokens so far, then those of the buffer with the piece. */
  lemma ReceivePiece(pieces: seq<string>, n: nat)
    requires n < |pieces|
    ensures var sofar := Received(pieces, n);
            var buffer := Rest(sofar) + pieces[n];
            && Tokens(Received(pieces, n + 1)) == Tokens(sofar) + Tokens(buffer)
            && Rest(Received(pieces, n + 1)) == Rest(buffer)
  {
    var sofar := Received(pieces, n);
    SplitAppend(sofar, pieces[n]);
    TokensOfConcat(Chunks(sofar), Chunks(Rest(sofar) + pieces[n]));
  }

  /** Splitting can stop anywhere and go on from what was left. */
  lemma {:induction false} SplitAppend(a: string, b: string)
    ensures Chunks(a + b) == Chunks(a) + Chunks(Rest(a) + b)
    ensures Rest(a + b) == Rest(Rest(a) + b)
    decreases |a|
  {
    var cut := Cut(a, BREAK);
    if cut.Some? {
      var (chunk, after) := cut.value;
      CutExtend(a, BREAK, b);
      SplitAppend(after, b);
      Regroup(chunk, Chunks(after), Chunks(Rest(after) + b));
    }
  }

  lemma Regroup(x: string, a: seq<string>, b: seq<string>)
    ensures [x] + (a + b) == [x] + a + b
  {}

  predicate BreakAt(s: string, k: nat) {
    k + 1 < |s| && s[k] == '\n' && s[k + 1] == '\n'
  }

  lemma BreakStarts(t: string, k: nat)
    requires k <= |t|
    ensures StartsWith(t[k..], BREAK) <==> BreakAt(t, k)
  {
    if StartsWith(t[k..], BREAK) {
      assert t[k..][..2][0] == '\n' && t[k..][..2][1] == '\n';
    }
  }

  /** A break after the chunk is the first one in it. */
  ghost predicate Ended(chunk: string) {
    NoneBefore(chunk + BREAK, |chunk|, BREAK)
  }

  ghost predicate AllEnded(chunks: seq<string>) {
    forall c :: c in chunks ==> Ended(c)
  }

  /** What stands behind the break decides nothing about breaks in front of it. */
  lemma EndedAnywhere(chunk: string, after: string)
    ensures Ended(chunk) <==> NoneBefore(chunk + BREAK + after, |chunk|, BREAK)
  {
    var short, long := chunk + BREAK, chunk + BREAK + after;
    forall k | 0 <= k < |chunk| ensures StartsWith(short[k..], BREAK) <==> StartsWith(long[k..], BREAK) {
      BreakStarts(short, k);
      BreakStarts(long, k);
    }
  }

  /** The chunks and the rest are the whole text, the rest contains no break, and no break
      starts earlier than behind its chunk. */
  lemma {:induction false} SplitIsExact(s: string)
    ensures NoneBefore(Rest(s), |Rest(s)|, BREAK)
    ensures AllEnded(Chunks(s))
    ensures s == Unsplit(Chunks(s)) + Rest(s)
    decreases |s|
  {
    CutIsFirst(s, BREAK);
    match Cut(s, BREAK)
    case None =>
    case Some((chunk, after)) =>
      EndedAnywhere(chunk, after);
      SplitIsExact(after);
      var chunks := [chunk] + Chunks(after);
      assert chunks[1..] == Chunks(after);
      assert s == chunk + BREAK + (Unsplit(Chunks(after)) + Rest(after));
  }

  /** Nothing else splits the text like that. */
  lemma {:induction false} SplitIsUnique(chunks: seq<string>, rest: string)
    requires AllEnded(chunks) && NoneBefore(rest, |rest|, BREAK)
    ensures Chunks(Unsplit(chunks) + rest) == chunks && Rest(Unsplit(chunks) + rest) == rest
    decreases |chunks|
  {
    if chunks == [] {
      assert Unsplit(chunks) + rest == rest;
      CutNone(rest, BREAK);
    } else {
      assert chunks[0] in chunks;
      var after := Unsplit(chunks[1..]) + rest;
      assert Unsplit(chunks) + rest == chunks[0] + BREAK + after;
      EndedAnywhere(chunks[0], after);
      CutFirst(chunks[0], BREAK, after);
      SplitIsUnique(chunks[1..], rest);
    }
  }

  function Unsplit(chunks: seq<string>): string {
    if chunks == [] then "" else chunks[0] + BREAK + Unsplit(chunks[1..])
  }

  lemma GoOn(tokens: seq<SseToken>, more: seq<SseToken>, rest: seq<SseToken>)
    ensures tokens + (more + rest) == tokens + more + rest && tokens + [] == tokens
  {}

  /** The inner loop: yield what is complete in the buffer. */
  method Drain(received: string) returns (tokens: seq<SseToken>, buffer: string)
    ensures tokens == Tokens(received) && buffer == Rest(received)
  {
    tokens, buffer := [], received;
    var cut := Cut(buffer, BREAK);
    while cut.Some?
      invariant cut == Cut(buffer, BREAK)
      invariant tokens + Tokens(buffer) == Tokens(received)
      invariant Rest(buffer) == Rest(received)
      decreases |buffer|
    {
      TokensStep(buffer);
      var (chunk, after) := cut.value;
      GoOn(tokens, Yield(chunk), Tokens(after));
      var parsed := ParseSseChunk(chunk);
      if parsed.Some? {
        tokens := tokens + [parsed.value];
      }
      buffer := after;
      cut := Cut(buffer, BREAK);
    }
    assert Tokens(buffer) == [];
  }

  /** Whatever the cuts, the reader yields the tokens of the whole text and keeps a buffer
      without a break. The buffer is dropped when the stream ends. */
  method StreamChat(pieces: seq<string>) returns (tokens: seq<SseToken>, buffer: string)
    ensures tokens == Tokens(Received(pieces, |pieces|))
    ensures buffer == Rest(Received(pieces, |pieces|))
    ensures NoneBefore(buffer, |buffer|, BREAK)
  {
    tokens, buffer := [], "";
    for i := 0 to |pieces|
      invariant tokens == Tokens(Received(pieces, i)) && buffer == Rest(Received(pieces, i))
    {
      ReceivePiece(pieces, i);
      var yielded: seq<SseToken>;
      yielded, buffer := Drain(buffer + pieces[i]);
      tokens := tokens + yielded;
    }
    SplitIsExact(Received(pieces, |pieces|));
  }

  /** A token is yielded as soon as its break has arrived and is never taken back. */
  lemma TokensOnlyGrow(a: string, b: string)
    ensures Tokens(a) <= Tokens(a + b)
    ensures Chunks(a) <= Chunks(a + b)
  {
    SplitAppend(a, b);
    TokensOfConcat(Chunks(a), Chunks(Rest(a) + b));
  }

  // ----- Round trips -----

  /** What can come out of the reader: every line of every field is trimmed. */
  ghost predicate Readable(t: SseToken) {
    && (t.event.Some? ==> OneLine(t.event.value) && Trimmed(t.event.value, JsBlank))
    && forall l :: l in Lines(t.data) ==> Trimmed(l, JsBlank)
  }

  function DataLines(data: seq<string>): seq<string> {
    if data == [] then [] else ["data: " + data[0]] + DataLines(data[1..])
  }

  /** The event as the standard writes it: one line for the name, one for each data line. */
  function Serialize(t: SseToken): string {
    Join((if t.event.Some? then ["event: " + t.event.value] else []) + DataLines(Lines(t.data)))
  }

  function SerializeAll(ts: seq<SseToken>): string {
    if ts == [] then "" else Serialize(ts[0]) + BREAK + SerializeAll(ts[1..])
  }

  lemma TrimValue(l: string)
    requires Trimmed(l, JsBlank)
    ensures Trim(" " + l) == l
  {
    StripPadded(" ", l, "", JsBlank);
    assert " " + l + "" == " " + l;
  }

  lemma TrimIsTrimmed(l: string)
    requires OneLine(l)
    ensures OneLine(Trim(l)) && Trimmed(Trim(l), JsBlank)
  {
    var head, tail := StripShape(l, JsBlank);
    forall c | c in Trim(l) ensures c in l {}
  }

  lemma {:induction false} ReadableFields(lines: seq<string>, n: nat)
    requires n <= |lines| && forall l :: l in lines ==> OneLine(l)
    ensures var f := ReadLines(lines, n);
            && (f.event.Some? ==> OneLine(f.event.value) && Trimmed(f.event.value, JsBlank))
            && forall l :: l in f.data ==> OneLine(l) && Trimmed(l, JsBlank)
  {
    if n > 0 {
      ReadableFields(lines, n - 1);
      var l := lines[n - 1];
      assert l in lines;
      if StartsWith(l, "event:") {
        TrimIsTrimmed(l[6..]);
      } else if StartsWith(l, "data:") {
        TrimIsTrimmed(l[5..]);
      }
    }
  }

  /** Whatever chunk arrives, the token read from it is readable. */
  lemma ParsedIsReadable(chunk: string)
    requires Parsed(chunk).Some?
    ensures Readable(Parsed(chunk).value)
  {
    JoinLines(chunk);
    ReadableFields(Lines(chunk), |Lines(chunk)|);
    LinesJoin(ReadLines(Lines(chunk), |Lines(chunk)|).data);
  }

  lemma ReadData(f: Fields, l: string)
    requires Trimmed(l, JsBlank)
    ensures ReadLine(f, "data: " + l) == f.(data := f.data + [l])
  {
    var line := "data: " + l;
    assert line[5..] == " " + l && line[..5] == "data:";
    assert !StartsWith(line, "event:") by { assert line[..6][0] == 'd'; }
    TrimValue(l);
  }

  lemma ReadEvent(l: string)
    requires Trimmed(l, JsBlank)
    ensures ReadLines(["event: " + l], 1) == Fields(Some(l), [])
  {
    var line := "event: " + l;
    assert line[6..] == " " + l && line[..6] == "event:";
    TrimValue(l);
    assert ReadLines([line], 0) == NO_FIELDS;
  }

  lemma {:induction false} DataLinesRead(data: seq<string>, n: nat, before: seq<string>, f: Fields)
    requires n <= |data| && forall l :: l in data ==> Trimmed(l, JsBlank)
    requires f == ReadLines(before, |before|)
    ensures |DataLines(data)| == |data|
    ensures ReadLines(before + DataLines(data), |before| + n) == f.(data := f.data + data[..n])
  {
    DataLinesAt(data);
    var lines := before + DataLines(data);
    if n == 0 {
      ReadPrefix(before, DataLines(data), |before|);
    } else {
      DataLinesRead(data, n - 1, before, f);
      var l := data[n - 1];
      assert l in data;
      assert lines[|before| + n - 1] == "data: " + l;
      ReadData(ReadLines(lines, |before| + n - 1), l);
      assert data[..n] == data[..n - 1] + [l];
    }
  }

  lemma {:induction false} ReadPrefix(before: seq<string>, more: seq<string>, n: nat)
    requires n <= |before|
    ensures ReadLines(before + more, n) == ReadLines(before, n)
  {
    if n > 0 { ReadPrefix(before, more, n - 1); }
  }

  lemma {:induction false} DataLinesAt(data: seq<string>)
    ensures |DataLines(data)| == |data|
    ensures forall i :: 0 <= i < |data| ==> DataLines(data)[i] == "data: " + data[i]
    decreases |data|
  {
    if data != [] {
      DataLinesAt(data[1..]);
      forall i | 0 <= i < |data| ensures DataLines(data)[i] == "data: " + data[i] {
        if i > 0 { assert data[i] == data[1..][i - 1]; }
      }
    }
  }

  /** The lines of a serialized token are the ones written, and none is empty. */
  lemma SerializedLines(t: SseToken) returns (lines: seq<string>)
    requires t.event.Some? ==> OneLine(t.event.value)
    ensures lines == (if t.event.Some? then ["event: " + t.event.value] else []) + DataLines(Lines(t.data))
    ensures lines != [] && forall l :: l in lines ==> l != "" && OneLine(l)
    ensures Lines(Serialize(t)) == lines && Serialize(t) == Join(lines)
  {
    lines := (if t.event.Some? then ["event: " + t.event.value] else []) + DataLines(Lines(t.data));
    JoinLines(t.data);
    DataLinesAt(Lines(t.data));
    forall l | l in DataLines(Lines(t.data)) ensures l != "" && OneLine(l) {
      var i :| 0 <= i < |Lines(t.data)| && DataLines(Lines(t.data))[i] == l;
      assert Lines(t.data)[i] in Lines(t.data);
    }
    LinesJoin(lines);
  }

  /** A token survives writing and reading exactly when every line of it is trimmed. */
  lemma RoundTripIsExact(t: SseToken)
    ensures Parsed(Serialize(t)) == Some(t) <==> Readable(t)
  {
    if Readable(t) {
      var lines := SerializedLines(t);
      var data := Lines(t.data);
      JoinLines(t.data);
      DataLinesAt(data);
      var before := if t.event.Some? then ["event: " + t.event.value] else [];
      if t.event.Some? {
        ReadEvent(t.event.value);
      }
      DataLinesRead(data, |data|, before, Fields(t.event, []));
      assert [] + data[..|data|] == data;
    } else if Parsed(Serialize(t)) == Some(t) {
      ParsedIsReadable(Serialize(t));
    }
  }

  /** Lines that do not start or end the text and have something between them. */
  ghost predicate Solid(s: string) {
    s != "" && s[0] != '\n' && s[|s| - 1] != '\n' && forall k: nat :: !BreakAt(s, k)
  }

  lemma SolidLine(l: string)
    requires l != "" && OneLine(l)
    ensures Solid(l)
  {
    assert forall k :: 0 <= k < |l| ==> l[k] in l;
  }

  lemma SolidAcross(a: string, b: string)
    requires Solid(a) && Solid(b)
    ensures Solid(a + "\n" + b)
  {
    var s := a + "\n" + b;
    forall k: nat ensures !BreakAt(s, k) {
      assert !BreakAt(a, k);
      if k > |a| { assert !BreakAt(b, k - |a| - 1); }
    }
  }

  /** A block of non-empty lines has no empty line. */
  lemma {:induction false} SolidBlock(lines: seq<string>)
    requires lines != [] && forall l :: l in lines ==> l != "" && OneLine(l)
    ensures Solid(Join(lines))
    decreases |lines|
  {
    assert lines[0] in lines;
    SolidLine(lines[0]);
    if |lines| > 1 {
      forall l | l in lines[1..] ensures l in lines {}
      SolidBlock(lines[1..]);
      SolidAcross(lines[0], Join(lines[1..]));
    }
  }

  lemma FirstBreak(s: string, more: string)
    requires Solid(s)
    ensures Cut(s + BREAK + more, BREAK) == Some((s, more))
  {
    var t := s + BREAK + more;
    forall k | 0 <= k < |s| ensures !StartsWith(t[k..], BREAK) {
      assert !BreakAt(s, k);
      BreakStarts(t, k);
    }
    CutFirst(s, BREAK, more);
  }

  lemma {:induction false} TokensAreReadable(chunks: seq<string>)
    ensures forall t :: t in TokensOf(chunks) ==> Readable(t)
    decreases |chunks|
  {
    if chunks != [] {
      TokensAreReadable(chunks[1..]);
      if Parsed(chunks[0]).Some? { ParsedIsReadable(chunks[0]); }
    }
  }

  lemma {:induction false} ReadableStream(ts: seq<SseToken>)
    requires forall t :: t in ts ==> Readable(t)
    ensures Tokens(SerializeAll(ts)) == ts && Rest(SerializeAll(ts)) == ""
    decreases |ts|
  {
    if ts != [] {
      var t, rest := ts[0], SerializeAll(ts[1..]);
      assert t in ts;
      var lines := SerializedLines(t);
      SolidBlock(lines);
      FirstBreak(Join(lines), rest);
      RoundTripIsExact(t);
      ReadableStream(ts[1..]);
      var chunks := Chunks(SerializeAll(ts));
      assert chunks[1..] == Chunks(rest);
    }
  }

  /** Serialized tokens, one after the other, are read back as they are exactly when every line
      of every token is trimmed; then nothing is left in the buffer. */
  lemma StreamRoundTrip(ts: seq<SseToken>)
    ensures Tokens(SerializeAll(ts)) == ts <==> forall t :: t in ts ==> Readable(t)
    ensures Tokens(SerializeAll(ts)) == ts ==> Rest(SerializeAll(ts)) == ""
  {
    if forall t :: t in ts ==> Readable(t) {
      ReadableStream(ts);
    } else if Tokens(SerializeAll(ts)) == ts {
      TokensAreReadable(Chunks(SerializeAll(ts)));
    }
  }

  /** Nothing is complete exactly as long as the text contains no break. */
  lemma NothingIsComplete(s: string)
    ensures Chunks(s) == [] <==> NoneBefore(s, |s|, BREAK)
    ensures Chunks(s) == [] ==> Rest(s) == s
  {
    CutIsFirst(s, BREAK);
    if NoneBefore(s, |s|, BREAK) { CutNone(s, BREAK); }
  }

  /** The standard also ends lines with "\r\n"; a server that does so gets no token through. */
  lemma CarriageReturnsHideBreaks(s: string)
    requires forall k :: 0 < k < |s| && s[k] == '\n' ==> s[k - 1] == '\r'
    ensures Tokens(s) == [] && Rest(s) == s
  {
    forall k | 0 <= k < |s| ensures !StartsWith(s[k..], BREAK) {
      BreakStarts(s, k);
    }
    NothingIsComplete(s);
  }
}
