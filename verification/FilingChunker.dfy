/** The overlapping chunker for filing sections
    (apps/agent_fundamental/fund/filings/chunker.py), from the sentence list on. */
module FilingChunker {
  /** A sentence with its number of words. The splitter never yields a blank sentence, so
      joining, stripping and dropping empty chunks leaves every chunk as it is, and the
      words of a chunk are those of its sentences. */
  datatype Sentence = Sentence(text: string, words: nat)

  type Chunk = seq<Sentence>

  /** Whitespace count plus 30 %, truncated, plus one. */
  function ApproxTokens(words: nat): nat {
    words * 13 / 10 + 1
  }

  /** One more than the words and three tenths of them, rounded down. */
  lemma ApproxTokensRounds(words: nat)
    ensures 10 * (ApproxTokens(words) - 1) <= 13 * words < 10 * ApproxTokens(words)
  {}

  function Tokens(s: Sentence): nat {
    ApproxTokens(s.words)
  }

  /** The counter of sentences lo up to hi: every sentence rounded on its own. */
  function Sum(c: Chunk, lo: nat, hi: nat): nat
    requires lo <= hi <= |c|
    decreases hi - lo
  {
    if lo == hi then 0 else Tokens(c[lo]) + Sum(c, lo + 1, hi)
  }

  function TokenSum(c: Chunk): nat {
    Sum(c, 0, |c|)
  }

  /** Where the longest suffix within the overlap starts, given that the one at i fits. */
  function FitFrom(c: Chunk, i: nat, overlap: int): (r: nat)
    requires i <= |c|
    ensures r <= i
  {
    if i == 0 || Sum(c, i - 1, |c|) > overlap then i else FitFrom(c, i - 1, overlap)
  }

  function Tail(c: Chunk, overlap: int): Chunk {
    c[FitFrom(c, |c|, overlap)..]
  }

  method TailWithOverlap(c: Chunk, overlap: int) returns (out: Chunk)
    ensures out == Tail(c, overlap)
  {
    out := [];
    var total := 0;
    var i: nat := |c|;
    while i > 0
      invariant i <= |c| && out == c[i..] && total == Sum(c, i, |c|)
      invariant FitFrom(c, |c|, overlap) == FitFrom(c, i, overlap)
    {
      var st := Tokens(c[i - 1]);
      if total + st > overlap {
        break;
      }
      out := [c[i - 1]] + out;
      total := total + st;
      i := i - 1;
    }
  }

  /** The chunks still to come, with `current` open and sentence i next. */
  function Build(current: Chunk, ss: seq<Sentence>, i: nat, target: int, overlap: int): seq<Chunk>
    requires i <= |ss|
    decreases |ss| - i
  {
    if i == |ss| then (if current == [] then [] else [current])
    else if TokenSum(current) + Tokens(ss[i]) > target && current != [] then
      [current] + Build(Tail(current, overlap) + [ss[i]], ss, i + 1, target, overlap)
    else
      Build(current + [ss[i]], ss, i + 1, target, overlap)
  }

  method ChunkSection(ss: seq<Sentence>, target: int, overlap: int) returns (chunks: seq<Chunk>)
    ensures chunks == Build([], ss, 0, target, overlap)
  {
    chunks := [];
    var current: Chunk := [];
    var currentTokens := 0;
    for i := 0 to |ss|
      invariant currentTokens == TokenSum(current)
      invariant chunks + Build(current, ss, i, target, overlap) == Build([], ss, 0, target, overlap)
    {
      var st := Tokens(ss[i]);
      if currentTokens + st > target && current != [] {
        chunks := chunks + [current];
        current := TailWithOverlap(current, overlap);
        currentTokens := CountTokens(current);
      }
      TokenSumSnoc(current, ss[i]);
      current := current + [ss[i]];
      currentTokens := currentTokens + st;
    }
    if current != [] {
      chunks := chunks + [current];
    }
  }

  method CountTokens(c: Chunk) returns (n: nat)
    ensures n == TokenSum(c)
  {
    n := 0;
    for i := 0 to |c|
      invariant n == Sum(c, 0, i)
    {
      SumSnoc(c, 0, i);
      n := n + Tokens(c[i]);
    }
  }

  lemma {:induction false} SumSnoc(c: Chunk, lo: nat, hi: nat)
    requires lo <= hi < |c|
    ensures Sum(c, lo, hi + 1) == Sum(c, lo, hi) + Tokens(c[hi])
    decreases hi - lo
  {
    if lo < hi { SumSnoc(c, lo + 1, hi); }
  }

  /** Sums depend only on the sentences summed. */
  lemma {:induction false} SumShift(c: Chunk, d: Chunk, lo: nat, hi: nat, at: nat)
    requires lo <= hi <= |c| && at + hi <= |d|
    requires forall k :: lo <= k < hi ==> c[k] == d[at + k]
    ensures Sum(c, lo, hi) == Sum(d, at + lo, at + hi)
    decreases hi - lo
  {
    if lo < hi { SumShift(c, d, lo + 1, hi, at); }
  }

  lemma TokenSumSnoc(c: Chunk, s: Sentence)
    ensures TokenSum(c + [s]) == TokenSum(c) + Tokens(s)
  {
    SumSnoc(c + [s], 0, |c|);
    SumShift(c, c + [s], 0, |c|, 0);
  }

  // ----- The overlap -----

  lemma {:induction false} FitFacts(c: Chunk, i: nat, overlap: int)
    requires i <= |c| && (i < |c| ==> Sum(c, i, |c|) <= overlap)
    ensures var r := FitFrom(c, i, overlap);
            && (r < |c| ==> Sum(c, r, |c|) <= overlap)
            && (r > 0 ==> Sum(c, r - 1, |c|) > overlap)
  {
    if i > 0 && Sum(c, i - 1, |c|) <= overlap { FitFacts(c, i - 1, overlap); }
  }

  lemma {:induction false} SuffixGrows(c: Chunk, j: nat, k: nat)
    requires j <= k <= |c|
    ensures Sum(c, k, |c|) <= Sum(c, j, |c|)
    decreases k - j
  {
    if j < k { SuffixGrows(c, j + 1, k); }
  }

  /** The tail is the longest suffix within the overlap: it fits, unless it is empty, and
      no longer suffix does. */
  lemma TailIsLongest(c: Chunk, overlap: int)
    ensures Tail(c, overlap) != [] ==> TokenSum(Tail(c, overlap)) <= overlap
    ensures forall j :: 0 <= j < |c| - |Tail(c, overlap)| ==> Sum(c, j, |c|) > overlap
  {
    var r := FitFrom(c, |c|, overlap);
    FitFacts(c, |c|, overlap);
    SumShift(c[r..], c, 0, |c| - r, r);
    forall j | 0 <= j < r ensures Sum(c, j, |c|) > overlap { SuffixGrows(c, j, r - 1); }
  }

  // ----- Coverage -----

  /** Chunks, without the first `skip` sentences of the first and without the overlap of
      each later one. */
  function Rejoin(skip: nat, chunks: seq<Chunk>, overlap: int): seq<Sentence>
    decreases |chunks|
  {
    if chunks == [] then []
    else (if skip <= |chunks[0]| then chunks[0][skip..] else [])
         + Rejoin(|Tail(chunks[0], overlap)|, chunks[1..], overlap)
  }

  /** A chunk, the next one, and why the first was closed: the next starts with the tail
      of the first and goes on with a sentence that did not fit. */
  predicate Follows(a: Chunk, b: Chunk, target: int, overlap: int) {
    var t := Tail(a, overlap);
    t < b && TokenSum(a) + Tokens(b[|t|]) > target
  }

  lemma {:induction false} BuildStarts(current: Chunk, ss: seq<Sentence>, i: nat, target: int, overlap: int)
    requires i <= |ss| && (current != [] || i < |ss|)
    ensures var chunks := Build(current, ss, i, target, overlap);
            && chunks != [] && current <= chunks[0]
            && (current == [] ==> chunks[0] != [])
    decreases |ss| - i
  {
    if i < |ss| && !(TokenSum(current) + Tokens(ss[i]) > target && current != []) {
      BuildStarts(current + [ss[i]], ss, i + 1, target, overlap);
    }
  }

  lemma {:induction false} BuildRejoins(current: Chunk, ss: seq<Sentence>, i: nat, target: int, overlap: int)
    requires i <= |ss|
    ensures Rejoin(|current|, Build(current, ss, i, target, overlap), overlap) == ss[i..]
    decreases |ss| - i
  {
    if i < |ss| {
      assert ss[i..] == [ss[i]] + ss[i + 1..];
      if TokenSum(current) + Tokens(ss[i]) > target && current != [] {
        var t := Tail(current, overlap);
        BuildRejoins(t + [ss[i]], ss, i + 1, target, overlap);
        RejoinOneMore(t, ss[i], ss, i + 1, target, overlap);
        assert Build(current, ss, i, target, overlap)[1..] == Build(t + [ss[i]], ss, i + 1, target, overlap);
      } else {
        BuildRejoins(current + [ss[i]], ss, i + 1, target, overlap);
        RejoinOneMore(current, ss[i], ss, i + 1, target, overlap);
      }
    }
  }

  lemma RejoinOneMore(current: Chunk, s: Sentence, ss: seq<Sentence>, i: nat, target: int, overlap: int)
    requires i <= |ss|
    ensures var chunks := Build(current + [s], ss, i, target, overlap);
            Rejoin(|current|, chunks, overlap) == [s] + Rejoin(|current| + 1, chunks, overlap)
  {
    BuildStarts(current + [s], ss, i, target, overlap);
    var chunks := Build(current + [s], ss, i, target, overlap);
    assert chunks[0][|current|..] == [s] + chunks[0][|current| + 1..];
  }

  /** Dropping the overlaps gives back the sentence list: every sentence is covered, in
      order. */
  lemma OverlapsDropAway(ss: seq<Sentence>, target: int, overlap: int)
    ensures Rejoin(0, Build([], ss, 0, target, overlap), overlap) == ss
  {
    BuildRejoins([], ss, 0, target, overlap);
  }

  ghost predicate AllFollow(chunks: seq<Chunk>, target: int, overlap: int) {
    forall k :: 0 <= k < |chunks| - 1 ==> Follows(chunks[k], chunks[k + 1], target, overlap)
  }

  lemma FollowsFirst(a: Chunk, chunks: seq<Chunk>, target: int, overlap: int)
    requires AllFollow(chunks, target, overlap) && (chunks != [] ==> Follows(a, chunks[0], target, overlap))
    ensures AllFollow([a] + chunks, target, overlap)
  {
    var all := [a] + chunks;
    forall k | 0 <= k < |all| - 1 ensures Follows(all[k], all[k + 1], target, overlap) {
      if k > 0 { assert all[k] == chunks[k - 1] && all[k + 1] == chunks[k]; }
    }
  }

  lemma OpensWith(a: Chunk, s: Sentence, b: Chunk, target: int, overlap: int)
    requires Tail(a, overlap) + [s] <= b && TokenSum(a) + Tokens(s) > target
    ensures Follows(a, b, target, overlap)
  {
    var t := Tail(a, overlap);
    assert b[..|t| + 1] == t + [s];
    assert b[|t|] == b[..|t| + 1][|t|];
  }

  lemma {:induction false} BuildFollows(current: Chunk, ss: seq<Sentence>, i: nat, target: int, overlap: int)
    requires i <= |ss|
    ensures AllFollow(Build(current, ss, i, target, overlap), target, overlap)
    decreases |ss| - i
  {
    if i < |ss| {
      if TokenSum(current) + Tokens(ss[i]) > target && current != [] {
        var next := Tail(current, overlap) + [ss[i]];
        var rest := Build(next, ss, i + 1, target, overlap);
        BuildFollows(next, ss, i + 1, target, overlap);
        BuildStarts(next, ss, i + 1, target, overlap);
        OpensWith(current, ss[i], rest[0], target, overlap);
        FollowsFirst(current, rest, target, overlap);
      } else {
        BuildFollows(current + [ss[i]], ss, i + 1, target, overlap);
      }
    }
  }

  /** Each chunk after the first starts with the longest suffix of the one before that
      fits the overlap, and was opened by a sentence that no longer fitted there. */
  lemma ChunksOverlap(ss: seq<Sentence>, target: int, overlap: int, k: nat)
    requires k + 1 < |Build([], ss, 0, target, overlap)|
    ensures Follows(Build([], ss, 0, target, overlap)[k], Build([], ss, 0, target, overlap)[k + 1], target, overlap)
  {
    BuildFollows([], ss, 0, target, overlap);
  }

  ghost predicate IsRange(c: Chunk, ss: seq<Sentence>) {
    exists a, b :: 0 <= a < b <= |ss| && c == ss[a..b]
  }

  lemma {:induction false} BuildRanges(a: nat, ss: seq<Sentence>, i: nat, target: int, overlap: int, k: nat)
    requires a <= i <= |ss| && k < |Build(ss[a..i], ss, i, target, overlap)|
    ensures IsRange(Build(ss[a..i], ss, i, target, overlap)[k], ss)
    decreases |ss| - i
  {
    var current := ss[a..i];
    if i < |ss| {
      assert ss[a..i] + [ss[i]] == ss[a..i + 1];
      if TokenSum(current) + Tokens(ss[i]) > target && current != [] {
        var t := Tail(current, overlap);
        assert t + [ss[i]] == ss[i - |t|..i + 1];
        if k > 0 { BuildRanges(i - |t|, ss, i + 1, target, overlap, k - 1); }
      } else {
        BuildRanges(a, ss, i + 1, target, overlap, k);
      }
    }
  }

  /** Every chunk is a contiguous, non-empty range of the sentences. */
  lemma ChunksAreRanges(ss: seq<Sentence>, target: int, overlap: int, k: nat)
    requires k < |Build([], ss, 0, target, overlap)|
    ensures IsRange(Build([], ss, 0, target, overlap)[k], ss)
  {
    assert ss[0..0] == [];
    BuildRanges(0, ss, 0, target, overlap, k);
  }

  // ----- The token bound -----

  /** The words of a chunk from sentence lo on. */
  function WordSum(c: Chunk, lo: nat): nat
    requires lo <= |c|
    decreases |c| - lo
  {
    if lo == |c| then 0 else c[lo].words + WordSum(c, lo + 1)
  }

  function Largest(ss: seq<Sentence>): nat {
    if ss == [] then 0 else
      var m := Largest(ss[..|ss| - 1]);
      if Tokens(ss[|ss| - 1]) > m then Tokens(ss[|ss| - 1]) else m
  }

  lemma {:induction false} LargestIsMax(ss: seq<Sentence>, i: nat)
    requires i < |ss|
    ensures Tokens(ss[i]) <= Largest(ss)
    decreases |ss|
  {
    if i < |ss| - 1 { LargestIsMax(ss[..|ss| - 1], i); }
  }

  function Max(a: int, b: int): int {
    if a < b then b else a
  }

  function Bound(ss: seq<Sentence>, target: int, overlap: int): int {
    Max(target, Max(overlap, 0) + Largest(ss))
  }

  ghost predicate AllWithin(chunks: seq<Chunk>, bound: int) {
    forall k :: 0 <= k < |chunks| ==> TokenSum(chunks[k]) <= bound
  }

  lemma {:induction false} CountersBounded(current: Chunk, ss: seq<Sentence>, i: nat, target: int, overlap: int)
    requires i <= |ss| && TokenSum(current) <= Bound(ss, target, overlap)
    ensures AllWithin(Build(current, ss, i, target, overlap), Bound(ss, target, overlap))
    decreases |ss| - i
  {
    if i < |ss| {
      LargestIsMax(ss, i);
      TokenSumSnoc(current, ss[i]);
      if TokenSum(current) + Tokens(ss[i]) > target && current != [] {
        var t := Tail(current, overlap);
        TailIsLongest(current, overlap);
        TokenSumSnoc(t, ss[i]);
        CountersBounded(t + [ss[i]], ss, i + 1, target, overlap);
      } else {
        CountersBounded(current + [ss[i]], ss, i + 1, target, overlap);
      }
    }
  }

  /** Rounding a whole chunk once never gives more than rounding each sentence. */
  lemma {:induction false} RoundOnce(c: Chunk, lo: nat)
    requires lo < |c|
    ensures ApproxTokens(WordSum(c, lo)) <= Sum(c, lo, |c|)
    decreases |c| - lo
  {
    if lo + 1 < |c| { RoundOnce(c, lo + 1); }
  }

  /** The token count of a chunk, rounded once over all its words, is at most the target
      or the overlap plus the largest sentence, whichever is more. */
  lemma ChunksAreBounded(ss: seq<Sentence>, target: int, overlap: int, k: nat)
    requires k < |Build([], ss, 0, target, overlap)|
    ensures ApproxTokens(WordSum(Build([], ss, 0, target, overlap)[k], 0)) <= Bound(ss, target, overlap)
  {
    CountersBounded([], ss, 0, target, overlap);
    ChunksAreRanges(ss, target, overlap, k);
    RoundOnce(Build([], ss, 0, target, overlap)[k], 0);
  }

  /** A chunk that took in more than one sentence besides its overlap kept to the target:
      only the first sentence after a flush is added without looking. */
  lemma {:induction false} OnlyFirstMayOverflow(current: Chunk, seen: nat, ss: seq<Sentence>, i: nat,
                                                target: int, overlap: int)
    requires i <= |ss| && seen <= |current|
    requires |current| >= seen + 2 ==> TokenSum(current) <= target
    ensures var chunks := Build(current, ss, i, target, overlap);
            && (chunks != [] && |chunks[0]| >= seen + 2 && |chunks[0]| > 1 ==> TokenSum(chunks[0]) <= target)
            && (forall k :: 0 < k < |chunks| && |chunks[k]| >= |Tail(chunks[k - 1], overlap)| + 2 ==>
                  TokenSum(chunks[k]) <= target)
    decreases |ss| - i
  {
    if i < |ss| {
      TokenSumSnoc(current, ss[i]);
      if TokenSum(current) + Tokens(ss[i]) > target && current != [] {
        var t := Tail(current, overlap);
        OnlyFirstMayOverflow(t + [ss[i]], |t|, ss, i + 1, target, overlap);
        var rest := Build(t + [ss[i]], ss, i + 1, target, overlap);
        var chunks := Build(current, ss, i, target, overlap);
        forall k | 0 < k < |chunks| && |chunks[k]| >= |Tail(chunks[k - 1], overlap)| + 2
          ensures TokenSum(chunks[k]) <= target
        {
          assert chunks[k] == rest[k - 1];
          if k > 1 { assert chunks[k - 1] == rest[k - 2]; }
        }
      } else {
        OnlyFirstMayOverflow(current + [ss[i]], seen, ss, i + 1, target, overlap);
      }
    }
  }

  /** The target is exceeded only by a chunk that took in a single sentence besides its
      overlap. */
  lemma TargetKept(ss: seq<Sentence>, target: int, overlap: int, k: nat)
    requires k < |Build([], ss, 0, target, overlap)|
    requires var chunks := Build([], ss, 0, target, overlap);
             |chunks[k]| >= 2 + if k == 0 then 0 else |Tail(chunks[k - 1], overlap)|
    ensures TokenSum(Build([], ss, 0, target, overlap)[k]) <= target
  {
    OnlyFirstMayOverflow([], 0, ss, 0, target, overlap);
  }

  // ----- Exactly when the target is exceeded -----

  lemma PrefixSums(a: Chunk, b: Chunk)
    requires a <= b
    ensures TokenSum(a) <= TokenSum(b) && (a == b ==> TokenSum(a) == TokenSum(b))
  {
    SumShift(a, b, 0, |a|, 0);
    PrefixGrows(b, |a|, |b|);
  }

  lemma {:induction false} PrefixGrows(c: Chunk, j: nat, k: nat)
    requires j <= k <= |c|
    ensures Sum(c, 0, j) <= Sum(c, 0, k)
    decreases k
  {
    if j < k {
      PrefixGrows(c, j, k - 1);
      SumSnoc(c, 0, k - 1);
    }
  }

  /** A chunk that starts with `start`, and kept to the target if it took in anything else. */
  lemma ExceedsAtStart(c: Chunk, start: Chunk, target: int)
    requires start <= c && (|c| > |start| ==> TokenSum(c) <= target)
    ensures TokenSum(c) > target <==> TokenSum(start) > target
  {
    PrefixSums(start, c);
    if |c| == |start| { assert c == start; }
  }

  /** The first chunk exceeds the target exactly when its first sentence does. */
  lemma FirstExceeds(ss: seq<Sentence>, target: int, overlap: int)
    requires Build([], ss, 0, target, overlap) != []
    ensures var c := Build([], ss, 0, target, overlap)[0];
            c != [] && (TokenSum(c) > target <==> Tokens(c[0]) > target)
  {
    var c := Build([], ss, 0, target, overlap)[0];
    ChunksAreRanges(ss, target, overlap, 0);
    if |c| >= 2 { TargetKept(ss, target, overlap, 0); }
    ExceedsAtStart(c, [c[0]], target);
    TokenSumSnoc([], c[0]);
    assert [] + [c[0]] == [c[0]];
  }

  /** A later chunk exceeds the target exactly when its overlap and its first new sentence
      together do. */
  lemma LaterExceeds(ss: seq<Sentence>, target: int, overlap: int, k: nat)
    requires 0 < k < |Build([], ss, 0, target, overlap)|
    ensures var chunks := Build([], ss, 0, target, overlap);
            var t := Tail(chunks[k - 1], overlap);
            t < chunks[k]
            && (TokenSum(chunks[k]) > target <==> TokenSum(t) + Tokens(chunks[k][|t|]) > target)
  {
    var chunks := Build([], ss, 0, target, overlap);
    var c, t := chunks[k], Tail(chunks[k - 1], overlap);
    ChunksOverlap(ss, target, overlap, k - 1);
    if |c| >= |t| + 2 { TargetKept(ss, target, overlap, k); }
    assert t + [c[|t|]] <= c;
    ExceedsAtStart(c, t + [c[|t|]], target);
    TokenSumSnoc(t, c[|t|]);
  }

  /** A target can be exceeded although every sentence fits it and the overlap is smaller:
      three sentences of 6, 4 and 10 tokens, a target of 10 and an overlap of 5 give a second
      chunk of 14. */
  lemma TargetCanBeExceeded() returns (ss: seq<Sentence>)
    ensures forall s :: s in ss ==> Tokens(s) <= 10
    ensures var chunks := Build([], ss, 0, 10, 5); |chunks| == 2 && TokenSum(chunks[1]) == 14
  {
    var a, b, c := Sentence("a", 4), Sentence("b", 3), Sentence("c", 7);
    ss := [a, b, c];
    TokenSumSnoc([], a);
    TokenSumSnoc([a], b);
    TokenSumSnoc([b], c);
    TokenSumSnoc([], b);
    assert [] + [a] == [a] && [a] + [b] == [a, b] && [] + [b] == [b] && [b] + [c] == [b, c];
    assert Sum([a, b], 2, 2) == 0 && Sum([a, b], 1, 2) == 4 && Sum([a, b], 0, 2) == 10;
    assert FitFrom([a, b], 2, 5) == 1;
    assert Tail([a, b], 5) == [b];
    assert Build([b, c], ss, 3, 10, 5) == [[b, c]];
    assert Build([a, b], ss, 2, 10, 5) == [[a, b]] + Build([b, c], ss, 3, 10, 5);
    assert Build([a], ss, 1, 10, 5) == Build([a, b], ss, 2, 10, 5);
  }
}
