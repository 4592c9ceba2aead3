/** The hash-chained broker audit log (apps/agent_futu/futu/audit.py), in-memory form.

    The digest of a payload is a function passed in. It is assumed free of collisions
    and never to return the all-zero sentinel that stands before the first entry. */
module FutuAuditLog {
  import opened Basics

  type Digest = string

  function Zeros(n: nat): (z: string)
    ensures |z| == n && forall i :: 0 <= i < n ==> z[i] == '0'
  {
    seq(n, i => '0')
  }

  const GENESIS: Digest := Zeros(64)

  /** The fields that go into an entry's hash, besides the previous hash. */
  datatype Fields = Fields(entryId: string, futuIdHash: string, callName: string,
                           argsRepr: string, kwargsRepr: string, issuedAt: string)

  datatype Payload = Payload(fields: Fields, prevHash: Digest)

  datatype Status = Pending | Ok | Error

  datatype Entry = Entry(fields: Fields, prevHash: Digest, entryHash: Digest,
                         status: Status, summary: Option<string>, error: Option<string>)

  type Hash = Payload -> Digest

  ghost predicate CollisionFree(hash: Hash) {
    && (forall p, q :: hash(p) == hash(q) ==> p == q)
    && (forall p :: hash(p) != GENESIS)
  }

  function HeadOf(entries: seq<Entry>): Digest {
    if entries == [] then GENESIS else entries[|entries| - 1].entryHash
  }

  function NewEntry(hash: Hash, prev: Digest, f: Fields): Entry {
    Entry(f, prev, hash(Payload(f, prev)), Pending, None, None)
  }

  /** Entry i is linked to the entry before it and carries its own digest. */
  ghost predicate Linked(hash: Hash, entries: seq<Entry>, i: nat)
    requires i < |entries|
  {
    && entries[i].prevHash == HeadOf(entries[..i])
    && entries[i].entryHash == hash(Payload(entries[i].fields, HeadOf(entries[..i])))
  }

  ghost predicate ChainHolds(hash: Hash, entries: seq<Entry>) {
    forall i: nat :: i < |entries| ==> Linked(hash, entries, i)
  }

  /** The first entry with the id, or the number of entries. */
  function Find(entries: seq<Entry>, entryId: string): (i: nat)
    ensures i <= |entries|
    ensures i < |entries| ==> entries[i].fields.entryId == entryId
    ensures forall k :: 0 <= k < i ==> entries[k].fields.entryId != entryId
  {
    if entries == [] || entries[0].fields.entryId == entryId then 0 else 1 + Find(entries[1..], entryId)
  }

  function Marked(entries: seq<Entry>, entryId: string, mark: Entry -> Entry): seq<Entry> {
    var i := Find(entries, entryId);
    if i < |entries| then entries[i := mark(entries[i])] else entries
  }

  function MarkOkOn(summary: string): Entry -> Entry {
    (e: Entry) => e.(status := Ok, summary := Some(summary))
  }

  function MarkErrorOn(error: string): Entry -> Entry {
    (e: Entry) => e.(status := Error, error := Some(error))
  }

  class InMemoryFutuAuditLog {
    const hash: Hash
    var entries: seq<Entry>

    constructor (hash: Hash)
      ensures this.hash == hash && entries == []
    {
      this.hash := hash;
      entries := [];
    }

    function Head(): Digest
      reads this
    {
      HeadOf(entries)
    }

    /** The fields hold a fresh id and the clock reading, which come from outside. */
    method Append(f: Fields) returns (e: Entry)
      modifies this
      ensures entries == old(entries) + [e]
      ensures e == NewEntry(hash, old(Head()), f)
    {
      var prev := if entries == [] then GENESIS else entries[|entries| - 1].entryHash;
      e := NewEntry(hash, prev, f);
      entries := entries + [e];
    }

    method MarkOk(entryId: string, summary: string)
      modifies this
      ensures entries == Marked(old(entries), entryId, MarkOkOn(summary))
    {
      for i := 0 to |entries|
        invariant entries == old(entries)
        invariant forall k :: 0 <= k < i ==> entries[k].fields.entryId != entryId
      {
        if entries[i].fields.entryId == entryId {
          entries := entries[i := entries[i].(status := Ok, summary := Some(summary))];
          return;
        }
      }
    }

    method MarkError(entryId: string, error: string)
      modifies this
      ensures entries == Marked(old(entries), entryId, MarkErrorOn(error))
    {
      for i := 0 to |entries|
        invariant entries == old(entries)
        invariant forall k :: 0 <= k < i ==> entries[k].fields.entryId != entryId
      {
        if entries[i].fields.entryId == entryId {
          entries := entries[i := entries[i].(status := Error, error := Some(error))];
          return;
        }
      }
    }

    method VerifyChain() returns (ok: bool)
      ensures ok <==> ChainHolds(hash, entries)
    {
      var prev := GENESIS;
      for i := 0 to |entries|
        invariant prev == HeadOf(entries[..i])
        invariant forall k: nat :: k < i ==> Linked(hash, entries, k)
      {
        var e := entries[i];
        if hash(Payload(e.fields, prev)) != e.entryHash || e.prevHash != prev {
          assert !Linked(hash, entries, i);
          return false;
        }
        prev := e.entryHash;
      }
      ok := true;
    }
  }

  // ----- Every sequence of operations -----

  datatype Operation =
    | Append(f: Fields)
    | MarkOk(entryId: string, summary: string)
    | MarkError(entryId: string, error: string)

  function Apply(hash: Hash, entries: seq<Entry>, op: Operation): seq<Entry> {
    match op
    case Append(f) => entries + [NewEntry(hash, HeadOf(entries), f)]
    case MarkOk(id, summary) => Marked(entries, id, MarkOkOn(summary))
    case MarkError(id, error) => Marked(entries, id, MarkErrorOn(error))
  }

  function ApplyAll(hash: Hash, entries: seq<Entry>, ops: seq<Operation>): seq<Entry>
    decreases |ops|
  {
    if ops == [] then entries else ApplyAll(hash, Apply(hash, entries, ops[0]), ops[1..])
  }

  function HashedPart(e: Entry): (Fields, Digest, Digest) {
    (e.fields, e.prevHash, e.entryHash)
  }

  /** Two logs that agree, position by position, on everything that is hashed. */
  ghost predicate SameHashedFields(a: seq<Entry>, b: seq<Entry>) {
    |a| == |b| && forall i :: 0 <= i < |a| ==> HashedPart(a[i]) == HashedPart(b[i])
  }

  lemma {:induction false} ChainIgnoresStatus(hash: Hash, a: seq<Entry>, b: seq<Entry>)
    requires SameHashedFields(a, b)
    ensures ChainHolds(hash, a) <==> ChainHolds(hash, b)
  {
    forall i: nat | i < |a| ensures Linked(hash, a, i) <==> Linked(hash, b, i) {
      assert HashedPart(a[i]) == HashedPart(b[i]);
      if i > 0 { assert HashedPart(a[i - 1]) == HashedPart(b[i - 1]); }
    }
  }

  lemma AppendKeepsChain(hash: Hash, entries: seq<Entry>, f: Fields)
    ensures ChainHolds(hash, entries + [NewEntry(hash, HeadOf(entries), f)]) <==> ChainHolds(hash, entries)
  {
    var more := entries + [NewEntry(hash, HeadOf(entries), f)];
    forall i: nat | i < |entries| ensures Linked(hash, more, i) <==> Linked(hash, entries, i) {
      assert more[..i] == entries[..i];
    }
    assert more[..|entries|] == entries;
    assert Linked(hash, more, |entries|);
    if ChainHolds(hash, more) {
      forall i: nat | i < |entries| ensures Linked(hash, entries, i) { assert Linked(hash, more, i); }
    }
  }

  /** No sequence of operations makes an intact chain fail verification, nor a broken
      one pass it. */
  lemma {:induction false} OperationsKeepChain(hash: Hash, entries: seq<Entry>, ops: seq<Operation>)
    ensures ChainHolds(hash, ApplyAll(hash, entries, ops)) <==> ChainHolds(hash, entries)
    decreases |ops|
  {
    if ops != [] {
      match ops[0] {
        case Append(f) => AppendKeepsChain(hash, entries, f);
        case MarkOk(_, _) => ChainIgnoresStatus(hash, entries, Apply(hash, entries, ops[0]));
        case MarkError(_, _) => ChainIgnoresStatus(hash, entries, Apply(hash, entries, ops[0]));
      }
      OperationsKeepChain(hash, Apply(hash, entries, ops[0]), ops[1..]);
    }
  }

  lemma FromEmptyVerifies(hash: Hash, ops: seq<Operation>)
    ensures ChainHolds(hash, ApplyAll(hash, [], ops))
  {
    OperationsKeepChain(hash, [], ops);
  }

  // ----- What the entries say -----

  function FieldsOf(entries: seq<Entry>): seq<Fields> {
    seq(|entries|, i requires 0 <= i < |entries| => entries[i].fields)
  }

  function AddedFields(op: Operation): seq<Fields> {
    if op.Append? then [op.f] else []
  }

  /** The fields of the appends, in order. */
  function AppendedFields(ops: seq<Operation>): seq<Fields> {
    if ops == [] then []
    else AddedFields(ops[0]) + AppendedFields(ops[1..])
  }

  lemma StepFields(hash: Hash, entries: seq<Entry>, op: Operation)
    ensures FieldsOf(Apply(hash, entries, op)) == FieldsOf(entries) + AddedFields(op)
  {}

  lemma Regroup(a: seq<Fields>, b: seq<Fields>, c: seq<Fields>)
    ensures a + b + c == a + (b + c)
  {}

  /** Whatever is done, the log holds one entry for each append, with its fields, in order;
      marks change no field. */
  lemma {:induction false} EntriesAreAppends(hash: Hash, entries: seq<Entry>, ops: seq<Operation>)
    ensures FieldsOf(ApplyAll(hash, entries, ops)) == FieldsOf(entries) + AppendedFields(ops)
    decreases |ops|
  {
    if ops == [] {
      assert FieldsOf(entries) + [] == FieldsOf(entries);
    } else {
      StepFields(hash, entries, ops[0]);
      EntriesAreAppends(hash, Apply(hash, entries, ops[0]), ops[1..]);
      Regroup(FieldsOf(entries), AddedFields(ops[0]), AppendedFields(ops[1..]));
    }
  }

  /** A mark on the given id, of the given kind. */
  predicate Marks(op: Operation, id: string) {
    MarksOk(op, id) || MarksError(op, id)
  }

  predicate MarksOk(op: Operation, id: string) {
    op.MarkOk? && op.entryId == id
  }

  predicate MarksError(op: Operation, id: string) {
    op.MarkError? && op.entryId == id
  }

  predicate IsFirst(entries: seq<Entry>, i: nat, id: string) {
    i < |entries| && entries[i].fields.entryId == id && forall k :: 0 <= k < i ==> entries[k].fields.entryId != id
  }

  /** An appended entry holds its fields and is pending, with nothing noted. */
  lemma AppendedIsPending(hash: Hash, entries: seq<Entry>, f: Fields)
    ensures var e := Apply(hash, entries, Append(f))[|entries|];
            e.fields == f && e.status == Pending && e.summary.None? && e.error.None?
  {}

  /** What one operation does to entry i: a mark on its id sets the status and one note, if it
      is the first entry of that id; nothing else touches it. */
  lemma StepOnEntry(hash: Hash, entries: seq<Entry>, op: Operation, i: nat)
    requires i < |entries|
    ensures var e, e' := entries[i], Apply(hash, entries, op)[i];
            var id := e.fields.entryId;
            var first := IsFirst(entries, i, id);
            && |Apply(hash, entries, op)| >= |entries| && e'.fields == e.fields
            && e'.status == (if first && MarksOk(op, id) then Ok
                             else if first && MarksError(op, id) then Error else e.status)
            && e'.summary == (if first && MarksOk(op, id) then Some(op.summary) else e.summary)
            && e'.error == (if first && MarksError(op, id) then Some(op.error) else e.error)
            && (IsFirst(Apply(hash, entries, op), i, id) <==> first)
  {
    forall k | 0 <= k <= i ensures Apply(hash, entries, op)[k].fields == entries[k].fields {}
  }

  /** No operation of the run is a mark of the kind. */
  ghost predicate Lacks(ops: seq<Operation>, kind: Operation -> bool) {
    forall i :: 0 <= i < |ops| ==> !kind(ops[i])
  }

  lemma LacksLater(ops: seq<Operation>, kind: Operation -> bool)
    requires ops != [] && Lacks(ops, kind)
    ensures !kind(ops[0]) && Lacks(ops[1..], kind)
  {
    forall i | 0 <= i < |ops[1..]| ensures !kind(ops[1..][i]) { assert ops[1..][i] == ops[i + 1]; }
  }

  /** Without a mark of its kind a note stays, and without any mark the status. */
  lemma {:induction false} UnmarkedStays(hash: Hash, entries: seq<Entry>, ops: seq<Operation>, i: nat)
    requires i < |entries|
    ensures var e, after := entries[i], ApplyAll(hash, entries, ops);
            var id := e.fields.entryId;
            && i < |after| && after[i].fields == e.fields
            && (IsFirst(after, i, id) <==> IsFirst(entries, i, id))
            && (Lacks(ops, op => MarksOk(op, id)) || !IsFirst(entries, i, id) ==> after[i].summary == e.summary)
            && (Lacks(ops, op => MarksError(op, id)) || !IsFirst(entries, i, id) ==> after[i].error == e.error)
            && (Lacks(ops, op => Marks(op, id)) || !IsFirst(entries, i, id) ==> after[i].status == e.status)
    decreases |ops|
  {
    if ops != [] {
      var id := entries[i].fields.entryId;
      StepOnEntry(hash, entries, ops[0], i);
      UnmarkedStays(hash, Apply(hash, entries, ops[0]), ops[1..], i);
      if Lacks(ops, op => MarksOk(op, id)) { LacksLater(ops, op => MarksOk(op, id)); }
      if Lacks(ops, op => MarksError(op, id)) { LacksLater(ops, op => MarksError(op, id)); }
      if Lacks(ops, op => Marks(op, id)) { LacksLater(ops, op => Marks(op, id)); }
    }
  }

  lemma {:induction false} ApplyAllSplit(hash: Hash, entries: seq<Entry>, a: seq<Operation>, b: seq<Operation>)
    ensures ApplyAll(hash, entries, a + b) == ApplyAll(hash, ApplyAll(hash, entries, a), b)
    decreases |a|
  {
    if a == [] {
      assert a + b == b;
    } else {
      assert (a + b)[1..] == a[1..] + b;
      ApplyAllSplit(hash, Apply(hash, entries, a[0]), a[1..], b);
    }
  }

  /** The last mark on the first entry of an id decides its status, and the last mark of each
      kind its note: the run does `a`, then the mark, then `b`. */
  lemma LastMarkDecides(hash: Hash, entries: seq<Entry>, i: nat, a: seq<Operation>, mark: Operation, b: seq<Operation>)
    requires i < |entries| && IsFirst(entries, i, entries[i].fields.entryId) && Marks(mark, entries[i].fields.entryId)
    ensures var id, after := entries[i].fields.entryId, ApplyAll(hash, entries, a + ([mark] + b));
            && i < |after|
            && (Lacks(b, op => Marks(op, id)) ==> after[i].status == if mark.MarkOk? then Ok else Error)
            && (mark.MarkOk? && Lacks(b, op => MarksOk(op, id)) ==> after[i].summary == Some(mark.summary))
            && (mark.MarkError? && Lacks(b, op => MarksError(op, id)) ==> after[i].error == Some(mark.error))
  {
    var middle := ApplyAll(hash, entries, a);
    ApplyAllSplit(hash, entries, a, [mark] + b);
    assert ([mark] + b)[1..] == b;
    UnmarkedStays(hash, entries, a, i);
    StepOnEntry(hash, middle, mark, i);
    UnmarkedStays(hash, Apply(hash, middle, mark), b, i);
  }

  // ----- Tamper evidence -----

  lemma PrefixChain(hash: Hash, entries: seq<Entry>)
    requires entries != [] && ChainHolds(hash, entries)
    ensures ChainHolds(hash, entries[..|entries| - 1])
  {
    var init := entries[..|entries| - 1];
    forall i: nat | i < |init| ensures Linked(hash, init, i) {
      assert Linked(hash, entries, i);
      assert init[..i] == entries[..i];
    }
  }

  lemma {:induction false} SameHeadSameLog(hash: Hash, a: seq<Entry>, b: seq<Entry>)
    requires CollisionFree(hash) && ChainHolds(hash, a) && ChainHolds(hash, b)
    requires HeadOf(a) == HeadOf(b)
    ensures SameHashedFields(a, b)
    decreases |a|
  {
    if a != [] { assert Linked(hash, a, |a| - 1); }
    if b != [] { assert Linked(hash, b, |b| - 1); }
    if a != [] && b != [] {
      PrefixChain(hash, a);
      PrefixChain(hash, b);
      SameHeadSameLog(hash, a[..|a| - 1], b[..|b| - 1]);
      forall i | 0 <= i < |a| ensures HashedPart(a[i]) == HashedPart(b[i]) {
        if i < |a| - 1 { assert a[i] == a[..|a| - 1][i] && b[i] == b[..|b| - 1][i]; }
      }
    }
  }

  /** Fixing the head fixes the log: two logs that verify have the same head exactly
      when they agree on every hashed field at every position. No edit, deletion,
      insertion or reordering of hashed fields survives verification against a known
      head. */
  lemma TamperEvidence(hash: Hash, a: seq<Entry>, b: seq<Entry>)
    requires CollisionFree(hash) && ChainHolds(hash, a) && ChainHolds(hash, b)
    ensures HeadOf(a) == HeadOf(b) <==> SameHashedFields(a, b)
  {
    if SameHashedFields(a, b) && a != [] {
      assert HashedPart(a[|a| - 1]) == HashedPart(b[|b| - 1]);
    }
    if HeadOf(a) == HeadOf(b) {
      SameHeadSameLog(hash, a, b);
    }
  }

  /** Status, summary and error are outside the hash: any of them can be rewritten
      without verification or the head noticing. */
  lemma StatusIsNotProtected(hash: Hash, entries: seq<Entry>, i: nat, status: Status, note: Option<string>)
    requires ChainHolds(hash, entries) && i < |entries|
    ensures ChainHolds(hash, entries[i := entries[i].(status := status, summary := note, error := note)])
    ensures HeadOf(entries[i := entries[i].(status := status, summary := note, error := note)]) == HeadOf(entries)
  {
    ChainIgnoresStatus(hash, entries, entries[i := entries[i].(status := status, summary := note, error := note)]);
  }
}
