/**
 The tiered store's ledger in memory (crates/dagron-artifact/src/tiered.rs):
 what each artifact's bytes hash to, and how far it has moved.
 */
module Ledger {
  import opened Common

  /** Where an artifact is kept: its key's sanitized path, which every tier goes by. */
  type Rel(==, !new)

  /** Where the remote tier says it put one. */
  type Locator(==, !new)

  /** The hash of its bytes. */
  type Sha(==, !new)

  // ── records, and the state they make ───────────────────────────────────────

  datatype Record =
    | Pending(key: Rel, sha: Sha, bytes: nat, at: nat)
    | Done(key: Rel, sha: Sha, bytes: nat, at: nat, remote: Locator)
    | UploadedBySha(key: Rel, sha: Sha, bytes: nat, at: nat, of: Rel)
    | Day(day: nat, bytes: nat)
    | Forget(key: Rel)

  datatype State = Pending | Done(remote: Locator) | Alias(of: Rel)

  datatype Entry = Entry(key: Rel, sha: Sha, bytes: nat, at: nat, seqNo: nat, state: State)

  /** The ledger's state as a value. */
  datatype Mem = Mem(entries: map<Rel, Entry>, bySha: map<Sha, Rel>, day: nat, dayBytes: nat, nextSeq: nat)

  const EMPTY := Mem(map[], map[], 0, 0, 0)

  function Detached(m: Mem, rel: Rel): Mem {
    if rel in m.entries && m.entries[rel].sha in m.bySha && m.bySha[m.entries[rel].sha] == rel
    then m.(bySha := m.bySha - {m.entries[rel].sha})
    else m
  }

  function Inserted(m: Mem, key: Rel, sha: Sha, bytes: nat, at: nat, state: State): Mem {
    Detached(m, key).(entries := m.entries[key := Entry(key, sha, bytes, at, m.nextSeq, state)],
                           nextSeq := m.nextSeq + 1)
  }

  function Applied(m: Mem, rec: Record): Mem {
    match rec
    case Pending(key, sha, bytes, at) => Inserted(m, key, sha, bytes, at, State.Pending)
    case Done(key, sha, bytes, at, remote) =>
      var n := Inserted(m, key, sha, bytes, at, State.Done(remote));
      n.(bySha := n.bySha[sha := key])
    case UploadedBySha(key, sha, bytes, at, of) => Inserted(m, key, sha, bytes, at, Alias(of))
    case Day(day, bytes) => m.(day := day, dayBytes := bytes)
    case Forget(key) => Detached(m, key).(entries := m.entries - {key})
  }

  function AppliedAll(m: Mem, recs: seq<Record>): Mem
    decreases |recs|
  {
    if recs == [] then m else Applied(AppliedAll(m, recs[..|recs| - 1]), recs[|recs| - 1])
  }

  /** Entries are kept under their own key, each with a number of its own. */
  ghost predicate Ordered(m: Mem) {
    && (forall rel <- m.entries :: m.entries[rel].key == rel && m.entries[rel].seqNo < m.nextSeq)
    && (forall a <- m.entries, b <- m.entries :: m.entries[a].seqNo == m.entries[b].seqNo ==> a == b)
  }

  /** What the dedup index names is uploaded, with those bytes. */
  ghost predicate Sound(m: Mem) {
    forall sha <- m.bySha ::
      m.bySha[sha] in m.entries && m.entries[m.bySha[sha]].state.Done? && m.entries[m.bySha[sha]].sha == sha
  }

  ghost predicate Wf(m: Mem) {
    Ordered(m) && Sound(m)
  }

  lemma AppliedWf(m: Mem, rec: Record)
    requires Wf(m)
    ensures Wf(Applied(m, rec))
  {
  }

  lemma {:induction false} AppliedAllWf(m: Mem, recs: seq<Record>)
    requires Wf(m)
    ensures Wf(AppliedAll(m, recs))
    decreases |recs|
  {
    if recs != [] {
      AppliedAllWf(m, recs[..|recs| - 1]);
      AppliedWf(AppliedAll(m, recs[..|recs| - 1]), recs[|recs| - 1]);
    }
  }

  // ── what is asked of it ────────────────────────────────────────────────────

  /** An uploaded entry, other than the one at `exclude`, of exactly these bytes. */
  function CanonicalFor(m: Mem, sha: Sha, exclude: Rel): Option<Entry> {
    if sha !in m.bySha || m.bySha[sha] == exclude || m.bySha[sha] !in m.entries then None
    else
      var e := m.entries[m.bySha[sha]];
      if e.state.Done? && e.sha == sha then Some(e) else None
  }

  predicate AliasTargetValid(m: Mem, e: Entry) {
    && e.state.Alias?
    && e.state.of in m.entries
    && m.entries[e.state.of].state.Done? && m.entries[e.state.of].sha == e.sha
  }

  /** Which key to ask the remote tier for; none for an alias whose target moved on. */
  function RemoteKeyFor(m: Mem, key: Rel): Option<Rel> {
    if key in m.entries && m.entries[key].state.Alias? then
      if AliasTargetValid(m, m.entries[key]) then Some(m.entries[key].state.of) else None
    else Some(key)
  }

  predicate IsSettled(m: Mem, key: Rel, sha: Sha) {
    && key in m.entries
    && var e := m.entries[key];
    && e.sha == sha && (e.state.Alias? ==> AliasTargetValid(m, e))
  }

  // ── order ──────────────────────────────────────────────────────────────────

  /** Entered its state earlier; the first inserted, in one second. */
  predicate Before(a: Entry, b: Entry) {
    a.at < b.at || (a.at == b.at && a.seqNo < b.seqNo)
  }

  predicate IsFirst(m: Mem, rels: set<Rel>, rel: Rel)
    requires rels <= m.entries.Keys && rel in rels
  {
    forall other <- rels :: other == rel || Before(m.entries[rel], m.entries[other])
  }

  lemma {:induction false} FirstExists(m: Mem, rels: set<Rel>) returns (rel: Rel)
    requires Ordered(m) && rels <= m.entries.Keys && rels != {}
    ensures rel in rels && IsFirst(m, rels, rel)
    decreases rels
  {
    var one :| one in rels;
    var rest := rels - {one};
    if rest == {} {
      assert forall other <- rels :: other in rest || other == one;
      return one;
    }
    var first := FirstExists(m, rest);
    assert m.entries[first].seqNo != m.entries[one].seqNo;
    rel := if Before(m.entries[one], m.entries[first]) then one else first;
    forall other | other in rels && other != rel ensures Before(m.entries[rel], m.entries[other]) {
      if other != one && other != first {
        assert Before(m.entries[first], m.entries[other]);
      }
    }
  }

  lemma SomeFirst(m: Mem, rels: set<Rel>)
    requires Ordered(m) && rels <= m.entries.Keys && rels != {}
    ensures exists rel :: rel in rels && IsFirst(m, rels, rel)
  {
    var rel := FirstExists(m, rels);
  }

  lemma FirstIsOne(m: Mem, rels: set<Rel>, a: Rel, b: Rel)
    requires rels <= m.entries.Keys && a in rels && b in rels && IsFirst(m, rels, a) && IsFirst(m, rels, b)
    ensures a == b
  {
  }

  function First(m: Mem, rels: set<Rel>): (rel: Rel)
    requires Ordered(m) && rels <= m.entries.Keys && rels != {}
    ensures rel in rels && IsFirst(m, rels, rel)
  {
    SomeFirst(m, rels);
    var rel :| rel in rels && IsFirst(m, rels, rel);
    rel
  }

  /** The places, the oldest entry's first. */
  function InOrder(m: Mem, rels: set<Rel>): (order: seq<Rel>)
    requires Ordered(m) && rels <= m.entries.Keys
    ensures |order| == |rels| && forall rel :: rel in order <==> rel in rels
    decreases rels
  {
    if rels == {} then []
    else
      var first := First(m, rels);
      var rest := InOrder(m, rels - {first});
      assert forall rel :: rel in [first] + rest <==> rel == first || rel in rest;
      [first] + rest
  }

  ghost predicate Known(m: Mem, rels: seq<Rel>) {
    forall rel <- rels :: rel in m.entries
  }

  ghost predicate Sorted(m: Mem, rels: seq<Rel>)
    requires Known(m, rels)
  {
    forall i, j :: 0 <= i < j < |rels| ==> Before(m.entries[rels[i]], m.entries[rels[j]])
  }

  lemma {:induction false} InOrderSorted(m: Mem, rels: set<Rel>)
    requires Ordered(m) && rels <= m.entries.Keys
    ensures Sorted(m, InOrder(m, rels))
    decreases rels
  {
    if rels != {} {
      var first := First(m, rels);
      InOrderSorted(m, rels - {first});
    }
  }

  function PendingRels(m: Mem): set<Rel> {
    set rel | rel in m.entries && m.entries[rel].state.Pending?
  }

  function EntriesOf(m: Mem, rels: seq<Rel>): (r: seq<Entry>)
    requires Known(m, rels)
    ensures |r| == |rels|
  {
    seq(|rels|, i requires 0 <= i < |rels| => assert rels[i] in rels; m.entries[rels[i]])
  }

  /** What waits, the oldest first. */
  function PendingInOrder(m: Mem): seq<Entry>
    requires Ordered(m)
  {
    EntriesOf(m, InOrder(m, PendingRels(m)))
  }

  lemma PendingIsSorted(m: Mem)
    requires Ordered(m)
    ensures var order := PendingInOrder(m);
            forall i, j :: 0 <= i < j < |order| ==> Before(order[i], order[j])
  {
    InOrderSorted(m, PendingRels(m));
    var (rels, order) := (InOrder(m, PendingRels(m)), PendingInOrder(m));
    forall i, j | 0 <= i < j < |order| ensures Before(order[i], order[j]) {
      assert order[i] == m.entries[rels[i]] && order[j] == m.entries[rels[j]];
    }
  }

  /** Nothing else is there, and all that waits is. */
  lemma PendingIsAll(m: Mem, e: Entry)
    requires Ordered(m)
    ensures e in PendingInOrder(m) <==> e.key in PendingRels(m) && m.entries[e.key] == e
  {
    var rels := InOrder(m, PendingRels(m));
    var order := PendingInOrder(m);
    if e in order {
      var i :| 0 <= i < |order| && order[i] == e;
      assert rels[i] in rels;
    }
    if e.key in PendingRels(m) && m.entries[e.key] == e {
      var i :| 0 <= i < |rels| && rels[i] == e.key;
      assert order[i] == e;
    }
  }

  function StaleRels(m: Mem): set<Rel> {
    set rel | rel in m.entries && m.entries[rel].state.Alias? && !AliasTargetValid(m, m.entries[rel])
  }

  // ── the live state as records ──────────────────────────────────────────────

  function RecordOf(e: Entry): Record {
    match e.state
    case Pending => Record.Pending(e.key, e.sha, e.bytes, e.at)
    case Done(remote) => Record.Done(e.key, e.sha, e.bytes, e.at, remote)
    case Alias(of) => UploadedBySha(e.key, e.sha, e.bytes, e.at, of)
  }

  function RecordsOf(m: Mem, rels: seq<Rel>): seq<Record>
    requires Known(m, rels)
  {
    seq(|rels|, i requires 0 <= i < |rels| => assert rels[i] in rels; RecordOf(m.entries[rels[i]]))
  }

  function Snapshot(m: Mem): seq<Record>
    requires Ordered(m)
  {
    RecordsOf(m, InOrder(m, m.entries.Keys)) + [Day(m.day, m.dayBytes)]
  }

  /** The same entry, but for the number it was inserted under. */
  predicate Same(a: Entry, b: Entry) {
    a.key == b.key && a.sha == b.sha && a.bytes == b.bytes && a.at == b.at && a.state == b.state
  }

  /** The same entries in the same states and the same order, and the same day's count. */
  ghost predicate Equiv(s: Mem, t: Mem) {
    && s.entries.Keys == t.entries.Keys
    && (forall rel <- s.entries :: Same(s.entries[rel], t.entries[rel]))
    && (forall a <- s.entries, b <- s.entries ::
          Before(s.entries[a], s.entries[b]) <==> Before(t.entries[a], t.entries[b]))
    && s.day == t.day && s.dayBytes == t.dayBytes
  }

  lemma InsertedEquiv(s: Mem, t: Mem, key: Rel, sha: Sha, bytes: nat, at: nat, state: State)
    requires Ordered(s) && Ordered(t) && Equiv(s, t)
    ensures Equiv(Inserted(s, key, sha, bytes, at, state), Inserted(t, key, sha, bytes, at, state))
  {
    var (s', t') := (Inserted(s, key, sha, bytes, at, state).entries, Inserted(t, key, sha, bytes, at, state).entries);
    forall a, b | a in s' && b in s'
      ensures Before(s'[a], s'[b]) <==> Before(t'[a], t'[b])
    {
      if a != key {
      }
      if b != key {
      }
    }
  }

  lemma AppliedEquiv(s: Mem, t: Mem, rec: Record)
    requires Ordered(s) && Ordered(t) && Equiv(s, t)
    ensures Equiv(Applied(s, rec), Applied(t, rec))
  {
    match rec
    case Pending(key, sha, bytes, at) => InsertedEquiv(s, t, key, sha, bytes, at, State.Pending);
    case Done(key, sha, bytes, at, remote) => InsertedEquiv(s, t, key, sha, bytes, at, State.Done(remote));
    case UploadedBySha(key, sha, bytes, at, of) => InsertedEquiv(s, t, key, sha, bytes, at, Alias(of));
    case Day(_, _) =>
    case Forget(_) =>
  }

  lemma {:induction false} AppliedAllEquiv(s: Mem, t: Mem, recs: seq<Record>)
    requires Wf(s) && Wf(t) && Equiv(s, t)
    ensures Equiv(AppliedAll(s, recs), AppliedAll(t, recs))
    decreases |recs|
  {
    if recs != [] {
      var init := recs[..|recs| - 1];
      AppliedAllEquiv(s, t, init);
      AppliedAllWf(s, init);
      AppliedAllWf(t, init);
      AppliedEquiv(AppliedAll(s, init), AppliedAll(t, init), recs[|recs| - 1]);
    }
  }

  lemma {:induction false} OrderFollows(s: Mem, t: Mem, rels: set<Rel>)
    requires Ordered(s) && Ordered(t) && Equiv(s, t) && rels <= s.entries.Keys
    ensures InOrder(s, rels) == InOrder(t, rels)
    decreases rels
  {
    if rels != {} {
      FirstIsOne(s, rels, First(s, rels), First(t, rels));
      OrderFollows(s, t, rels - {First(s, rels)});
    }
  }

  /** Two such states drain in the same order. */
  lemma EquivDrainsAlike(s: Mem, t: Mem)
    requires Ordered(s) && Ordered(t) && Equiv(s, t)
    ensures var (a, b) := (PendingInOrder(s), PendingInOrder(t));
            |a| == |b| && forall i :: 0 <= i < |a| ==> Same(a[i], b[i])
  {
    assert PendingRels(s) == PendingRels(t);
    OrderFollows(s, t, PendingRels(s));
    var rels := InOrder(s, PendingRels(s));
    forall i | 0 <= i < |rels| ensures Same(PendingInOrder(s)[i], PendingInOrder(t)[i]) {
      assert rels[i] in rels;
    }
  }

  /** Replaying sorted entries numbers each by where it stands. */
  ghost predicate Numbered(m: Mem, rels: seq<Rel>, t: Mem)
    requires Known(m, rels)
  {
    && t.nextSeq == |rels| && t.day == 0 && t.dayBytes == 0
    && (forall rel :: rel in t.entries <==> rel in rels)
    && forall i :: 0 <= i < |rels| ==> t.entries[rels[i]] == m.entries[rels[i]].(seqNo := i)
  }

  ghost predicate Distinct(rels: seq<Rel>) {
    forall i, j :: 0 <= i < j < |rels| ==> rels[i] != rels[j]
  }

  lemma NumberedNext(m: Mem, rels: seq<Rel>, rel: Rel, t: Mem)
    requires Ordered(m) && Known(m, rels) && Numbered(m, rels, t) && rel in m.entries && rel !in rels
    ensures Known(m, rels + [rel]) && Numbered(m, rels + [rel], Applied(t, RecordOf(m.entries[rel])))
  {
    var t' := Applied(t, RecordOf(m.entries[rel]));
    assert t'.entries == t.entries[rel := m.entries[rel].(seqNo := |rels|)];
    forall i | 0 <= i < |rels + [rel]|
      ensures t'.entries[(rels + [rel])[i]] == m.entries[(rels + [rel])[i]].(seqNo := i)
    {
      if i < |rels| {
        assert (rels + [rel])[i] == rels[i];
        assert rels[i] in rels;
      }
    }
  }

  lemma RecordsNext(m: Mem, rels: seq<Rel>, rel: Rel)
    requires Known(m, rels) && rel in m.entries
    ensures Known(m, rels + [rel])
    ensures var recs := RecordsOf(m, rels + [rel]);
            |recs| == |rels| + 1 && recs[..|rels|] == RecordsOf(m, rels) && recs[|rels|] == RecordOf(m.entries[rel])
  {
  }

  lemma NumberedOn(m: Mem, rels: seq<Rel>, rel: Rel)
    requires Ordered(m) && Known(m, rels) && rel in m.entries && rel !in rels
    requires Numbered(m, rels, AppliedAll(EMPTY, RecordsOf(m, rels)))
    ensures Known(m, rels + [rel]) && Numbered(m, rels + [rel], AppliedAll(EMPTY, RecordsOf(m, rels + [rel])))
  {
    RecordsNext(m, rels, rel);
    NumberedNext(m, rels, rel, AppliedAll(EMPTY, RecordsOf(m, rels)));
  }

  lemma {:induction false} ReplayNumbers(m: Mem, rels: seq<Rel>)
    requires Ordered(m) && Known(m, rels) && Distinct(rels)
    ensures Numbered(m, rels, AppliedAll(EMPTY, RecordsOf(m, rels)))
    decreases |rels|
  {
    if rels != [] {
      var n := |rels| - 1;
      ReplayNumbers(m, rels[..n]);
      assert rels == rels[..n] + [rels[n]] && rels[n] in rels;
      NumberedOn(m, rels[..n], rels[n]);
    }
  }

  lemma NumberedIsEquiv(m: Mem, rels: seq<Rel>, t: Mem)
    requires Known(m, rels) && Sorted(m, rels) && Numbered(m, rels, t) && (forall rel <- m.entries :: rel in rels)
    ensures Equiv(m, t.(day := m.day, dayBytes := m.dayBytes))
  {
    assert t.entries.Keys == m.entries.Keys;
    forall rel | rel in m.entries ensures Same(m.entries[rel], t.entries[rel]) {
      var i :| 0 <= i < |rels| && rels[i] == rel;
    }
    forall a, b | a in m.entries && b in m.entries
      ensures Before(m.entries[a], m.entries[b]) <==> Before(t.entries[a], t.entries[b])
    {
      var i :| 0 <= i < |rels| && rels[i] == a;
      var j :| 0 <= j < |rels| && rels[j] == b;
    }
  }

  lemma SortedIsDistinct(m: Mem, rels: seq<Rel>)
    requires Known(m, rels) && Sorted(m, rels)
    ensures Distinct(rels)
  {
    forall i, j | 0 <= i < j < |rels| ensures rels[i] != rels[j] {
      assert Before(m.entries[rels[i]], m.entries[rels[j]]);
    }
  }

  /** A snapshot replays to the state it was taken of, numbered afresh. */
  lemma SnapshotReplays(m: Mem)
    requires Wf(m)
    ensures Equiv(m, AppliedAll(EMPTY, Snapshot(m)))
    ensures Wf(AppliedAll(EMPTY, Snapshot(m)))
  {
    var rels := InOrder(m, m.entries.Keys);
    InOrderSorted(m, m.entries.Keys);
    SortedIsDistinct(m, rels);
    ReplayNumbers(m, rels);
    var recs := RecordsOf(m, rels);
    assert Snapshot(m)[..|recs|] == recs && Snapshot(m)[|recs|] == Day(m.day, m.dayBytes);
    NumberedIsEquiv(m, rels, AppliedAll(EMPTY, recs));
    AppliedAllWf(EMPTY, Snapshot(m));
  }
}
