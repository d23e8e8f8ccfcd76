/**
 One drain from start to end (crates/dagron-artifact/src/tiered.rs): the scan,
 the stale aliases, and the queue moved oldest first under the day's budget.
 */
module DrainQueue {
  import opened Common
  import opened Ledger
  import opened LedgerFile
  import opened LedgerStore
  import opened LedgerTruth
  import opened Uplink

  // ── what it finds to do ────────────────────────────────────────────────────

  /** The files of the local tier the ledger does not know, of those it may adopt. */
  function ScanRecords(c: Config, now: nat, m: Mem, local: map<Rel, Bytes>, listed: seq<Rel>, kept: set<Rel>): seq<Record>
    decreases |listed|
  {
    if listed == [] then []
    else
      var (init, rel) := (listed[..|listed| - 1], listed[|listed| - 1]);
      ScanRecords(c, now, m, local, init, kept)
      + if rel in local && rel !in m.entries && rel !in kept
        then [Record.Pending(rel, c.hash(local[rel]), |local[rel]|, now)] else []
  }

  function StaleRecord(now: nat, m: Mem, local: map<Rel, Bytes>, rel: Rel): Record
    requires rel in m.entries
  {
    var e := m.entries[rel];
    if rel in local then Record.Pending(e.key, e.sha, e.bytes, now) else Record.Forget(e.key)
  }

  function StaleRecords(now: nat, m: Mem, local: map<Rel, Bytes>, stale: seq<Rel>): seq<Record>
    requires Known(m, stale)
    decreases |stale|
  {
    if stale == [] then []
    else
      var n := |stale| - 1;
      assert stale[n] in stale;
      StaleRecords(now, m, local, stale[..n]) + [StaleRecord(now, m, local, stale[n])]
  }

  function NewDay(m: Mem, today: nat): seq<Record> {
    if m.day != today then [Day(today, 0)] else []
  }

  // ── the queue ──────────────────────────────────────────────────────────────

  datatype Shelf = Shelf(mem: Mem, remote: map<Rel, Bytes>)

  /** How a drain ends: its queue done, its budget reached, or the link down. */
  datatype End = Drained | Deferred | LinkDown

  /** Uploads still to come before the link goes down; none, while it is up. */
  type Link = Option<nat>

  function Uploaded(c: Config, now: nat, m: Mem, key: Rel, sent: Bytes, at: Locator): seq<Record> {
    [Record.Done(key, c.hash(sent), |sent|, now, at),
     Day(now / SECS_PER_DAY, SaturatingAdd(m.dayBytes, |sent|))]
  }

  function MoveOne(c: Config, at: Rel -> Locator, now: nat, local: map<Rel, Bytes>, link: Link, want: Entry, s: Shelf)
    : (Shelf, Link, Option<End>)
  {
    match Choose(s.mem, c.cap, want)
    case AliasTo(of) => (s.(mem := Applied(s.mem, AliasRecord(s.mem, want, now, of))), link, None)
    case Stop => (s, link, Some(Deferred))
    case Upload =>
      if want.key !in local then (s.(mem := Applied(s.mem, Record.Forget(want.key))), link, None)
      else if link == Some(0) then (s, link, Some(LinkDown))
      else
        (Shelf(AppliedAll(s.mem, Uploaded(c, now, s.mem, want.key, local[want.key], at(want.key))),
               s.remote[want.key := local[want.key]]),
         if link.Some? then Some(link.value - 1) else None, None)
    case _ => (s, link, None)
  }

  function MoveAll(c: Config, at: Rel -> Locator, now: nat, local: map<Rel, Bytes>, link: Link, order: seq<Entry>, s: Shelf)
    : (Shelf, End)
    decreases |order|
  {
    if order == [] then (s, Drained)
    else
      var (t, rest, end) := MoveOne(c, at, now, local, link, order[0], s);
      if end.Some? then (t, end.value) else MoveAll(c, at, now, local, rest, order[1..], t)
  }

  // ── one move ───────────────────────────────────────────────────────────────

  /** As the ledger has it, and waiting. */
  predicate Waits(m: Mem, e: Entry) {
    e.key in m.entries && m.entries[e.key] == e && e.state.Pending?
  }

  /** Each waits, and is there once. */
  ghost predicate Ready(m: Mem, order: seq<Entry>) {
    && (forall e <- order :: Waits(m, e))
    && (forall i, j :: 0 <= i < j < |order| ==> order[i].key != order[j].key)
  }

  predicate Gone(m: Mem, e: Entry) {
    e.key !in m.entries || !m.entries[e.key].state.Pending?
  }

  /** Only one entry's state changed. */
  ghost predicate OnlyAt(m: Mem, m': Mem, rel: Rel) {
    forall other :: other != rel ==>
      (other in m'.entries <==> other in m.entries) && (other in m.entries ==> m'.entries[other] == m.entries[other])
  }

  /** What moving one entry makes of the ledger. */
  ghost predicate MovedOne(c: Config, m: Mem, want: Entry, m': Mem, end: Option<End>) {
    && OnlyAt(m, m', want.key)
    && (end.None? ==> Gone(m', want) || (Oversize(c.cap, want.bytes) && m' == m))
    && (end.Some? ==> m' == m && !Oversize(c.cap, want.bytes))
    && (end == Some(Deferred) ==> !Fits(c.cap, m.dayBytes, want.bytes))
    && (Oversize(c.cap, want.bytes) ==> m'.dayBytes == m.dayBytes)
    && m'.day == m.day
  }

  lemma ForgetMoves(c: Config, m: Mem, want: Entry)
    requires Wf(m) && Waits(m, want)
    ensures var m' := Applied(m, Record.Forget(want.key)); Wf(m') && MovedOne(c, m, want, m', None)
  {
    AppliedWf(m, Record.Forget(want.key));
  }

  lemma UploadMoves(c: Config, m: Mem, want: Entry, now: nat, sent: Bytes, at: Locator)
    requires Wf(m) && Waits(m, want) && m.day == now / SECS_PER_DAY && !Oversize(c.cap, want.bytes)
    ensures var m' := AppliedAll(m, Uploaded(c, now, m, want.key, sent, at)); Wf(m') && MovedOne(c, m, want, m', None)
  {
    var recs := Uploaded(c, now, m, want.key, sent, at);
    TwoApplied(m, recs[0], recs[1]);
    AppliedAllWf(m, recs);
  }

  lemma MoveOneDoes(c: Config, at: Rel -> Locator, now: nat, local: map<Rel, Bytes>, link: Link, want: Entry, s: Shelf)
    requires Wf(s.mem) && Waits(s.mem, want) && s.mem.day == now / SECS_PER_DAY
    ensures var (t, _, end) := MoveOne(c, at, now, local, link, want, s);
            Wf(t.mem) && MovedOne(c, s.mem, want, t.mem, end) && (end == Some(LinkDown) ==> link.Some?) && end != Some(Drained)
  {
    var choice := Choose(s.mem, c.cap, want);
    if choice.AliasTo? {
    } else if choice.Upload? {
      if want.key !in local {
        ForgetMoves(c, s.mem, want);
      } else {
        UploadMoves(c, s.mem, want, now, local[want.key], at(want.key));
      }
    }
  }

  // ── the ledger stays true ──────────────────────────────────────────────────

  lemma UploadTruthful(c: Config, now: nat, s: Shelf, key: Rel, sent: Bytes, at: Locator)
    requires Truthful(c, s.mem, s.remote) && NotDone(s.mem, key)
    ensures Truthful(c, AppliedAll(s.mem, Uploaded(c, now, s.mem, key, sent, at)), s.remote[key := sent])
  {
    var recs := Uploaded(c, now, s.mem, key, sent, at);
    TwoApplied(s.mem, recs[0], recs[1]);
  }

  lemma {:induction false} FoundIsModest(c: Config, now: nat, m: Mem, local: map<Rel, Bytes>, listed: seq<Rel>, kept: set<Rel>)
    ensures Modest(ScanRecords(c, now, m, local, listed, kept))
    decreases |listed|
  {
    if listed != [] {
      FoundIsModest(c, now, m, local, listed[..|listed| - 1], kept);
    }
  }

  lemma {:induction false} StaleIsModest(now: nat, m: Mem, local: map<Rel, Bytes>, stale: seq<Rel>)
    requires Known(m, stale)
    ensures Modest(StaleRecords(now, m, local, stale))
    decreases |stale|
  {
    if stale != [] {
      StaleIsModest(now, m, local, stale[..|stale| - 1]);
    }
  }

  // ── the whole queue ────────────────────────────────────────────────────────

  predicate KeyIn(order: seq<Entry>, rel: Rel) {
    exists e <- order :: e.key == rel
  }

  /** Outside the queue nothing changed. */
  ghost predicate Elsewhere(m: Mem, m': Mem, order: seq<Entry>) {
    forall rel :: !KeyIn(order, rel) ==>
      (rel in m'.entries <==> rel in m.entries) && (rel in m.entries ==> m'.entries[rel] == m.entries[rel])
  }

  /**
   The first `k` have left, or can never; the rest wait as they did. A drain
   that stops does so at an entry that could move, and only for want of budget
   or of a link.
   */
  ghost predicate Fair(c: Config, order: seq<Entry>, m: Mem, end: End, k: nat) {
    && k <= |order|
    && (forall i :: 0 <= i < k ==> Gone(m, order[i]) || (Oversize(c.cap, order[i].bytes) && Waits(m, order[i])))
    && (forall i :: k <= i < |order| ==> Waits(m, order[i]))
    && (if end.Drained? then k == |order| else k < |order| && !Oversize(c.cap, order[k].bytes))
    && (end.Deferred? ==> !Fits(c.cap, m.dayBytes, order[k].bytes))
  }

  lemma RestIsReady(m: Mem, order: seq<Entry>, m': Mem)
    requires order != [] && Ready(m, order) && OnlyAt(m, m', order[0].key)
    ensures Ready(m', order[1..]) && !KeyIn(order[1..], order[0].key)
  {
    var rest := order[1..];
    forall e | e in rest ensures Waits(m', e) && e.key != order[0].key {
      var i :| 0 <= i < |rest| && rest[i] == e;
      assert order[i + 1] == e && order[0].key != order[i + 1].key;
      assert e in order;
    }
  }

  lemma FairOnto(c: Config, order: seq<Entry>, m: Mem, m1: Mem, m': Mem, end: End, k: nat)
    requires order != [] && MovedOne(c, m, order[0], m1, None)
    requires Waits(m, order[0]) && Fair(c, order[1..], m', end, k) && Elsewhere(m1, m', order[1..]) && !KeyIn(order[1..], order[0].key)
    ensures Fair(c, order, m', end, k + 1) && Elsewhere(m, m', order)
  {
    var rest := order[1..];
    forall i | 0 <= i < k + 1 ensures Gone(m', order[i]) || (Oversize(c.cap, order[i].bytes) && Waits(m', order[i])) {
      if i > 0 {
        assert order[i] == rest[i - 1];
      }
    }
    forall i | k + 1 <= i < |order| ensures Waits(m', order[i]) {
      assert order[i] == rest[i - 1];
    }
    forall rel | !KeyIn(order, rel)
      ensures (rel in m'.entries <==> rel in m.entries) && (rel in m.entries ==> m'.entries[rel] == m.entries[rel])
    {
      assert order[0] in order && order[0].key != rel;
      assert forall e <- rest :: e in order;
      assert !KeyIn(rest, rel);
    }
  }

  /** What moving a queue makes of the ledger. */
  ghost predicate Queued(c: Config, order: seq<Entry>, link: Link, m: Mem, m': Mem, end: End, k: nat) {
    && Wf(m') && m'.day == m.day
    && Fair(c, order, m', end, k) && Elsewhere(m, m', order)
    && (end.LinkDown? ==> link.Some?)
  }

  lemma QueuedOnto(c: Config, order: seq<Entry>, link: Link, rest: Link, m: Mem, m1: Mem, m': Mem, end: End, k: nat)
    requires order != [] && Ready(m, order) && MovedOne(c, m, order[0], m1, None) && (rest.Some? ==> link.Some?)
    requires Queued(c, order[1..], rest, m1, m', end, k)
    ensures Queued(c, order, link, m, m', end, k + 1)
  {
    assert order[0] in order;
    RestIsReady(m, order, m1);
    FairOnto(c, order, m, m1, m', end, k);
  }

  lemma QueueNext(c: Config, at: Rel -> Locator, now: nat, local: map<Rel, Bytes>, link: Link,
                  order: seq<Entry>, s: Shelf) returns (t: Shelf, rest: Link, end: Option<End>)
    requires order != [] && Wf(s.mem) && Ready(s.mem, order) && s.mem.day == now / SECS_PER_DAY
    ensures Wf(t.mem) && MovedOne(c, s.mem, order[0], t.mem, end)
    ensures (rest.Some? ==> link.Some?) && (end == Some(LinkDown) ==> link.Some?)
    ensures end == None || end == Some(Deferred) || end == Some(LinkDown)
    ensures MoveAll(c, at, now, local, link, order, s)
         == if end.Some? then (t, end.value) else MoveAll(c, at, now, local, rest, order[1..], t)
  {
    assert Waits(s.mem, order[0]);
    MoveOneDoes(c, at, now, local, link, order[0], s);
    t, rest, end := MoveOne(c, at, now, local, link, order[0], s).0, MoveOne(c, at, now, local, link, order[0], s).1,
                    MoveOne(c, at, now, local, link, order[0], s).2;
  }

  lemma {:induction false} QueueIsFair(c: Config, at: Rel -> Locator, now: nat, local: map<Rel, Bytes>, link: Link,
                                       order: seq<Entry>, s: Shelf) returns (k: nat, t: Shelf, end: End)
    requires Wf(s.mem) && Ready(s.mem, order) && s.mem.day == now / SECS_PER_DAY
    ensures (t, end) == MoveAll(c, at, now, local, link, order, s)
    ensures Queued(c, order, link, s.mem, t.mem, end, k)
    decreases |order|
  {
    if order == [] {
      return 0, s, Drained;
    }
    var u, rest, stop := QueueNext(c, at, now, local, link, order, s);
    if stop.Some? {
      return 0, u, stop.value;
    }
    RestIsReady(s.mem, order, u.mem);
    k, t, end := QueueIsFair(c, at, now, local, rest, order[1..], u);
    QueuedOnto(c, order, link, rest, s.mem, u.mem, t.mem, end, k);
    k := k + 1;
  }

  /** On a new day, with the link up, the oldest entry that can move does. */
  lemma {:induction false} OldestMoves(c: Config, at: Rel -> Locator, now: nat, local: map<Rel, Bytes>,
                                       order: seq<Entry>, s: Shelf, k: nat)
    requires Wf(s.mem) && Ready(s.mem, order) && s.mem.day == now / SECS_PER_DAY && s.mem.dayBytes == 0
    requires k < |order| && !Oversize(c.cap, order[k].bytes)
    requires forall i :: 0 <= i < k ==> Oversize(c.cap, order[i].bytes)
    ensures Gone(MoveAll(c, at, now, local, None, order, s).0.mem, order[k])
    decreases |order|
  {
    var t, rest, end := QueueNext(c, at, now, local, None, order, s);
    if k == 0 {
      assert Fits(c.cap, 0, order[0].bytes);
    } else {
      assert Oversize(c.cap, order[0].bytes);
    }
    assert end == None;
    RestIsReady(s.mem, order, t.mem);
    if k == 0 {
      var j, u, ended := QueueIsFair(c, at, now, local, rest, order[1..], t);
    } else {
      OldestMoves(c, at, now, local, order[1..], t, k - 1);
    }
  }

  // ── no alias is left stale ─────────────────────────────────────────────────

  lemma MoveOneKeepsAliases(c: Config, at: Rel -> Locator, now: nat, local: map<Rel, Bytes>, link: Link, want: Entry, s: Shelf)
    requires Wf(s.mem) && Waits(s.mem, want) && s.mem.day == now / SECS_PER_DAY && StaleRels(s.mem) == {}
    ensures StaleRels(MoveOne(c, at, now, local, link, want, s).0.mem) == {}
  {
    MoveOneDoes(c, at, now, local, link, want, s);
    var t := MoveOne(c, at, now, local, link, want, s).0;
    if Choose(s.mem, c.cap, want).Upload? && want.key in local {
      var recs := Uploaded(c, now, s.mem, want.key, local[want.key], at(want.key));
      TwoApplied(s.mem, recs[0], recs[1]);
    }
  }

  lemma {:induction false} QueueKeepsAliases(c: Config, at: Rel -> Locator, now: nat, local: map<Rel, Bytes>, link: Link,
                                             order: seq<Entry>, s: Shelf)
    requires Wf(s.mem) && Ready(s.mem, order) && s.mem.day == now / SECS_PER_DAY && StaleRels(s.mem) == {}
    ensures StaleRels(MoveAll(c, at, now, local, link, order, s).0.mem) == {}
    decreases |order|
  {
    if order != [] {
      assert Waits(s.mem, order[0]);
      MoveOneKeepsAliases(c, at, now, local, link, order[0], s);
      MoveOneDoes(c, at, now, local, link, order[0], s);
      var (t, rest, end) := MoveOne(c, at, now, local, link, order[0], s);
      if end.None? {
        RestIsReady(s.mem, order, t.mem);
        QueueKeepsAliases(c, at, now, local, rest, order[1..], t);
      }
    }
  }

  /** What is in the local tier stays ledgered: an entry goes only with its file. */
  lemma {:induction false} QueueKeepsLocal(c: Config, at: Rel -> Locator, now: nat, local: map<Rel, Bytes>, link: Link,
                                           order: seq<Entry>, s: Shelf, rel: Rel)
    requires rel in local && rel in s.mem.entries
    ensures rel in MoveAll(c, at, now, local, link, order, s).0.mem.entries
    decreases |order|
  {
    if order != [] {
      var (t, rest, end) := MoveOne(c, at, now, local, link, order[0], s);
      var want := order[0];
      if Choose(s.mem, c.cap, want).Upload? && want.key in local {
        var recs := Uploaded(c, now, s.mem, want.key, local[want.key], at(want.key));
        TwoApplied(s.mem, recs[0], recs[1]);
      }
      assert rel in t.mem.entries;
      if end.None? {
        QueueKeepsLocal(c, at, now, local, rest, order[1..], t, rel);
      }
    }
  }

  // ── a drain ────────────────────────────────────────────────────────────────

  /** What a drain is given: the time, the local tier and its listing, what the scan leaves alone, and the link. */
  datatype Visit = Visit(now: nat, local: map<Rel, Bytes>, listed: seq<Rel>, kept: set<Rel>, stale: seq<Rel>, link: Link)

  function Found(c: Config, v: Visit, m: Mem): seq<Record>
    requires Known(m, v.stale)
  {
    ScanRecords(c, v.now, m, v.local, v.listed, v.kept) + StaleRecords(v.now, m, v.local, v.stale)
    + NewDay(m, v.now / SECS_PER_DAY)
  }

  function DrainAll(c: Config, at: Rel -> Locator, v: Visit, s: Shelf): (Shelf, End)
    requires Wf(s.mem) && Known(s.mem, v.stale)
  {
    var m := AppliedAll(s.mem, Found(c, v, s.mem));
    AppliedAllWf(s.mem, Found(c, v, s.mem));
    MoveAll(c, at, v.now, v.local, v.link, PendingInOrder(m), s.(mem := m))
  }

  lemma PendingIsReady(m: Mem)
    requires Wf(m)
    ensures Ready(m, PendingInOrder(m))
  {
    var order := PendingInOrder(m);
    forall e | e in order ensures Waits(m, e) {
      PendingIsAll(m, e);
    }
    PendingIsSorted(m);
    forall i, j | 0 <= i < j < |order| ensures order[i].key != order[j].key {
      assert Before(order[i], order[j]);
      assert order[i] in order && order[j] in order;
    }
  }

  /** Nothing new to ledger: every file is known, or left alone, and no alias is stale. */
  ghost predicate NothingNew(v: Visit, m: Mem) {
    v.stale == [] && StaleRels(m) == {} && forall rel <- v.local :: rel in m.entries || rel in v.kept
  }

  lemma {:induction false} NothingToScan(c: Config, v: Visit, m: Mem, listed: seq<Rel>)
    requires NothingNew(v, m)
    ensures ScanRecords(c, v.now, m, v.local, listed, v.kept) == []
    decreases |listed|
  {
    if listed != [] {
      NothingToScan(c, v, m, listed[..|listed| - 1]);
    }
  }

  function Fitting(cap: Cap, m: Mem): set<Rel> {
    set rel | rel in m.entries && m.entries[rel].state.Pending? && !Oversize(cap, m.entries[rel].bytes)
  }

  lemma OnlyTheDay(c: Config, v: Visit, m: Mem)
    requires Wf(m) && NothingNew(v, m) && m.day != v.now / SECS_PER_DAY
    ensures AppliedAll(m, Found(c, v, m)) == m.(day := v.now / SECS_PER_DAY, dayBytes := 0)
  {
    NothingToScan(c, v, m, v.listed);
    var day := Day(v.now / SECS_PER_DAY, 0);
    assert Found(c, v, m) == [day];
    assert [day][..0] == [];
  }

  /** What can still move is only what could before. */
  lemma FittingOnlyShrinks(c: Config, order: seq<Entry>, m: Mem, m': Mem, end: End, k: nat)
    requires (forall e :: e in order <==> Waits(m, e)) && (forall rel <- m.entries :: m.entries[rel].key == rel)
    requires Fair(c, order, m', end, k) && Elsewhere(m, m', order)
    ensures Fitting(c.cap, m') <= Fitting(c.cap, m)
  {
    forall rel | rel in Fitting(c.cap, m') ensures rel in Fitting(c.cap, m) {
      if KeyIn(order, rel) {
        var e :| e in order && e.key == rel;
        var i :| 0 <= i < |order| && order[i] == e;
        assert Waits(m', order[i]) && Waits(m, e);
      } else {
        assert rel in m.entries && m.entries[rel] == m'.entries[rel];
        assert Waits(m, m.entries[rel]);
      }
    }
  }

  /** The first entry of the queue that can move. */
  lemma FirstFitting(c: Config, order: seq<Entry>, rel: Rel, m: Mem) returns (k: nat)
    requires (forall e :: e in order <==> Waits(m, e)) && (forall rel <- m.entries :: m.entries[rel].key == rel)
    requires rel in Fitting(c.cap, m)
    ensures k < |order| && !Oversize(c.cap, order[k].bytes) && order[k].key in Fitting(c.cap, m)
    ensures forall i :: 0 <= i < k ==> Oversize(c.cap, order[i].bytes)
  {
    var e := m.entries[rel];
    assert Waits(m, e);
    var j :| 0 <= j < |order| && order[j] == e;
    k := 0;
    while Oversize(c.cap, order[k].bytes)
      invariant k <= j && forall i :: 0 <= i < k ==> Oversize(c.cap, order[i].bytes)
      decreases j - k
    {
      k := k + 1;
    }
    assert order[k] in order;
  }

  lemma PendingExactly(m: Mem)
    requires Wf(m)
    ensures forall e :: e in PendingInOrder(m) <==> Waits(m, e)
  {
    forall e ensures e in PendingInOrder(m) <==> Waits(m, e) {
      PendingIsAll(m, e);
    }
  }

  /** A whole queue moved on a new day, with the link up: less can still move, if anything could. */
  lemma QueueShrinks(c: Config, at: Rel -> Locator, now: nat, local: map<Rel, Bytes>, s: Shelf)
    requires Wf(s.mem) && s.mem.day == now / SECS_PER_DAY && s.mem.dayBytes == 0
    ensures var t := MoveAll(c, at, now, local, None, PendingInOrder(s.mem), s).0.mem;
            && Wf(t) && t.day == s.mem.day
            && Fitting(c.cap, t) <= Fitting(c.cap, s.mem)
            && (Fitting(c.cap, s.mem) != {} ==> Fitting(c.cap, t) < Fitting(c.cap, s.mem))
  {
    var order := PendingInOrder(s.mem);
    PendingIsReady(s.mem);
    PendingExactly(s.mem);
    var k, t, end := QueueIsFair(c, at, now, local, None, order, s);
    FittingOnlyShrinks(c, order, s.mem, t.mem, end, k);
    if rel :| rel in Fitting(c.cap, s.mem) {
      var f := FirstFitting(c, order, rel, s.mem);
      OldestMoves(c, at, now, local, order, s, f);
      assert order[f].key !in Fitting(c.cap, t.mem);
    }
  }

  lemma NothingNewStays(c: Config, at: Rel -> Locator, v: Visit, s: Shelf)
    requires Wf(s.mem) && s.mem.day == v.now / SECS_PER_DAY && NothingNew(v, s.mem)
    ensures NothingNew(v, MoveAll(c, at, v.now, v.local, None, PendingInOrder(s.mem), s).0.mem)
  {
    var order := PendingInOrder(s.mem);
    PendingIsReady(s.mem);
    QueueKeepsAliases(c, at, v.now, v.local, None, order, s);
    var t := MoveAll(c, at, v.now, v.local, None, order, s).0;
    forall rel | rel in v.local ensures rel in t.mem.entries || rel in v.kept {
      if rel in s.mem.entries {
        QueueKeepsLocal(c, at, v.now, v.local, None, order, s, rel);
      }
    }
  }

  lemma DrainShrinks(c: Config, at: Rel -> Locator, v: Visit, s: Shelf)
    requires Wf(s.mem) && NothingNew(v, s.mem) && s.mem.day != v.now / SECS_PER_DAY && v.link == None
    ensures var t := DrainAll(c, at, v, s).0.mem;
            && Wf(t) && NothingNew(v, t) && t.day == v.now / SECS_PER_DAY
            && Fitting(c.cap, t) <= Fitting(c.cap, s.mem)
            && (Fitting(c.cap, s.mem) != {} ==> Fitting(c.cap, t) < Fitting(c.cap, s.mem))
  {
    OnlyTheDay(c, v, s.mem);
    var m := s.mem.(day := v.now / SECS_PER_DAY, dayBytes := 0);
    assert StaleRels(m) == StaleRels(s.mem) && Fitting(c.cap, m) == Fitting(c.cap, s.mem);
    QueueShrinks(c, at, v.now, v.local, s.(mem := m));
    NothingNewStays(c, at, v, s.(mem := m));
  }

  lemma MoveOneWf(c: Config, at: Rel -> Locator, now: nat, local: map<Rel, Bytes>, link: Link, want: Entry, s: Shelf)
    requires Wf(s.mem)
    ensures Wf(MoveOne(c, at, now, local, link, want, s).0.mem)
  {
    match Choose(s.mem, c.cap, want)
    case AliasTo(of) => AppliedWf(s.mem, AliasRecord(s.mem, want, now, of));
    case Upload =>
      AppliedWf(s.mem, Record.Forget(want.key));
      if want.key in local {
        AppliedAllWf(s.mem, Uploaded(c, now, s.mem, want.key, local[want.key], at(want.key)));
      }
    case _ =>
  }

  lemma {:induction false} MoveAllWf(c: Config, at: Rel -> Locator, now: nat, local: map<Rel, Bytes>, link: Link,
                                     order: seq<Entry>, s: Shelf)
    requires Wf(s.mem)
    ensures Wf(MoveAll(c, at, now, local, link, order, s).0.mem)
    decreases |order|
  {
    if order != [] {
      MoveOneWf(c, at, now, local, link, order[0], s);
      var (t, rest, end) := MoveOne(c, at, now, local, link, order[0], s);
      if end.None? {
        MoveAllWf(c, at, now, local, rest, order[1..], t);
      }
    }
  }

  lemma DrainWf(c: Config, at: Rel -> Locator, v: Visit, s: Shelf)
    requires Wf(s.mem) && Known(s.mem, v.stale)
    ensures Wf(DrainAll(c, at, v, s).0.mem)
  {
    var m := AppliedAll(s.mem, Found(c, v, s.mem));
    AppliedAllWf(s.mem, Found(c, v, s.mem));
    MoveAllWf(c, at, v.now, v.local, v.link, PendingInOrder(m), s.(mem := m));
  }

  // ── draining day by day ────────────────────────────────────────────────────

  /** Each drain on another day than the last. */
  predicate OtherDays(day: nat, nows: seq<nat>)
    decreases |nows|
  {
    nows == [] || (nows[0] / SECS_PER_DAY != day && OtherDays(nows[0] / SECS_PER_DAY, nows[1..]))
  }

  ghost function Days(c: Config, at: Rel -> Locator, v: Visit, nows: seq<nat>, s: Shelf): Shelf
    requires Wf(s.mem) && v.stale == []
    decreases |nows|
  {
    if nows == [] then s
    else
      DrainWf(c, at, v.(now := nows[0]), s);
      Days(c, at, v, nows[1..], DrainAll(c, at, v.(now := nows[0]), s).0)
  }

  lemma {:induction false} SmallerSet<T>(a: set<T>, b: set<T>)
    requires a < b
    ensures |a| < |b|
  {
    assert !(b <= a);
    var x :| x in b && x !in a;
    SubsetSize(a, b - {x});
  }

  /**
   With the link up and nothing new, `n` entries that can move are gone after
   drains on `n` days.
   */
  lemma {:induction false} QueueEmpties(c: Config, at: Rel -> Locator, v: Visit, nows: seq<nat>, s: Shelf)
    requires Wf(s.mem) && NothingNew(v, s.mem) && v.link == None
    requires OtherDays(s.mem.day, nows) && |Fitting(c.cap, s.mem)| <= |nows|
    ensures Fitting(c.cap, Days(c, at, v, nows, s).mem) == {}
    decreases |nows|
  {
    if nows != [] {
      var today := v.(now := nows[0]);
      DrainShrinks(c, at, today, s);
      var t := DrainAll(c, at, today, s).0;
      if Fitting(c.cap, s.mem) != {} {
        SmallerSet(Fitting(c.cap, t.mem), Fitting(c.cap, s.mem));
      }
      QueueEmpties(c, at, v, nows[1..], t);
    }
  }
}
