/**
 Runs of the tiered store (crates/dagron-artifact/src/tiered.rs) with a crash that
 brings back a ledger that calls uploaded what was overwritten since, or that
 counts less than was uploaded.
 */
module Misleading {
  import opened Common
  import opened Ledger
  import opened LedgerFile
  import opened LedgerStore
  import opened LedgerTruth
  import opened Uplink
  import opened Billing

  // ── a drain that uploads one key ───────────────────────────────────────────

  /** One key waits, and nothing else, within the day's budget. */
  predicate OneWaits(c: Config, s: Sys, key: Rel, bytes: Bytes) {
    && s.drain.Resting? && s.kept.mem.day == 0 && s.kept.mem.bySha == map[]
    && s.kept.mem.entries.Keys == {key} && s.kept.mem.entries[key].state.Pending?
    && s.kept.mem.entries[key].key == key && s.kept.mem.entries[key].sha == c.hash(bytes)
    && Affords(c, s, s.kept.mem.entries[key])
  }

  predicate Affords(c: Config, s: Sys, e: Entry) {
    !Oversize(c.cap, e.bytes) && Fits(c.cap, s.kept.mem.dayBytes, e.bytes)
  }

  lemma OneInOrder(m: Mem, key: Rel)
    requires Ordered(m) && m.entries.Keys == {key} && m.entries[key].state.Pending?
    ensures PendingInOrder(m) == [m.entries[key]]
  {
    assert PendingRels(m) == {key};
    var rels := InOrder(m, {key});
    assert |rels| == 1 && rels[0] in rels;
  }

  /** The drain's state as it makes the upload. */
  ghost function SentBy(c: Config, s: Sys, key: Rel, bytes: Bytes, locator: Locator): Sys
    requires key in s.kept.mem.entries
  {
    Landed(c, s, key, bytes).(
      drain := Sent(0, [], s.kept.mem.entries[key], c.hash(bytes), |bytes|, locator),
      today := 0, uploaded := Plus(s.uploaded, 0, |bytes|))
  }

  lemma Prepares(c: Config, s0: Sys, s: Sys)
    requires Reaches(c, s0, s) && Wf(s.kept.mem) && s.drain.Resting? && s.kept.mem.day == 0
    ensures Reaches(c, s0, s.(drain := Ordering(0), today := 0))
  {
    var one := s.(drain := Preparing(0, []), today := 0);
    ReachesOn(c, s0, s, Begin(0), one);
    assert Prepared(one) == [];
    ReachesOn(c, s0, one, Settle(Went(Fine)), s.(drain := Ordering(0), today := 0));
  }

  lemma Takes(c: Config, s: Sys, e: Entry)
    requires Wf(s.kept.mem) && s.drain == Draining(0, [e]) && Affords(c, s, e) && s.kept.mem.bySha == map[]
    requires e.key in s.kept.mem.entries && s.kept.mem.entries[e.key] == e && e.state.Pending?
    ensures Step(c, s, Next(Went(Fine)), s.(drain := Uploading(0, [], e)))
  {
    assert [e][1..] == [];
    assert NextRecords(c, s) == [] && NextDrain(c, s) == Uploading(0, [], e);
  }

  lemma Uplinks(c: Config, s0: Sys, s: Sys, key: Rel, bytes: Bytes, locator: Locator)
    requires Reaches(c, s0, s) && Wf(s.kept.mem) && OneWaits(c, s, key, bytes)
    ensures Reaches(c, s0, SentBy(c, s, key, bytes, locator))
  {
    var e := s.kept.mem.entries[key];
    var two := s.(drain := Ordering(0), today := 0);
    var (three, four) := (two.(drain := Draining(0, [e])), two.(drain := Uploading(0, [], e)));
    Prepares(c, s0, s);
    OneInOrder(s.kept.mem, key);
    ReachesOn(c, s0, two, Order, three);
    Takes(c, three, e);
    ReachesOn(c, s0, three, Next(Went(Fine)), four);
    ReachesOn(c, s0, four, Send(bytes, locator), SentBy(c, s, key, bytes, locator));
  }

  // ── from one key uploaded ──────────────────────────────────────────────────

  /** One key uploaded, its file abreast, and other bytes written to the local tier under it. */
  function Before(c: Config, key: Rel, was: Bytes, now: Bytes, locator: Locator): Sys {
    var rec := Record.Done(key, c.hash(was), |was|, 0, locator);
    Sys(Kept(Applied(EMPTY, rec), 0, false, c.codec.enc(rec) + [NEWLINE]),
        map[key := now], map[key := was], map[], Resting, 0, map[], map[], map[])
  }

  /** The ledger after the put of them. */
  function PutMem(c: Config, key: Rel, was: Bytes, now: Bytes, locator: Locator): Mem {
    Applied(Before(c, key, was, now, locator).kept.mem, Record.Pending(key, c.hash(now), |now|, 0))
  }

  predicate CalledUploaded(c: Config, m: Mem, key: Rel, bytes: Bytes) {
    key in m.entries && m.entries[key].state.Done? && m.entries[key].sha == c.hash(bytes)
  }

  /** The ledger calls the key uploaded with its old bytes; the remote tier holds the new. */
  predicate OldIsCalledUploaded(c: Config, key: Rel, was: Bytes, now: Bytes, t: Sys) {
    CalledUploaded(c, t.kept.mem, key, was) && t.remote == map[key := now]
  }

  lemma BeforeIsTrue(c: Config, key: Rel, was: Bytes, now: Bytes, locator: Locator)
    requires Faithful(c.codec)
    ensures var s := Before(c, key, was, now, locator);
            && Inv(c, s) && Replay(c.codec, s.kept.file, START) == Loaded(s.kept.mem, false) && Clean(s.kept.file)
  {
    var s := Before(c, key, was, now, locator);
    var rec := Record.Done(key, c.hash(was), |was|, 0, locator);
    AppliedWf(EMPTY, rec);
    ReplayLine(c.codec, c.codec.enc(rec), START);
  }

  lemma PutMemIs(c: Config, key: Rel, was: Bytes, now: Bytes, locator: Locator)
    ensures var m := PutMem(c, key, was, now, locator);
            && Wf(m) && m.day == 0 && m.bySha == map[] && m.entries.Keys == {key}
            && m.entries[key] == Entry(key, c.hash(now), |now|, 0, 1, State.Pending)
  {
    var s := Before(c, key, was, now, locator);
    AppliedWf(EMPTY, Record.Done(key, c.hash(was), |was|, 0, locator));
    AppliedWf(s.kept.mem, Record.Pending(key, c.hash(now), |now|, 0));
  }

  // ── a crash before a failed write is made good ─────────────────────────────

  lemma FailedPut(c: Config, key: Rel, was: Bytes, now: Bytes, locator: Locator)
    requires Faithful(c.codec) && c.hash(was) != c.hash(now)
    ensures var s := Before(c, key, was, now, locator);
            Wf(s.kept.mem)
            && Step(c, s, LedgerPut(key, c.hash(now), |now|, 0, Went(Fails(0))),
                    Rekept(c, s, Kept(PutMem(c, key, was, now, locator), 0, true, s.kept.file)))
  {
    var s := Before(c, key, was, now, locator);
    var rec := Record.Pending(key, c.hash(now), |now|, 0);
    BeforeIsTrue(c, key, was, now, locator);
    PutMemIs(c, key, was, now, locator);
    OneApplied(s.kept.mem, rec);
    assert s.kept.file + Encode(c.codec, [rec])[..0] == s.kept.file;
  }

  lemma CrashesTo(c: Config, s0: Sys, s: Sys, key: Rel, was: Bytes, now: Bytes) returns (t: Sys)
    requires Reaches(c, s0, s) && Wf(s.kept.mem) && s.remote == map[key := now]
    requires CalledUploaded(c, ReplayedMem(c, s.kept.file), key, was)
    ensures Reaches(c, s0, t) && OldIsCalledUploaded(c, key, was, now, t)
  {
    t := Restarted(c, s, s.kept.file, Lost(s));
    ReachesOn(c, s0, s, Action.Crash, t);
  }

  lemma UplinksThenCrashes(c: Config, s0: Sys, s: Sys, key: Rel, was: Bytes, now: Bytes, locator: Locator) returns (t: Sys)
    requires Reaches(c, s0, s) && Wf(s.kept.mem) && OneWaits(c, s, key, now) && s.remote == map[key := was]
    requires CalledUploaded(c, ReplayedMem(c, s.kept.file), key, was)
    ensures Reaches(c, s0, t) && OldIsCalledUploaded(c, key, was, now, t)
  {
    Uplinks(c, s0, s, key, now, locator);
    t := CrashesTo(c, s0, SentBy(c, s, key, now, locator), key, was, now);
  }

  /**
   A put whose ledger write fails, its upload, and a crash: the reload calls the
   key uploaded with the bytes it had before.
   */
  lemma SuspectFileMisleads(c: Config, key: Rel, was: Bytes, now: Bytes, locator: Locator) returns (t: Sys)
    requires Faithful(c.codec) && c.cap.None? && c.hash(was) != c.hash(now)
    ensures var s := Before(c, key, was, now, locator); Inv(c, s) && Reaches(c, s, t) && OldIsCalledUploaded(c, key, was, now, t)
  {
    var s := Before(c, key, was, now, locator);
    BeforeIsTrue(c, key, was, now, locator);
    FailedPut(c, key, was, now, locator);
    PutMemIs(c, key, was, now, locator);
    ReachesItself(c, s);
    var suspect := Rekept(c, s, Kept(PutMem(c, key, was, now, locator), 0, true, s.kept.file));
    ReachesOn(c, s, s, LedgerPut(key, c.hash(now), |now|, 0, Went(Fails(0))), suspect);
    t := UplinksThenCrashes(c, s, suspect, key, was, now, locator);
  }

  // ── a record glued to one cut just before its newline ──────────────────────

  lemma OneTorn(c: Codec, base: Bytes, rec: Record)
    ensures |c.enc(rec)| <= |Encode(c, [rec])| && Torn(c, base, [rec], |c.enc(rec)|) == base + c.enc(rec)
  {
    OneLine(c, rec);
    assert Encode(c, [rec])[..|c.enc(rec)|] == c.enc(rec);
  }

  lemma Unclean(c: Codec, base: Bytes, rec: Record)
    requires Faithful(c)
    ensures !Clean(base + c.enc(rec))
  {
    var line := c.enc(rec);
    NotEmpty(c, rec);
    assert (base + line)[|base + line| - 1] == line[|line| - 1] && line[|line| - 1] in line;
  }

  lemma CutReplays(c: Codec, base: Bytes, rec: Record)
    requires Faithful(c) && Clean(base)
    ensures Replay(c, base + c.enc(rec), START)
         == Replay(c, base, START).(mem := Applied(Replay(c, base, START).mem, rec))
  {
    var line := c.enc(rec);
    assert line[..|line|] == line;
    ReplayInTurn(c, base, line, START);
    PartReplays(c, rec, |line|, Replay(c, base, START));
  }

  lemma CutPut(c: Config, key: Rel, was: Bytes, now: Bytes, locator: Locator)
    requires Faithful(c.codec) && c.hash(was) != c.hash(now)
    ensures var s := Before(c, key, was, now, locator);
            var line := c.codec.enc(Record.Pending(key, c.hash(now), |now|, 0));
            && Wf(s.kept.mem) && !Clean(s.kept.file + line)
            && Step(c, s, LedgerPut(key, c.hash(now), |now|, 0, Crashed(|line|, false)),
                    Rekept(c, s, Kept(PutMem(c, key, was, now, locator), 0, false, s.kept.file + line)))
  {
    var s := Before(c, key, was, now, locator);
    var rec := Record.Pending(key, c.hash(now), |now|, 0);
    BeforeIsTrue(c, key, was, now, locator);
    PutMemIs(c, key, was, now, locator);
    OneApplied(s.kept.mem, rec);
    OneTorn(c.codec, s.kept.file, rec);
    Unclean(c.codec, s.kept.file, rec);
    CutReplays(c.codec, s.kept.file, rec);
    assert Reloaded(c.codec, s.kept.file + c.codec.enc(rec))
        == Kept(PutMem(c, key, was, now, locator), 0, false, s.kept.file + c.codec.enc(rec));
  }

  /** Two records appended to a file without its last newline. */
  lemma GluedReplays(c: Config, base: Bytes, r: Record, a: Record, b: Record)
    requires Faithful(c.codec) && Clean(base)
    ensures ReplayedMem(c, base + c.codec.enc(r) + Encode(c.codec, [a, b])) == Applied(ReplayedMem(c, base), b)
  {
    var (line, first) := (c.codec.enc(r), c.codec.enc(a));
    var glued := base + (line + first + [NEWLINE]);
    NotEmpty(c.codec, a);
    assert first[..|first|] == first;
    GluedLine(c.codec, r, a, |first|);
    MalformedLine(c.codec, base, line + first);
    assert Clean(glued);
    AppendReplays(c.codec, glued, [b]);
    OneApplied(ReplayedMem(c, glued), b);
    EncodedFirst(c.codec, [a, b]);
    assert [a, b][1..] == [b];
    Regrouped(base, line, first, Encode(c.codec, [b]));
  }

  lemma Regrouped(base: Bytes, line: Bytes, first: Bytes, rest: Bytes)
    ensures base + line + (first + [NEWLINE] + rest) == base + (line + first + [NEWLINE]) + rest
  {
  }

  /** The ledger, and its file, after the upload of a key is recorded onto a file cut short. */
  lemma Accounts(c: Config, s: Sys, key: Rel, base: Bytes, r: Record) returns (t: Sys)
    requires Faithful(c.codec) && Wf(s.kept.mem) && s.drain.Sent? && s.drain.order == [] && s.drain.up.key == key
    requires StillPending(s.kept.mem, s.drain.up) && s.kept.appended == 0 && !s.kept.needsCompaction
    requires Clean(base) && s.kept.file == base + c.codec.enc(r)
    requires (s.kept.mem.entries.Keys == {key})
    ensures Wf(t.kept.mem) && Step(c, s, Account(Went(Fine)), t) && t.remote == s.remote
    ensures ReplayedMem(c, t.kept.file) == Applied(ReplayedMem(c, base), Accounted(s)[1])
  {
    t := Wrote(c, s, Accounted(s), Went(Fine), Draining(s.drain.now, []), Resting, Lost(s));
    var recs := Accounted(s);
    TwoApplied(s.kept.mem, recs[0], recs[1]);
    assert AppliedAll(s.kept.mem, recs).entries.Keys == {key};
    assert !Compacts(s.kept, recs);
    GluedReplays(c, base, r, recs[0], recs[1]);
    assert Encode(c.codec, recs)[..|Encode(c.codec, recs)|] == Encode(c.codec, recs);
  }

  lemma AccountsThenCrashes(c: Config, s0: Sys, s: Sys, key: Rel, was: Bytes, now: Bytes, base: Bytes, r: Record)
    returns (t: Sys)
    requires Faithful(c.codec) && Reaches(c, s0, s) && Wf(s.kept.mem) && s.drain.Sent? && s.drain.order == []
    requires s.drain.up.key == key && StillPending(s.kept.mem, s.drain.up) && s.kept.mem.entries.Keys == {key}
    requires s.remote == map[key := now] && s.kept.appended == 0 && !s.kept.needsCompaction
    requires Clean(base) && s.kept.file == base + c.codec.enc(r) && CalledUploaded(c, ReplayedMem(c, base), key, was)
    ensures Reaches(c, s0, t) && OldIsCalledUploaded(c, key, was, now, t)
  {
    var counted := Accounts(c, s, key, base, r);
    ReachesOn(c, s0, s, Account(Went(Fine)), counted);
    t := CrashesTo(c, s0, counted, key, was, now);
  }

  lemma GluesThenCrashes(c: Config, s0: Sys, s: Sys, key: Rel, was: Bytes, now: Bytes, locator: Locator,
                         base: Bytes, r: Record) returns (t: Sys)
    requires Faithful(c.codec) && Reaches(c, s0, s) && Wf(s.kept.mem) && OneWaits(c, s, key, now)
    requires s.remote == map[key := was] && s.kept.appended == 0 && !s.kept.needsCompaction
    requires Clean(base) && s.kept.file == base + c.codec.enc(r) && CalledUploaded(c, ReplayedMem(c, base), key, was)
    ensures Reaches(c, s0, t) && OldIsCalledUploaded(c, key, was, now, t)
  {
    Uplinks(c, s0, s, key, now, locator);
    t := AccountsThenCrashes(c, s0, SentBy(c, s, key, now, locator), key, was, now, base, r);
  }

  /**
   A put cut just before its newline by a crash, its upload, the record of that
   glued to it, and a crash: the reload calls the key uploaded with the bytes it
   had before, though no crash came while the ledger was suspect.
   */
  lemma GluedFileMisleads(c: Config, key: Rel, was: Bytes, now: Bytes, locator: Locator) returns (t: Sys)
    requires Faithful(c.codec) && c.cap.None? && c.hash(was) != c.hash(now)
    ensures var s := Before(c, key, was, now, locator); Inv(c, s) && Reaches(c, s, t) && OldIsCalledUploaded(c, key, was, now, t)
  {
    var s := Before(c, key, was, now, locator);
    var rec := Record.Pending(key, c.hash(now), |now|, 0);
    var line := c.codec.enc(rec);
    BeforeIsTrue(c, key, was, now, locator);
    CutPut(c, key, was, now, locator);
    PutMemIs(c, key, was, now, locator);
    ReachesItself(c, s);
    var cut := Rekept(c, s, Kept(PutMem(c, key, was, now, locator), 0, false, s.kept.file + line));
    ReachesOn(c, s, s, LedgerPut(key, c.hash(now), |now|, 0, Crashed(|line|, false)), cut);
    t := GluesThenCrashes(c, s, cut, key, was, now, locator, s.kept.file, rec);
  }

  // ── an upload forgotten ────────────────────────────────────────────────────

  /** One key to upload, its file abreast, and nothing uploaded yet. */
  function Waiting(c: Config, key: Rel, bytes: Bytes): Sys {
    var rec := Record.Pending(key, c.hash(bytes), |bytes|, 0);
    Sys(Kept(Applied(EMPTY, rec), 0, false, c.codec.enc(rec) + [NEWLINE]),
        map[key := bytes], map[], map[], Resting, 0, map[], map[], map[])
  }

  lemma WaitingIs(c: Config, key: Rel, bytes: Bytes)
    requires Faithful(c.codec) && c.cap == Some(|bytes|)
    ensures var s := Waiting(c, key, bytes);
            && Wf(s.kept.mem) && Billed(s) && Dated(s) && InStep(c.codec, s.kept) && OneWaits(c, s, key, bytes)
            && Reloaded(c.codec, s.kept.file) == s.kept
  {
    var s := Waiting(c, key, bytes);
    var rec := Record.Pending(key, c.hash(bytes), |bytes|, 0);
    AppliedWf(EMPTY, rec);
    ReplayLine(c.codec, c.codec.enc(rec), START);
  }

  /** An upload whose record fails is counted in memory, and not in the file. */
  lemma FailsToRecord(c: Config, s: Sys, key: Rel) returns (t: Sys)
    requires Wf(s.kept.mem) && s.drain.Sent? && s.drain.order == [] && s.drain.up.key == key
    requires StillPending(s.kept.mem, s.drain.up) && s.kept.mem.entries.Keys == {key}
    requires s.kept.appended == 0 && !s.kept.needsCompaction
    ensures Wf(t.kept.mem) && Step(c, s, Account(Went(Fails(0))), t)
    ensures t.kept.file == s.kept.file && t.uploaded == s.uploaded && t.unbilled == s.unbilled
    ensures t.remote == s.remote && t.local == s.local && t.drain.Resting? && t.today == s.today
    ensures t.counted == s.counted[s.today := SaturatingAdd(s.kept.mem.dayBytes, s.drain.bytes)]
  {
    var recs := Accounted(s);
    t := Wrote(c, s, recs, Went(Fails(0)), Draining(s.drain.now, []), Resting, Lost(s));
    TwoApplied(s.kept.mem, recs[0], recs[1]);
    assert AppliedAll(s.kept.mem, recs).entries.Keys == {key};
    assert !Compacts(s.kept, recs);
    assert s.kept.file + Encode(c.codec, recs)[..0] == s.kept.file;
  }

  lemma RecordsThenCrashes(c: Config, s0: Sys, s: Sys, key: Rel) returns (t: Sys)
    requires Reaches(c, s0, s) && Wf(s.kept.mem) && s.drain.Sent? && s.drain.order == [] && s.drain.up.key == key
    requires StillPending(s.kept.mem, s.drain.up) && s.kept.mem.entries.Keys == {key}
    requires s.kept.appended == 0 && !s.kept.needsCompaction && Reloaded(c.codec, s.kept.file).mem.dayBytes == 0
    requires Reloaded(c.codec, s.kept.file).mem.day == s.today
    ensures Reaches(c, s0, t) && t.kept == Reloaded(c.codec, s.kept.file) && On(t.counted, s.today) == 0
    ensures t.uploaded == s.uploaded && t.unbilled == s.unbilled && t.drain.Resting? && t.today == s.today
  {
    var failed := FailsToRecord(c, s, key);
    ReachesOn(c, s0, s, Account(Went(Fails(0))), failed);
    t := Restarted(c, failed, failed.kept.file, Lost(failed));
    ReachesOn(c, s0, failed, Action.Crash, t);
  }

  /**
   The same, and a crash: no upload raced and none crashed before its record, yet
   what was uploaded is counted no more; and the day's next drain passes the cap.
   */
  lemma SuspectFileForgets(c: Config, key: Rel, bytes: Bytes, locator: Locator) returns (t: Sys, u: Sys)
    requires Faithful(c.codec) && c.cap == Some(|bytes|) && 0 < |bytes| < U64_MAX
    ensures var s := Waiting(c, key, bytes);
            && Billed(s) && Dated(s) && InStep(c.codec, s.kept) && Reaches(c, s, t) && Reaches(c, s, u)
    ensures t.unbilled == map[] && t.kept.mem.dayBytes == 0 && On(t.uploaded, t.kept.mem.day) == |bytes| && !Billed(t)
    ensures u.unbilled == map[] && On(u.uploaded, 0) == 2 * |bytes|
  {
    var s := Waiting(c, key, bytes);
    WaitingIs(c, key, bytes);
    ReachesItself(c, s);
    Uplinks(c, s, s, key, bytes, locator);
    t := RecordsThenCrashes(c, s, SentBy(c, s, key, bytes, locator), key);
    assert On(t.uploaded, 0) == |bytes| && On(t.counted, 0) == 0;
    Uplinks(c, s, t, key, bytes, locator);
    u := SentBy(c, t, key, bytes, locator);
  }

  // ── a read overtaken ───────────────────────────────────────────────────────

  lemma PutFails(c: Config, s0: Sys, key: Rel, was: Bytes, now: Bytes, locator: Locator) returns (t: Sys)
    requires Faithful(c.codec) && c.cap.None? && c.hash(was) != c.hash(now)
    requires Reaches(c, s0, Before(c, key, was, now, locator))
    ensures Reaches(c, s0, t) && Wf(t.kept.mem) && OneWaits(c, t, key, now) && t.remote == map[key := was]
  {
    var s := Before(c, key, was, now, locator);
    FailedPut(c, key, was, now, locator);
    PutMemIs(c, key, was, now, locator);
    t := Rekept(c, s, Kept(PutMem(c, key, was, now, locator), 0, true, s.kept.file));
    ReachesOn(c, s0, s, LedgerPut(key, c.hash(now), |now|, 0, Went(Fails(0))), t);
  }

  /** Before, with no local file. */
  function Unwritten(c: Config, key: Rel, was: Bytes, now: Bytes, locator: Locator): Sys {
    Before(c, key, was, now, locator).(local := map[])
  }

  lemma UnwrittenIs(c: Config, key: Rel, was: Bytes, now: Bytes, locator: Locator)
    requires Faithful(c.codec)
    ensures var s := Unwritten(c, key, was, now, locator);
            && Inv(c, s) && CalledUploaded(c, s.kept.mem, key, was) && RemoteKeyFor(s.kept.mem, key) == Some(key)
            && Reaches(c, s, Before(c, key, was, now, locator))
  {
    var s := Unwritten(c, key, was, now, locator);
    BeforeIsTrue(c, key, was, now, locator);
    ReachesItself(c, s);
    ReachesOn(c, s, s, LocalWrite(key, now), Before(c, key, was, now, locator));
  }

  /**
   A read that finds no local file and picks the key of an upload, and asks for it
   only once the key was put again and uploaded: it gets the new bytes.
   */
  lemma ReadIsOvertaken(c: Config, key: Rel, was: Bytes, now: Bytes, locator: Locator) returns (t: Sys)
    requires Faithful(c.codec) && c.cap.None? && c.hash(was) != c.hash(now)
    ensures var s := Unwritten(c, key, was, now, locator);
            && Inv(c, s) && CalledUploaded(c, s.kept.mem, key, was) && RemoteKeyFor(s.kept.mem, key) == Some(key)
            && Reaches(c, s, t) && t.remote == map[key := now]
  {
    var s := Unwritten(c, key, was, now, locator);
    UnwrittenIs(c, key, was, now, locator);
    var waiting := PutFails(c, s, key, was, now, locator);
    Uplinks(c, s, waiting, key, now, locator);
    t := SentBy(c, waiting, key, now, locator);
  }
}
