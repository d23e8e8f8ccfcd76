/**
 The tiered store at work (crates/dagron-artifact/src/tiered.rs): puts, task
 writes and reads around a drain that lets go of the ledger while it hashes and
 uploads, with failing writes and with crashes that leave its file cut anywhere.
 What the ledger says is uploaded is what the remote tier holds, exactly unless a
 crash brings back a file that misleads.
 */
module Uplink {
  import opened Common
  import opened Ledger
  import opened LedgerFile
  import opened LedgerStore
  import opened LedgerTruth

  // ── the budget ─────────────────────────────────────────────────────────────

  const U64_MAX: nat := 0xFFFF_FFFF_FFFF_FFFF
  const SECS_PER_DAY: nat := 86400

  function SaturatingAdd(a: nat, b: nat): nat {
    Min(a + b, U64_MAX)
  }

  predicate Fits(cap: Cap, used: nat, bytes: nat) {
    cap.None? || SaturatingAdd(used, bytes) <= cap.value
  }

  predicate Oversize(cap: Cap, bytes: nat) {
    cap.Some? && bytes > cap.value
  }

  // ── what becomes of one entry of the order ─────────────────────────────────

  datatype Choice = Skip | AliasTo(of: Rel) | TooBig | Stop | Upload

  function Choose(m: Mem, cap: Cap, want: Entry): Choice {
    if want.key !in m.entries || !m.entries[want.key].state.Pending? || m.entries[want.key].sha != want.sha then Skip
    else
      var cur := m.entries[want.key];
      var canon := CanonicalFor(m, cur.sha, want.key);
      if canon.Some? then AliasTo(canon.value.key)
      else if Oversize(cap, cur.bytes) then TooBig
      else if !Fits(cap, m.dayBytes, cur.bytes) then Stop
      else Upload
  }

  // ── the store and all that happens to it ───────────────────────────────────

  datatype Drain =
    | Resting
    | Preparing(now: nat, recs: seq<Record>)
    | Ordering(now: nat)
    | Draining(now: nat, order: seq<Entry>)
    | Uploading(now: nat, order: seq<Entry>, up: Entry)
    | Missing(now: nat, order: seq<Entry>, up: Entry)
    | Sent(now: nat, order: seq<Entry>, up: Entry, sha: Sha, bytes: nat, remote: Locator)

  /**
   The ledger with its file, the tiers and the drain, and what came of it so
   far: `since` is what the remote tier took since the file last followed
   memory; `counted`, `uploaded` and `unbilled` are, by day, what memory last
   counted, and the bytes of the uploads made and of those the ledger missed.
   */
  datatype Sys = Sys(
    kept: Kept, local: map<Rel, Bytes>, remote: map<Rel, Bytes>, since: map<Rel, Bytes>, drain: Drain,
    today: nat, counted: map<nat, nat>, uploaded: map<nat, nat>, unbilled: map<nat, nat>)

  /** How a ledger write goes: whole, failing, or with a crash in it that leaves its first `k` bytes or its rewrite. */
  datatype Outcome = Went(fault: Fault) | Crashed(k: nat, renamed: bool)

  datatype Action =
    | LocalWrite(rel: Rel, bytes: Bytes)
    | LocalRemove(rel: Rel)
    | LedgerPut(key: Rel, sha: Sha, size: nat, at: nat, out: Outcome)
    | Begin(now: nat)
    | Scan(rel: Rel)
    | Requeue(rel: Rel)
    | Settle(out: Outcome)
    | Order
    | Next(out: Outcome)
    | Miss
    | Vanished(out: Outcome)
    | GiveUp(landed: Option<Bytes>)
    | Send(sent: Bytes, locator: Locator)
    | Account(out: Outcome)
    | Finish
    | Crash

  function On(m: map<nat, nat>, day: nat): nat {
    if day in m then m[day] else 0
  }

  function Plus(m: map<nat, nat>, day: nat, n: nat): map<nat, nat> {
    m[day := On(m, day) + n]
  }

  /** What an upload already made, and not yet in the ledger, adds to what was not billed. */
  function Lost(s: Sys): map<nat, nat> {
    if s.drain.Sent? then Plus(s.unbilled, s.today, s.drain.bytes) else s.unbilled
  }

  ghost function Rekept(c: Config, s: Sys, kept: Kept): Sys {
    s.(kept := kept, since := if InStep(c.codec, kept) then map[] else s.since,
       counted := s.counted[kept.mem.day := kept.mem.dayBytes])
  }

  /** The remote tier takes `bytes`. */
  ghost function Landed(c: Config, s: Sys, rel: Rel, bytes: Bytes): Sys {
    s.(remote := s.remote[rel := bytes], since := if InStep(c.codec, s.kept) then map[] else s.since[rel := bytes])
  }

  /** After a crash: the ledger as a reload of its file makes it. `missed` is then what was uploaded and never billed. */
  ghost function Restarted(c: Config, s: Sys, file: Bytes, missed: map<nat, nat>): Sys {
    Rekept(c, s, Reloaded(c.codec, file)).(drain := Resting, unbilled := missed)
  }

  /** A ledger write: memory first. `next` is where the drain goes on, `failed` where a failed write leaves it. */
  ghost function Wrote(c: Config, s: Sys, recs: seq<Record>, out: Outcome, next: Drain, failed: Drain,
                       missed: map<nat, nat>): Sys
    requires Wf(s.kept.mem)
  {
    if recs == [] then s.(drain := next)
    else
      match out
      case Went(fault) =>
        Rekept(c, s, Persisted(c.codec, s.kept, recs, fault)).(drain := if fault.Fine? then next else failed)
      case Crashed(k, renamed) => Restarted(c, s, Left(c.codec, s.kept, recs, k, renamed), missed)
  }

  function PutRecords(m: Mem, key: Rel, sha: Sha, size: nat, at: nat): seq<Record> {
    if IsSettled(m, key, sha) then [] else [Record.Pending(key, sha, size, at)]
  }

  /** A put that raced the upload changed the bytes: the entry is left pending. */
  predicate StillPending(m: Mem, up: Entry) {
    up.key in m.entries && m.entries[up.key].state.Pending? && m.entries[up.key].sha == up.sha
  }

  /** What a drain writes once it has looked at the local tier. */
  function Prepared(s: Sys): seq<Record>
    requires s.drain.Preparing?
  {
    s.drain.recs + if s.kept.mem.day != s.today then [Day(s.today, 0)] else []
  }

  /** What is recorded of an upload: that it was made, and what it cost. */
  function Accounted(s: Sys): seq<Record>
    requires s.drain.Sent?
  {
    var d := s.drain;
    [Record.Done(d.up.key, d.sha, d.bytes, d.now, d.remote),
     Day(s.today, SaturatingAdd(s.kept.mem.dayBytes, d.bytes))]
  }

  function AliasRecord(m: Mem, want: Entry, now: nat, of: Rel): Record
    requires want.key in m.entries
  {
    var cur := m.entries[want.key];
    UploadedBySha(cur.key, cur.sha, cur.bytes, now, of)
  }

  /** What the next entry of the order has written, and where it leaves the drain. */
  function NextRecords(c: Config, s: Sys): seq<Record>
    requires s.drain.Draining? && s.drain.order != []
  {
    var want := s.drain.order[0];
    match Choose(s.kept.mem, c.cap, want)
    case AliasTo(of) => [AliasRecord(s.kept.mem, want, s.drain.now, of)]
    case _ => []
  }

  function NextDrain(c: Config, s: Sys): Drain
    requires s.drain.Draining? && s.drain.order != []
  {
    var (now, want, rest) := (s.drain.now, s.drain.order[0], s.drain.order[1..]);
    match Choose(s.kept.mem, c.cap, want)
    case Upload => Uploading(now, rest, s.kept.mem.entries[want.key])
    case Stop => Resting
    case _ => Draining(now, rest)
  }

  /** What an action that writes to the ledger writes. */
  function Writes(c: Config, s: Sys, a: Action): seq<Record> {
    match a
    case LedgerPut(key, sha, size, at, _) => PutRecords(s.kept.mem, key, sha, size, at)
    case Settle(_) => if s.drain.Preparing? then Prepared(s) else []
    case Next(_) => if s.drain.Draining? && s.drain.order != [] then NextRecords(c, s) else []
    case Vanished(_) => if s.drain.Missing? then [Record.Forget(s.drain.up.key)] else []
    case Account(_) => if s.drain.Sent? && StillPending(s.kept.mem, s.drain.up) then Accounted(s) else []
    case _ => []
  }

  predicate Writing(a: Action) {
    a.LedgerPut? || a.Settle? || a.Next? || a.Vanished? || a.Account?
  }

  /** The file a crash leaves, where an action is one or has one in its write. */
  function CrashFile(c: Config, s: Sys, a: Action): Option<Bytes>
    requires Wf(s.kept.mem)
  {
    if a.Crash? then Some(s.kept.file)
    else if Writing(a) && a.out.Crashed? && Writes(c, s, a) != []
    then Some(Left(c.codec, s.kept, Writes(c, s, a), a.out.k, a.out.renamed))
    else None
  }

  /** The upload under way is in its day's count. */
  predicate CountsUpload(s: Sys, m: Mem)
    requires s.drain.Sent?
  {
    m.day == s.today && m.dayBytes == SaturatingAdd(s.kept.mem.dayBytes, s.drain.bytes)
  }

  /** The file a crash in the record of an upload leaves has it counted. */
  predicate Survived(c: Config, s: Sys, out: Outcome)
    requires Wf(s.kept.mem) && s.drain.Sent?
  {
    out.Crashed? && CountsUpload(s, ReplayedMem(c, Left(c.codec, s.kept, Accounted(s), out.k, out.renamed)))
  }

  /** Missed, if a crash came before the count was written. */
  function MissedBy(c: Config, s: Sys, out: Outcome): map<nat, nat>
    requires Wf(s.kept.mem) && s.drain.Sent?
  {
    if Survived(c, s, out) then s.unbilled else Lost(s)
  }

  ghost predicate PutStep(c: Config, s: Sys, recs: seq<Record>, out: Outcome, t: Sys)
    requires Wf(s.kept.mem)
  {
    t == Wrote(c, s, recs, out, s.drain, s.drain, Lost(s))
  }

  ghost predicate SettleStep(c: Config, s: Sys, out: Outcome, t: Sys)
    requires Wf(s.kept.mem)
  {
    && s.drain.Preparing?
    && t == Wrote(c, s, Prepared(s), out, Ordering(s.drain.now), Resting, Lost(s))
  }

  ghost predicate NextStep(c: Config, s: Sys, out: Outcome, t: Sys)
    requires Wf(s.kept.mem)
  {
    && s.drain.Draining? && s.drain.order != []
    && t == Wrote(c, s, NextRecords(c, s), out, NextDrain(c, s), Resting, Lost(s))
  }

  ghost predicate VanishedStep(c: Config, s: Sys, out: Outcome, t: Sys)
    requires Wf(s.kept.mem)
  {
    && s.drain.Missing?
    && t == Wrote(c, s, [Record.Forget(s.drain.up.key)], out, Draining(s.drain.now, s.drain.order), Resting, Lost(s))
  }

  ghost predicate SendStep(c: Config, s: Sys, sent: Bytes, locator: Locator, t: Sys) {
    && s.drain.Uploading?
    && t == Landed(c, s, s.drain.up.key, sent).(
              drain := Sent(s.drain.now, s.drain.order, s.drain.up, c.hash(sent), |sent|, locator),
              uploaded := Plus(s.uploaded, s.today, |sent|))
  }

  ghost predicate GiveUpStep(c: Config, s: Sys, landed: Option<Bytes>, t: Sys) {
    && s.drain.Uploading?
    && t == (if landed.Some? then Landed(c, s, s.drain.up.key, landed.value) else s).(drain := Resting)
  }

  ghost predicate AccountStep(c: Config, s: Sys, out: Outcome, t: Sys)
    requires Wf(s.kept.mem)
  {
    && s.drain.Sent?
    && var next := Draining(s.drain.now, s.drain.order);
    if StillPending(s.kept.mem, s.drain.up)
    then t == Wrote(c, s, Accounted(s), out, next, Resting, MissedBy(c, s, out))
    else t == s.(drain := next, unbilled := Lost(s))
  }

  ghost predicate Step(c: Config, s: Sys, a: Action, t: Sys)
    requires Wf(s.kept.mem)
  {
    match a
    case LocalWrite(rel, bytes) => t == s.(local := s.local[rel := bytes])
    case LocalRemove(rel) => t == s.(local := s.local - {rel})
    case LedgerPut(key, sha, size, at, out) => PutStep(c, s, PutRecords(s.kept.mem, key, sha, size, at), out, t)
    case Begin(now) =>
      && s.drain.Resting?
      && t == s.(drain := Preparing(now, []), today := now / SECS_PER_DAY)
    case Scan(rel) =>
      && s.drain.Preparing? && rel in s.local
      && t == s.(drain := s.drain.(recs := s.drain.recs
              + [Record.Pending(rel, c.hash(s.local[rel]), |s.local[rel]|, s.drain.now)]))
    case Requeue(rel) =>
      && s.drain.Preparing? && rel in StaleRels(s.kept.mem)
      && var e := s.kept.mem.entries[rel];
      && t == s.(drain := s.drain.(recs := s.drain.recs
              + [if rel in s.local then Record.Pending(e.key, e.sha, e.bytes, s.drain.now) else Record.Forget(e.key)]))
    case Settle(out) => SettleStep(c, s, out, t)
    case Order => s.drain.Ordering? && t == s.(drain := Draining(s.drain.now, PendingInOrder(s.kept.mem)))
    case Next(out) => NextStep(c, s, out, t)
    case Miss =>
      && s.drain.Uploading? && s.drain.up.key !in s.local
      && t == s.(drain := Missing(s.drain.now, s.drain.order, s.drain.up))
    case Vanished(out) => VanishedStep(c, s, out, t)
    case GiveUp(landed) => GiveUpStep(c, s, landed, t)
    case Send(sent, locator) => SendStep(c, s, sent, locator, t)
    case Account(out) => AccountStep(c, s, out, t)
    case Finish => s.drain.Draining? && s.drain.order == [] && t == s.(drain := Resting)
    case Crash => t == Restarted(c, s, s.kept.file, Lost(s))
  }

  // ── the ledger is true ─────────────────────────────────────────────────────

  predicate NotDone(m: Mem, rel: Rel) {
    rel in m.entries ==> !m.entries[rel].state.Done?
  }

  /** Records that call nothing uploaded. */
  predicate Modest(recs: seq<Record>) {
    forall r <- recs :: !r.Done?
  }

  ghost predicate InFlight(c: Config, s: Sys) {
    match s.drain
    case Preparing(_, recs) => forall r <- recs :: r.Pending? || r.Forget?
    case Uploading(_, _, up) => NotDone(s.kept.mem, up.key)
    case Sent(_, _, up, sha, _, _) =>
      NotDone(s.kept.mem, up.key) && up.key in s.remote && c.hash(s.remote[up.key]) == sha
    case _ => true
  }

  /** Memory is true, and so is the file, but perhaps at what the remote tier took since it last followed memory. */
  ghost predicate LedgerTrue(c: Config, s: Sys) {
    && Faithful(c.codec) && Wf(s.kept.mem)
    && Truthful(c, s.kept.mem, s.remote)
    && FileTrue(c, s.kept, s.remote, s.since.Keys)
    && (forall rel <- s.since :: rel in s.remote && s.remote[rel] == s.since[rel])
    && (InStep(c.codec, s.kept) ==> s.since == map[])
  }

  ghost predicate Inv(c: Config, s: Sys) {
    LedgerTrue(c, s) && InFlight(c, s)
  }

  /** The file calls a key uploaded that the remote tier took other bytes for since the file last followed memory. */
  ghost predicate Misled(c: Config, since: map<Rel, Bytes>, file: Bytes) {
    var m := ReplayedMem(c, file);
    exists rel <- since :: rel in m.entries && m.entries[rel].state.Done? && m.entries[rel].sha != c.hash(since[rel])
  }

  /** A crash that leaves such a file. */
  ghost predicate Misleads(c: Config, s: Sys, a: Action)
    requires Wf(s.kept.mem)
  {
    CrashFile(c, s, a).Some? && Misled(c, s.since, CrashFile(c, s, a).value)
  }

  lemma InStepTrue(c: Config, kept: Kept, remote: map<Rel, Bytes>)
    requires InStep(c.codec, kept) && Truthful(c, kept.mem, remote)
    ensures FileTrue(c, kept, remote, {})
  {
    EquivTrue(c, kept.mem, ReplayedMem(c, kept.file), remote, {});
  }

  lemma RekeptTrue(c: Config, s: Sys, kept: Kept)
    requires LedgerTrue(c, s) && Wf(kept.mem) && Truthful(c, kept.mem, s.remote)
    requires FileTrue(c, kept, s.remote, s.since.Keys)
    ensures LedgerTrue(c, Rekept(c, s, kept))
  {
    if InStep(c.codec, kept) {
      InStepTrue(c, kept, s.remote);
    }
  }

  /** A reload is true exactly unless the file misleads. */
  lemma RestartedTrueIff(c: Config, s: Sys, file: Bytes, missed: map<nat, nat>)
    requires LedgerTrue(c, s) && LeftTrue(c, file, s.remote, s.since.Keys)
    ensures Inv(c, Restarted(c, s, file, missed)) <==> !Misled(c, s.since, file)
  {
    var kept := Reloaded(c.codec, file);
    if !Misled(c, s.since, file) {
      RekeptTrue(c, s, kept);
    }
  }

  /** A write of what is true keeps the ledger so; a crash in it does exactly unless its file misleads. */
  lemma WroteTrueIff(c: Config, s: Sys, recs: seq<Record>, out: Outcome, next: Drain, failed: Drain,
                     missed: map<nat, nat>)
    requires LedgerTrue(c, s) && Honest(c, recs, s.remote)
    ensures var t := Wrote(c, s, recs, out, next, failed, missed);
            if recs != [] && out.Crashed?
            then Inv(c, t) <==> !Misled(c, s.since, Left(c.codec, s.kept, recs, out.k, out.renamed))
            else LedgerTrue(c, t) && t.remote == s.remote && t.kept.mem == AppliedAll(s.kept.mem, recs)
                 && (t.drain == next || t.drain == failed)
  {
    if recs != [] {
      match out
      case Went(fault) =>
        PersistTrue(c, s.kept, recs, fault, s.remote, s.since.Keys);
        RekeptTrue(c, s, Persisted(c.codec, s.kept, recs, fault));
      case Crashed(k, renamed) =>
        CrashTrue(c, s.kept, recs, k, renamed, s.remote, s.since.Keys);
        RestartedTrueIff(c, s, Left(c.codec, s.kept, recs, k, renamed), missed);
    }
  }

  lemma TwoApplied(m: Mem, a: Record, b: Record)
    ensures AppliedAll(m, [a, b]) == Applied(Applied(m, a), b)
    ensures AppliedAll(m, [a, b][..0]) == m && AppliedAll(m, [a, b][..1]) == Applied(m, a)
  {
    var one := [a, b][..1];
    assert one == [a] && one[..0] == [];
    assert AppliedAll(m, one) == Applied(m, a);
  }

  /** So for any action that writes, if what is under way in the drain is sound after it. */
  lemma WriteTrueIff(c: Config, s: Sys, a: Action, next: Drain, failed: Drain, missed: map<nat, nat>, t: Sys)
    requires LedgerTrue(c, s) && Writing(a) && Honest(c, Writes(c, s, a), s.remote)
    requires t == Wrote(c, s, Writes(c, s, a), a.out, next, failed, missed)
    requires CrashFile(c, s, a).None? ==> InFlight(c, t)
    ensures Inv(c, t) <==> !Misleads(c, s, a)
  {
    WroteTrueIff(c, s, Writes(c, s, a), a.out, next, failed, missed);
  }

  lemma PutInFlight(c: Config, s: Sys, key: Rel, sha: Sha, size: nat, at: nat, t: Sys)
    requires InFlight(c, s) && t.drain == s.drain && t.remote == s.remote
    requires t.kept.mem == AppliedAll(s.kept.mem, PutRecords(s.kept.mem, key, sha, size, at))
    ensures InFlight(c, t)
  {
    var rec := Record.Pending(key, sha, size, at);
    assert [rec][..0] == [];
    assert AppliedAll(s.kept.mem, [rec]) == Applied(s.kept.mem, rec);
  }

  lemma WroteMem(c: Config, s: Sys, recs: seq<Record>, out: Outcome, next: Drain, failed: Drain, missed: map<nat, nat>)
    requires Wf(s.kept.mem) && !(recs != [] && out.Crashed?)
    ensures var t := Wrote(c, s, recs, out, next, failed, missed);
            && t.remote == s.remote && t.kept.mem == AppliedAll(s.kept.mem, recs)
            && (t.drain == next || t.drain == failed)
  {
  }

  lemma PutTrueIff(c: Config, s: Sys, a: Action, t: Sys)
    requires Inv(c, s) && a.LedgerPut? && PutStep(c, s, Writes(c, s, a), a.out, t)
    ensures Inv(c, t) <==> !Misleads(c, s, a)
  {
    if CrashFile(c, s, a).None? {
      WroteMem(c, s, Writes(c, s, a), a.out, s.drain, s.drain, Lost(s));
      PutInFlight(c, s, a.key, a.sha, a.size, a.at, t);
    }
    WriteTrueIff(c, s, a, s.drain, s.drain, Lost(s), t);
  }

  lemma SettleTrueIff(c: Config, s: Sys, a: Action, t: Sys)
    requires Inv(c, s) && a.Settle? && SettleStep(c, s, a.out, t)
    ensures Inv(c, t) <==> !Misleads(c, s, a)
  {
    assert Honest(c, Prepared(s), s.remote);
    WriteTrueIff(c, s, a, Ordering(s.drain.now), Resting, Lost(s), t);
  }

  lemma NextInFlight(c: Config, s: Sys)
    requires Wf(s.kept.mem) && s.drain.Draining? && s.drain.order != []
    ensures InFlight(c, s.(drain := NextDrain(c, s)))
    ensures NextRecords(c, s) != [] ==> NextDrain(c, s).Draining?
    ensures Honest(c, NextRecords(c, s), s.remote)
  {
  }

  lemma NextKeepsInFlight(c: Config, s: Sys, out: Outcome, t: Sys)
    requires Wf(s.kept.mem) && NextStep(c, s, out, t) && !(NextRecords(c, s) != [] && out.Crashed?)
    ensures InFlight(c, t)
  {
    NextInFlight(c, s);
    WroteMem(c, s, NextRecords(c, s), out, NextDrain(c, s), Resting, Lost(s));
  }

  lemma NextTrueIff(c: Config, s: Sys, a: Action, t: Sys)
    requires Inv(c, s) && a.Next? && NextStep(c, s, a.out, t)
    ensures Inv(c, t) <==> !Misleads(c, s, a)
  {
    NextInFlight(c, s);
    if CrashFile(c, s, a).None? {
      NextKeepsInFlight(c, s, a.out, t);
    }
    WriteTrueIff(c, s, a, NextDrain(c, s), Resting, Lost(s), t);
  }

  lemma VanishedTrueIff(c: Config, s: Sys, a: Action, t: Sys)
    requires Inv(c, s) && a.Vanished? && VanishedStep(c, s, a.out, t)
    ensures Inv(c, t) <==> !Misleads(c, s, a)
  {
    WriteTrueIff(c, s, a, Draining(s.drain.now, s.drain.order), Resting, Lost(s), t);
  }

  /** What was sent is what the remote tier holds, so it may be called uploaded. */
  lemma SentIsHonest(c: Config, s: Sys)
    requires InFlight(c, s) && s.drain.Sent?
    ensures Honest(c, Accounted(s), s.remote)
  {
  }

  lemma RacedTrue(c: Config, s: Sys, t: Sys)
    requires Inv(c, s) && t == s.(drain := t.drain, unbilled := t.unbilled) && t.drain.Draining?
    ensures Inv(c, t)
  {
  }

  lemma RecordedTrueIff(c: Config, s: Sys, a: Action, missed: map<nat, nat>, t: Sys)
    requires Inv(c, s) && a.Account? && s.drain.Sent? && StillPending(s.kept.mem, s.drain.up)
    requires t == Wrote(c, s, Accounted(s), a.out, Draining(s.drain.now, s.drain.order), Resting, missed)
    ensures Inv(c, t) <==> !Misleads(c, s, a)
  {
    SentIsHonest(c, s);
    WriteTrueIff(c, s, a, Draining(s.drain.now, s.drain.order), Resting, missed, t);
  }

  lemma AccountTrueIff(c: Config, s: Sys, a: Action, t: Sys)
    requires Inv(c, s) && a.Account? && AccountStep(c, s, a.out, t)
    ensures Inv(c, t) <==> !Misleads(c, s, a)
  {
    if StillPending(s.kept.mem, s.drain.up) {
      RecordedTrueIff(c, s, a, MissedBy(c, s, a.out), t);
    } else {
      RacedTrue(c, s, t);
    }
  }

  /** What the remote tier takes is of a key memory does not call uploaded. */
  lemma LandedTrue(c: Config, s: Sys, rel: Rel, bytes: Bytes)
    requires LedgerTrue(c, s) && NotDone(s.kept.mem, rel)
    ensures LedgerTrue(c, Landed(c, s, rel, bytes))
  {
    var t := Landed(c, s, rel, bytes);
    assert Truthful(c, t.kept.mem, t.remote);
    if InStep(c.codec, s.kept) {
      InStepTrue(c, s.kept, t.remote);
    } else {
      assert t.since.Keys == s.since.Keys + {rel};
      LandedElsewhere(c, s.kept, s.remote, s.since.Keys, rel, bytes);
    }
  }

  lemma LandedElsewhere(c: Config, kept: Kept, remote: map<Rel, Bytes>, but: set<Rel>, rel: Rel, bytes: Bytes)
    requires FileTrue(c, kept, remote, but)
    ensures FileTrue(c, kept, remote[rel := bytes], but + {rel})
  {
    if !Clean(kept.file) && EndsTrue(c, kept.file, remote, but) {
      var base, r :| Unended(c.codec, kept.file, base, r) && TrueBut(c, ReplayedMem(c, base), remote, but);
      assert TrueBut(c, ReplayedMem(c, base), remote[rel := bytes], but + {rel});
    }
  }

  lemma WritingTrueIff(c: Config, s: Sys, a: Action, t: Sys)
    requires Inv(c, s) && Writing(a) && Step(c, s, a, t)
    ensures Inv(c, t) <==> !Misleads(c, s, a)
  {
    if a.LedgerPut? {
      PutTrueIff(c, s, a, t);
    } else if a.Settle? {
      SettleTrueIff(c, s, a, t);
    } else if a.Next? {
      NextTrueIff(c, s, a, t);
    } else if a.Vanished? {
      VanishedTrueIff(c, s, a, t);
    } else {
      AccountTrueIff(c, s, a, t);
    }
  }

  lemma LandingTrue(c: Config, s: Sys, a: Action, t: Sys)
    requires Inv(c, s) && (a.Send? || a.GiveUp?) && Step(c, s, a, t)
    ensures Inv(c, t)
  {
    if a.Send? {
      LandedTrue(c, s, s.drain.up.key, a.sent);
    } else if a.landed.Some? {
      LandedTrue(c, s, s.drain.up.key, a.landed.value);
    }
  }

  /** Actions that write nothing, and of which the remote tier takes nothing. */
  predicate Local(a: Action) {
    !Writing(a) && !a.Send? && !a.GiveUp? && !a.Crash?
  }

  lemma LocalTrue(c: Config, s: Sys, a: Action, t: Sys)
    requires Inv(c, s) && Local(a) && Step(c, s, a, t)
    ensures Inv(c, t)
  {
  }

  /** What a misled reload calls uploaded is not. */
  lemma MisledIsUntrue(c: Config, s: Sys, file: Bytes)
    requires LedgerTrue(c, s) && Misled(c, s.since, file)
    ensures !Truthful(c, ReplayedMem(c, file), s.remote)
  {
    var m := ReplayedMem(c, file);
    var rel :| rel in s.since && rel in m.entries && m.entries[rel].state.Done? && m.entries[rel].sha != c.hash(s.since[rel]);
    assert s.remote[rel] == s.since[rel];
  }

  lemma CrashReloads(c: Config, s: Sys, a: Action, t: Sys)
    requires Wf(s.kept.mem) && Step(c, s, a, t) && CrashFile(c, s, a).Some?
    ensures t.kept.mem == ReplayedMem(c, CrashFile(c, s, a).value) && t.remote == s.remote
  {
  }

  /**
   Whatever happens, what the ledger calls uploaded is what the remote tier
   holds; after a crash it is exactly unless its file misleads.
   */
  lemma StepTrueIff(c: Config, s: Sys, a: Action, t: Sys)
    requires Inv(c, s) && Step(c, s, a, t)
    ensures Truthful(c, t.kept.mem, t.remote) <==> !Misleads(c, s, a)
    ensures Inv(c, t) <==> !Misleads(c, s, a)
  {
    StepInvIff(c, s, a, t);
    if Misleads(c, s, a) {
      CrashReloads(c, s, a, t);
      MisledIsUntrue(c, s, CrashFile(c, s, a).value);
    }
  }

  lemma StepInvIff(c: Config, s: Sys, a: Action, t: Sys)
    requires Inv(c, s) && Step(c, s, a, t)
    ensures Inv(c, t) <==> !Misleads(c, s, a)
  {
    if Writing(a) {
      WritingTrueIff(c, s, a, t);
    } else if a.Crash? {
      RestartedTrueIff(c, s, s.kept.file, Lost(s));
    } else if Local(a) {
      LocalTrue(c, s, a, t);
    } else {
      LandingTrue(c, s, a, t);
    }
  }

  // ── runs ───────────────────────────────────────────────────────────────────

  /** A run: each state after its action follows the one before. */
  ghost predicate Run(c: Config, s: Sys, actions: seq<Action>, states: seq<Sys>)
    decreases |actions|
  {
    && |states| == |actions|
    && (actions == [] ||
        (var n := |actions| - 1;
         var before := Last(s, states[..n]);
         && Run(c, s, actions[..n], states[..n])
         && Wf(before.kept.mem) && Step(c, before, actions[n], states[n])))
  }

  function Last(s: Sys, states: seq<Sys>): Sys {
    if states == [] then s else states[|states| - 1]
  }

  /** Some run leads from one to the other. */
  ghost predicate Reaches(c: Config, s: Sys, t: Sys) {
    exists actions, states :: Run(c, s, actions, states) && Last(s, states) == t
  }

  lemma ReachesItself(c: Config, s: Sys)
    ensures Reaches(c, s, s)
  {
    assert Run(c, s, [], []) && Last(s, []) == s;
  }

  lemma ReachesOn(c: Config, s: Sys, t: Sys, a: Action, u: Sys)
    requires Reaches(c, s, t) && Wf(t.kept.mem) && Step(c, t, a, u)
    ensures Reaches(c, s, u)
  {
    var actions, states :| Run(c, s, actions, states) && Last(s, states) == t;
    assert (actions + [a])[..|actions|] == actions && (states + [u])[..|actions|] == states;
    assert Run(c, s, actions + [a], states + [u]) && Last(s, states + [u]) == u;
  }

  /** Nothing ledgered, nothing moved. */
  predicate Fresh(s: Sys) {
    && s.kept == Kept(EMPTY, 0, false, []) && s.drain.Resting?
    && s.since == map[] && s.today == 0 && s.counted == map[] && s.uploaded == map[] && s.unbilled == map[]
  }

  lemma FreshIsTrue(c: Config, s: Sys)
    requires Faithful(c.codec) && Fresh(s)
    ensures Inv(c, s) && Synced(c.codec, s.kept)
  {
  }

  /** At the `i`th action, a crash that misleads. */
  ghost predicate MisledAt(c: Config, s: Sys, actions: seq<Action>, states: seq<Sys>, i: nat)
    requires i < |actions| == |states|
  {
    var before := Last(s, states[..i]);
    Wf(before.kept.mem) && Misleads(c, before, actions[i])
  }

  /** What the ledger calls uploaded is what the remote tier holds, all along. */
  ghost predicate AllTrue(c: Config, states: seq<Sys>) {
    forall t <- states :: Truthful(c, t.kept.mem, t.remote)
  }

  ghost predicate NeverMisled(c: Config, s: Sys, actions: seq<Action>, states: seq<Sys>)
    requires |actions| == |states|
  {
    forall i :: 0 <= i < |actions| ==> !MisledAt(c, s, actions, states, i)
  }

  lemma NeverMisledTo(c: Config, s: Sys, actions: seq<Action>, states: seq<Sys>)
    requires |actions| == |states| && actions != []
    ensures var n := |actions| - 1;
            NeverMisled(c, s, actions, states)
            <==> NeverMisled(c, s, actions[..n], states[..n]) && !MisledAt(c, s, actions, states, n)
  {
    var n := |actions| - 1;
    forall i | 0 <= i < n
      ensures MisledAt(c, s, actions, states, i) <==> MisledAt(c, s, actions[..n], states[..n], i)
    {
      assert states[..n][..i] == states[..i];
    }
  }

  /**
   Over any run, with any failing writes and crashes: what the ledger calls
   uploaded is what the remote tier holds all along, exactly unless a crash of it
   misleads.
   */
  lemma {:induction false} RunTrueIff(c: Config, s: Sys, actions: seq<Action>, states: seq<Sys>)
    requires Inv(c, s) && Run(c, s, actions, states)
    ensures AllTrue(c, states) <==> NeverMisled(c, s, actions, states)
    ensures NeverMisled(c, s, actions, states) ==> Inv(c, Last(s, states))
    decreases |actions|
  {
    if actions != [] {
      var n := |actions| - 1;
      var t := states[n];
      assert states == states[..n] + [t];
      RunTrueIff(c, s, actions[..n], states[..n]);
      NeverMisledTo(c, s, actions, states);
      if AllTrue(c, states[..n]) {
        StepTrueIff(c, Last(s, states[..n]), actions[n], t);
      } else {
        assert forall u <- states[..n] :: u in states;
      }
    }
  }

  // ── crashes that do not mislead ────────────────────────────────────────────

  /** A crash only while the file follows memory. */
  ghost predicate Abreast(c: Config, s: Sys, a: Action)
    requires Wf(s.kept.mem)
  {
    CrashFile(c, s, a).Some? ==> InStep(c.codec, s.kept)
  }

  /** A crash only of a ledger not known suspect, and that leaves no record short of its newline. */
  ghost predicate Steady(c: Config, s: Sys, a: Action)
    requires Wf(s.kept.mem)
  {
    CrashFile(c, s, a).Some? ==> !s.kept.needsCompaction && !CutShort(c.codec, CrashFile(c, s, a).value)
  }

  lemma AbreastIsUnmisled(c: Config, s: Sys, a: Action)
    requires LedgerTrue(c, s) && Abreast(c, s, a)
    ensures !Misleads(c, s, a)
  {
  }

  lemma WroteSynced(c: Config, s: Sys, recs: seq<Record>, out: Outcome, next: Drain, failed: Drain, missed: map<nat, nat>)
    requires Faithful(c.codec) && Synced(c.codec, s.kept)
    requires recs != [] && out.Crashed? ==> !CutShort(c.codec, Left(c.codec, s.kept, recs, out.k, out.renamed))
    ensures Synced(c.codec, Wrote(c, s, recs, out, next, failed, missed).kept)
  {
    if recs != [] {
      match out
      case Went(fault) => PersistKeeps(c.codec, s.kept, recs, fault);
      case Crashed(k, renamed) => ReloadSyncedIff(c.codec, Left(c.codec, s.kept, recs, k, renamed));
    }
  }

  lemma WritingSynced(c: Config, s: Sys, a: Action, t: Sys)
    requires Faithful(c.codec) && Synced(c.codec, s.kept) && Writing(a) && Step(c, s, a, t) && Steady(c, s, a)
    ensures Synced(c.codec, t.kept)
  {
    var recs := Writes(c, s, a);
    match a
    case LedgerPut(_, _, _, _, out) => WroteSynced(c, s, recs, out, s.drain, s.drain, Lost(s));
    case Settle(out) => WroteSynced(c, s, recs, out, Ordering(s.drain.now), Resting, Lost(s));
    case Next(out) => WroteSynced(c, s, recs, out, NextDrain(c, s), Resting, Lost(s));
    case Vanished(out) => WroteSynced(c, s, recs, out, Draining(s.drain.now, s.drain.order), Resting, Lost(s));
    case Account(out) =>
      if StillPending(s.kept.mem, s.drain.up) {
        WroteSynced(c, s, recs, out, Draining(s.drain.now, s.drain.order), Resting, MissedBy(c, s, out));
      }
  }

  lemma StepSynced(c: Config, s: Sys, a: Action, t: Sys)
    requires Faithful(c.codec) && Synced(c.codec, s.kept) && Step(c, s, a, t) && Steady(c, s, a)
    ensures Synced(c.codec, t.kept) && Abreast(c, s, a)
  {
    if Writing(a) {
      WritingSynced(c, s, a, t);
    } else if a.Crash? {
      ReloadSyncedIff(c.codec, s.kept.file);
    }
  }

  /** At the `i`th action. */
  ghost predicate AbreastAt(c: Config, s: Sys, actions: seq<Action>, states: seq<Sys>, i: nat)
    requires i < |actions| == |states|
  {
    var before := Last(s, states[..i]);
    Wf(before.kept.mem) && Abreast(c, before, actions[i])
  }

  ghost predicate SteadyAt(c: Config, s: Sys, actions: seq<Action>, states: seq<Sys>, i: nat)
    requires i < |actions| == |states|
  {
    var before := Last(s, states[..i]);
    Wf(before.kept.mem) && Steady(c, before, actions[i])
  }

  /** At every action of a run. */
  ghost predicate RunAbreast(c: Config, s: Sys, actions: seq<Action>, states: seq<Sys>)
    requires |actions| == |states|
  {
    forall i :: 0 <= i < |actions| ==> AbreastAt(c, s, actions, states, i)
  }

  ghost predicate RunSteady(c: Config, s: Sys, actions: seq<Action>, states: seq<Sys>)
    requires |actions| == |states|
  {
    forall i :: 0 <= i < |actions| ==> SteadyAt(c, s, actions, states, i)
  }

  lemma AbreastTo(c: Config, s: Sys, actions: seq<Action>, states: seq<Sys>)
    requires |actions| == |states| && actions != []
    ensures var n := |actions| - 1;
            RunAbreast(c, s, actions, states)
            <==> RunAbreast(c, s, actions[..n], states[..n]) && AbreastAt(c, s, actions, states, n)
  {
    var n := |actions| - 1;
    forall i | 0 <= i < n
      ensures AbreastAt(c, s, actions, states, i) <==> AbreastAt(c, s, actions[..n], states[..n], i)
    {
      assert states[..n][..i] == states[..i];
    }
  }

  lemma SteadyTo(c: Config, s: Sys, actions: seq<Action>, states: seq<Sys>)
    requires |actions| == |states| && actions != [] && RunSteady(c, s, actions, states)
    ensures var n := |actions| - 1; RunSteady(c, s, actions[..n], states[..n])
  {
    var n := |actions| - 1;
    forall i | 0 <= i < n ensures SteadyAt(c, s, actions[..n], states[..n], i) {
      assert states[..n][..i] == states[..i];
      assert SteadyAt(c, s, actions, states, i);
    }
  }

  /** Where no crash of a run is cut short and none comes while the ledger is suspect, each comes with the file abreast. */
  lemma {:induction false} SteadyIsAbreast(c: Config, s: Sys, actions: seq<Action>, states: seq<Sys>)
    requires Faithful(c.codec) && Synced(c.codec, s.kept) && Run(c, s, actions, states)
    requires RunSteady(c, s, actions, states)
    ensures RunAbreast(c, s, actions, states) && Synced(c.codec, Last(s, states).kept)
    decreases |actions|
  {
    if actions != [] {
      var n := |actions| - 1;
      SteadyTo(c, s, actions, states);
      SteadyIsAbreast(c, s, actions[..n], states[..n]);
      assert SteadyAt(c, s, actions, states, n);
      StepSynced(c, Last(s, states[..n]), actions[n], states[n]);
      AbreastTo(c, s, actions, states);
    }
  }

  /** And then none misleads. */
  lemma {:induction false} AbreastIsTrue(c: Config, s: Sys, actions: seq<Action>, states: seq<Sys>)
    requires Inv(c, s) && Run(c, s, actions, states) && RunAbreast(c, s, actions, states)
    ensures Inv(c, Last(s, states))
    decreases |actions|
  {
    if actions != [] {
      var n := |actions| - 1;
      AbreastTo(c, s, actions, states);
      AbreastIsTrue(c, s, actions[..n], states[..n]);
      AbreastIsUnmisled(c, Last(s, states[..n]), actions[n]);
      StepTrueIff(c, Last(s, states[..n]), actions[n], states[n]);
    }
  }

  // ── reads ──────────────────────────────────────────────────────────────────

  /** A read: the local tier, or else what the remote tier holds under the key the ledger gives. */
  function Served(m: Mem, local: map<Rel, Bytes>, remote: map<Rel, Bytes>, key: Rel): Option<Bytes> {
    if key in local then Some(local[key])
    else
      match RemoteKeyFor(m, key)
      case None => None
      case Some(at) => if at in remote then Some(remote[at]) else None
  }

  function Get(s: Sys, key: Rel): Option<Bytes> {
    Served(s.kept.mem, s.local, s.remote, key)
  }

  /**
   With no local copy, an uploaded artifact or an alias whose target has not
   moved on is served, with the hash recorded of it; an alias whose target has
   is not served at all.
   */
  lemma ReadIsRecorded(c: Config, s: Sys, key: Rel)
    requires Inv(c, s) && key !in s.local && key in s.kept.mem.entries && !s.kept.mem.entries[key].state.Pending?
    ensures var e := s.kept.mem.entries[key];
            match Get(s, key)
            case Some(b) => c.hash(b) == e.sha && (e.state.Done? || AliasTargetValid(s.kept.mem, e))
            case None => e.state.Alias? && !AliasTargetValid(s.kept.mem, e)
  {
  }

  // ── a read that asks later than it picks ───────────────────────────────────

  /** What the remote tier takes under a key, as an action is. */
  function Taken(s: Sys, a: Action, at: Rel): Option<Bytes> {
    if !s.drain.Uploading? || s.drain.up.key != at then None
    else
      match a
      case Send(sent, _) => Some(sent)
      case GiveUp(landed) => landed
      case _ => None
  }

  /** And what it took last, over a run. */
  function LastTaken(s: Sys, actions: seq<Action>, states: seq<Sys>, at: Rel): Option<Bytes>
    requires |actions| == |states|
    decreases |actions|
  {
    if actions == [] then None
    else
      var n := |actions| - 1;
      var took := Taken(Last(s, states[..n]), actions[n], at);
      if took.Some? then took else LastTaken(s, actions[..n], states[..n], at)
  }

  ghost predicate SameAt(remote: map<Rel, Bytes>, later: map<Rel, Bytes>, at: Rel) {
    (at in later <==> at in remote) && (at in remote ==> later[at] == remote[at])
  }

  lemma WroteTakesNothing(c: Config, s: Sys, recs: seq<Record>, out: Outcome, next: Drain, failed: Drain,
                          missed: map<nat, nat>, t: Sys)
    requires Wf(s.kept.mem) && t == Wrote(c, s, recs, out, next, failed, missed)
    ensures t.remote == s.remote
  {
  }

  lemma WritingTakesNothing(c: Config, s: Sys, a: Action, t: Sys)
    requires Wf(s.kept.mem) && Writing(a) && Step(c, s, a, t)
    ensures t.remote == s.remote
  {
    var recs := Writes(c, s, a);
    match a
    case LedgerPut(_, _, _, _, out) => WroteTakesNothing(c, s, recs, out, s.drain, s.drain, Lost(s), t);
    case Settle(out) => WroteTakesNothing(c, s, recs, out, Ordering(s.drain.now), Resting, Lost(s), t);
    case Next(out) => WroteTakesNothing(c, s, recs, out, NextDrain(c, s), Resting, Lost(s), t);
    case Vanished(out) =>
      WroteTakesNothing(c, s, recs, out, Draining(s.drain.now, s.drain.order), Resting, Lost(s), t);
    case Account(out) =>
      if StillPending(s.kept.mem, s.drain.up) {
        WroteTakesNothing(c, s, recs, out, Draining(s.drain.now, s.drain.order), Resting, MissedBy(c, s, out), t);
      }
  }

  lemma UnwrittenTakes(c: Config, s: Sys, a: Action, t: Sys, at: Rel)
    requires Wf(s.kept.mem) && !Writing(a) && Step(c, s, a, t)
    ensures match Taken(s, a, at)
            case Some(bytes) => at in t.remote && t.remote[at] == bytes
            case None => SameAt(s.remote, t.remote, at)
  {
  }

  lemma StepTakes(c: Config, s: Sys, a: Action, t: Sys, at: Rel)
    requires Wf(s.kept.mem) && Step(c, s, a, t)
    ensures match Taken(s, a, at)
            case Some(bytes) => at in t.remote && t.remote[at] == bytes
            case None => SameAt(s.remote, t.remote, at)
  {
    if Writing(a) {
      WritingTakesNothing(c, s, a, t);
    } else {
      UnwrittenTakes(c, s, a, t, at);
    }
  }

  lemma {:induction false} RunTakes(c: Config, s: Sys, actions: seq<Action>, states: seq<Sys>, at: Rel)
    requires Run(c, s, actions, states)
    ensures var t := Last(s, states);
            match LastTaken(s, actions, states, at)
            case Some(bytes) => at in t.remote && t.remote[at] == bytes
            case None => SameAt(s.remote, t.remote, at)
    decreases |actions|
  {
    if actions != [] {
      var n := |actions| - 1;
      RunTakes(c, s, actions[..n], states[..n], at);
      StepTakes(c, Last(s, states[..n]), actions[n], states[n], at);
    }
  }

  /**
   A read picks its key under the lock and asks the remote tier after it, however
   much later: what it gets has the hash recorded as it picked exactly unless the
   tier took other bytes under that key in between.
   */
  lemma PickedIsRecordedIff(c: Config, s: Sys, actions: seq<Action>, states: seq<Sys>, key: Rel, at: Rel)
    requires Inv(c, s) && Run(c, s, actions, states)
    requires key in s.kept.mem.entries && !s.kept.mem.entries[key].state.Pending?
    requires RemoteKeyFor(s.kept.mem, key) == Some(at)
    ensures var (e, t) := (s.kept.mem.entries[key], Last(s, states));
            var took := LastTaken(s, actions, states, at);
            at in t.remote && (c.hash(t.remote[at]) == e.sha <==> (took.Some? ==> c.hash(took.value) == e.sha))
  {
    RunTakes(c, s, actions, states, at);
    assert at in s.remote && c.hash(s.remote[at]) == s.kept.mem.entries[key].sha;
  }

  /** With an injective hash, over any run from a new ledger no crash of which misleads, so are its bytes. */
  lemma RunReadsRecorded(c: Config, s: Sys, actions: seq<Action>, states: seq<Sys>, more: seq<Action>, after: seq<Sys>,
                         key: Rel, at: Rel, was: Bytes)
    requires Faithful(c.codec) && Fresh(s) && Run(c, s, actions, states) && NeverMisled(c, s, actions, states)
    requires Run(c, Last(s, states), more, after)
    requires forall a, b :: c.hash(a) == c.hash(b) ==> a == b
    requires var m := Last(s, states).kept.mem;
             && key in m.entries && !m.entries[key].state.Pending? && m.entries[key].sha == c.hash(was)
             && RemoteKeyFor(m, key) == Some(at)
    ensures var (picked, asked) := (Last(s, states), Last(Last(s, states), after));
            var took := LastTaken(picked, more, after, at);
            at in asked.remote && (asked.remote[at] == was <==> (took.Some? ==> took.value == was))
  {
    FreshIsTrue(c, s);
    RunTrueIff(c, s, actions, states);
    PickedIsRecordedIff(c, Last(s, states), more, after, key, at);
  }
}
