/**
 Keeping the ledger (crates/dagron-artifact/src/tiered.rs): memory first, then
 an append or a rewrite of the file, and a reload after a crash.
 */
module LedgerStore {
  import opened Common
  import opened Ledger
  import opened LedgerFile

  const COMPACT_MIN_APPENDED := 256

  /** The ledger and its file, as a value. */
  datatype Kept = Kept(mem: Mem, appended: nat, needsCompaction: bool, file: Bytes)

  /** How a write goes; one that fails may leave the first of its bytes. */
  datatype Fault = Fine | Fails(kept: nat)

  function Threshold(entries: nat): nat {
    if COMPACT_MIN_APPENDED <= 2 * entries then 2 * entries else COMPACT_MIN_APPENDED
  }

  predicate Compacts(s: Kept, recs: seq<Record>) {
    s.needsCompaction || s.appended + |recs| > Threshold(|AppliedAll(s.mem, recs).entries|)
  }

  function Appended(c: Codec, file: Bytes, recs: seq<Record>, k: nat): Bytes {
    Torn(c, file, recs, Min(k, |Encode(c, recs)|))
  }

  function Persisted(c: Codec, s: Kept, recs: seq<Record>, fault: Fault): (t: Kept)
    requires Wf(s.mem)
    ensures Wf(t.mem)
  {
    if recs == [] then s
    else
      AppliedAllWf(s.mem, recs);
      var mem := AppliedAll(s.mem, recs);
      match fault
      case Fine =>
        if Compacts(s, recs) then Kept(mem, 0, false, Encode(c, Snapshot(mem)))
        else Kept(mem, s.appended + |recs|, false, s.file + Encode(c, recs))
      case Fails(k) =>
        Kept(mem, s.appended, true, if Compacts(s, recs) then s.file else Appended(c, s.file, recs, k))
  }

  function Reloaded(c: Codec, file: Bytes): (t: Kept)
    ensures Wf(t.mem)
  {
    var got := Replay(c, file, START);
    ReadWf(c, Lines(file), START);
    Kept(got.mem, 0, got.damaged, file)
  }

  /** Unless the file is known to be suspect, replaying it rebuilds memory. */
  ghost predicate Synced(c: Codec, s: Kept) {
    Wf(s.mem) && (!s.needsCompaction ==> Holds(c, s.file, s.mem))
  }

  /** Replaying the file rebuilds memory, and memory knows of nothing amiss. */
  ghost predicate InStep(c: Codec, s: Kept) {
    !s.needsCompaction && Holds(c, s.file, s.mem)
  }

  lemma PersistKeeps(c: Codec, s: Kept, recs: seq<Record>, fault: Fault)
    requires Faithful(c) && Synced(c, s)
    ensures Synced(c, Persisted(c, s, recs, fault))
  {
    AppliedAllWf(s.mem, recs);
    if recs != [] && fault.Fine? {
      if Compacts(s, recs) {
        RewriteHolds(c, AppliedAll(s.mem, recs));
      } else {
        AppendHolds(c, s.file, s.mem, recs);
      }
    }
  }

  /** Written whole, whatever had failed before: the next write heals. */
  lemma WriteHeals(c: Codec, s: Kept, recs: seq<Record>)
    requires Faithful(c) && Synced(c, s) && recs != []
    ensures var t := Persisted(c, s, recs, Fine);
            !t.needsCompaction && t.mem == AppliedAll(s.mem, recs)
            && Equiv(t.mem, Reloaded(c, t.file).mem) && !Reloaded(c, t.file).needsCompaction
  {
    PersistKeeps(c, s, recs, Fine);
  }

  // ── crashes ────────────────────────────────────────────────────────────────

  /** The file a crash leaves in the middle of a write of `recs`; a rewrite is there or it is not. */
  function Left(c: Codec, s: Kept, recs: seq<Record>, k: nat, renamed: bool): Bytes
    requires Wf(s.mem)
  {
    AppliedAllWf(s.mem, recs);
    if !Compacts(s, recs) then Appended(c, s.file, recs, k)
    else if renamed then Encode(c, Snapshot(AppliedAll(s.mem, recs)))
    else s.file
  }

  /** A last line that reads whole but lacks its end. */
  ghost predicate CutShort(c: Codec, file: Bytes) {
    !Clean(file) && !Replay(c, file, START).damaged
  }

  /** What a reload finds is what it then keeps, unless the file is cut just before a newline. */
  lemma ReloadSyncedIff(c: Codec, file: Bytes)
    ensures Synced(c, Reloaded(c, file)) <==> !CutShort(c, file)
  {
    ReadWf(c, Lines(file), START);
  }

  /** All that a crash interrupted writing is there, but perhaps for its last newline. */
  predicate Survives(c: Codec, s: Kept, recs: seq<Record>, k: nat, renamed: bool)
    requires Wf(s.mem)
  {
    if Compacts(s, recs) then renamed else k + 1 >= |Encode(c, recs)|
  }

  /**
   A crash in a write: some of the records, in turn, after all that was there.
   Of a ledger known suspect the file is the old one or, rewritten, has it all.
   */
  lemma CrashKeeps(c: Codec, s: Kept, recs: seq<Record>, k: nat, renamed: bool) returns (n: nat)
    requires Faithful(c) && Synced(c, s)
    ensures n <= |recs|
    ensures if s.needsCompaction && !renamed then Left(c, s, recs, k, renamed) == s.file
            else Equiv(AppliedAll(s.mem, recs[..n]), Reloaded(c, Left(c, s, recs, k, renamed)).mem)
    ensures recs != [] ==> (n == |recs| <==> Survives(c, s, recs, k, renamed))
    ensures !s.needsCompaction ==>
              (CutShort(c, Left(c, s, recs, k, renamed))
               <==> !Compacts(s, recs) && BeforeNewline(c, recs, Min(k, |Encode(c, recs)|)))
  {
    AppliedAllWf(s.mem, recs);
    if !Compacts(s, recs) {
      n := TornReloads(c, s.file, s.mem, recs, Min(k, |Encode(c, recs)|));
    } else if renamed {
      RewriteHolds(c, AppliedAll(s.mem, recs));
      n := |recs|;
      assert recs[..n] == recs;
    } else {
      n := 0;
      assert recs[..0] == [];
    }
  }

  // ── runs ───────────────────────────────────────────────────────────────────

  datatype Event = Write(recs: seq<Record>, fault: Fault) | Crash(recs: seq<Record>, k: nat, renamed: bool)

  function After(c: Codec, s: Kept, e: Event): (t: Kept)
    requires Wf(s.mem)
    ensures Wf(t.mem)
  {
    match e
    case Write(recs, fault) => Persisted(c, s, recs, fault)
    case Crash(recs, k, renamed) => Reloaded(c, Left(c, s, recs, k, renamed))
  }

  function Ran(c: Codec, s: Kept, events: seq<Event>): (t: Kept)
    requires Wf(s.mem)
    ensures Wf(t.mem)
    decreases |events|
  {
    if events == [] then s
    else
      After(c, Ran(c, s, events[..|events| - 1]), events[|events| - 1])
  }

  /** No crash of the run leaves its file cut exactly before a newline. */
  ghost predicate NoneCutShort(c: Codec, s: Kept, events: seq<Event>)
    requires Wf(s.mem)
    decreases |events|
  {
    events == []
    || (var n := |events| - 1;
        && NoneCutShort(c, s, events[..n])
        && (events[n].Crash? ==>
              !CutShort(c, Left(c, Ran(c, s, events[..n]), events[n].recs, events[n].k, events[n].renamed))))
  }

  /** Through any writes, failures and such crashes the file follows memory, whenever it is not known suspect. */
  lemma {:induction false} RunKeeps(c: Codec, s: Kept, events: seq<Event>)
    requires Faithful(c) && Synced(c, s) && NoneCutShort(c, s, events)
    ensures Synced(c, Ran(c, s, events))
    decreases |events|
  {
    if events != [] {
      var n := |events| - 1;
      var t := Ran(c, s, events[..n]);
      RunKeeps(c, s, events[..n]);
      match events[n]
      case Write(recs, fault) => PersistKeeps(c, t, recs, fault);
      case Crash(recs, k, renamed) => ReloadSyncedIff(c, Left(c, t, recs, k, renamed));
    }
  }

  lemma OneLine(c: Codec, rec: Record)
    ensures Encode(c, [rec]) == c.enc(rec) + [NEWLINE]
  {
    assert [rec][..0] == [];
    assert [] + c.enc(rec) == c.enc(rec);
  }

  lemma OneApplied(m: Mem, rec: Record)
    ensures AppliedAll(m, [rec]) == Applied(m, rec)
  {
    assert [rec][..0] == [];
  }

  lemma CutBeforeNewline(c: Codec, a: Record)
    requires Faithful(c)
    ensures After(c, Kept(EMPTY, 0, false, []), Crash([a], |c.enc(a)|, false)) == Kept(Applied(EMPTY, a), 0, false, c.enc(a))
  {
    OneLine(c, a);
    PartReplays(c, a, |c.enc(a)|, START);
    assert c.enc(a)[..|c.enc(a)|] == c.enc(a);
    assert Encode(c, [a])[..|c.enc(a)|] == c.enc(a);
    assert [] + c.enc(a) == c.enc(a);
  }

  lemma GluedOnto(c: Codec, a: Record, b: Record)
    requires Faithful(c) && Wf(Applied(EMPTY, a))
    ensures Persisted(c, Kept(Applied(EMPTY, a), 0, false, c.enc(a)), [b], Fine)
         == Kept(Applied(Applied(EMPTY, a), b), 1, false, c.enc(a) + c.enc(b) + [NEWLINE])
  {
    OneLine(c, b);
    OneApplied(Applied(EMPTY, a), b);
    assert c.enc(a) + (c.enc(b) + [NEWLINE]) == c.enc(a) + c.enc(b) + [NEWLINE];
  }

  /**
   Cut there, it need not: two records on one line are no record, so a first
   record cut just before its newline is lost with the next one appended.
   */
  lemma GluedRecordsAreLost(c: Codec, a: Record, b: Record)
    requires Faithful(c)
    ensures var s := After(c, Kept(EMPTY, 0, false, []), Crash([a], |c.enc(a)|, false));
            var t := After(c, s, Write([b], Fine));
            && t.mem == Applied(Applied(EMPTY, a), b) && !t.needsCompaction
            && Reloaded(c, t.file).mem == EMPTY
  {
    CutBeforeNewline(c, a);
    GluedOnto(c, a, b);
    GluedLine(c, a, b, |c.enc(b)|);
    assert c.enc(b)[..|c.enc(b)|] == c.enc(b);
    ReplayLine(c, c.enc(a) + c.enc(b), START);
  }

  // ── the ledger itself ──────────────────────────────────────────────────────

  class TierLedger {
    const codec: Codec
    var entries: map<Rel, Entry>
    var bySha: map<Sha, Rel>
    var day: nat
    var dayBytes: nat
    var nextSeq: nat
    var appended: nat
    var needsCompaction: bool
    var file: Bytes

    function Value(): Mem
      reads this
    {
      Mem(entries, bySha, day, dayBytes, nextSeq)
    }

    function Now(): Kept
      reads this
    {
      Kept(Value(), appended, needsCompaction, file)
    }

    ghost predicate Valid()
      reads this
    {
      Faithful(codec) && Synced(codec, Now())
    }

    /** What the file replays to, and whether it needs rewriting. */
    constructor Load(codec: Codec, file: Bytes)
      requires Faithful(codec)
      ensures this.codec == codec && Now() == Reloaded(codec, file)
      ensures Valid() <==> !CutShort(codec, file)
    {
      this.codec, this.file := codec, file;
      entries, bySha, day, dayBytes, nextSeq := map[], map[], 0, 0, 0;
      appended, needsCompaction := 0, false;
      new;
      var lines := Lines(file);
      for i := 0 to |lines|
        invariant this.codec == codec && this.file == file && appended == 0
        invariant Loaded(Value(), needsCompaction) == Read(codec, lines[..i], START)
      {
        assert lines[..i + 1][..i] == lines[..i];
        if !codec.blank(lines[i]) {
          match codec.dec(lines[i]) {
            case Some(rec) => Apply(rec);
            case None => needsCompaction := true;
          }
        }
      }
      assert lines[..|lines|] == lines;
      ReloadSyncedIff(codec, file);
    }

    method Detach(rel: Rel)
      modifies this`bySha
      ensures Value() == Detached(old(Value()), rel)
    {
      if rel in entries {
        var sha := entries[rel].sha;
        if sha in bySha && bySha[sha] == rel {
          bySha := bySha - {sha};
        }
      }
    }

    method Insert(key: Rel, sha: Sha, bytes: nat, at: nat, state: State)
      modifies this`entries, this`bySha, this`nextSeq
      ensures Value() == Inserted(old(Value()), key, sha, bytes, at, state)
    {
      Detach(key);
      var seqNo := nextSeq;
      nextSeq := nextSeq + 1;
      entries := entries[key := Entry(key, sha, bytes, at, seqNo, state)];
    }

    method Apply(rec: Record)
      modifies this`entries, this`bySha, this`nextSeq, this`day, this`dayBytes
      ensures Value() == Applied(old(Value()), rec)
    {
      match rec {
        case Pending(key, sha, bytes, at) =>
          Insert(key, sha, bytes, at, State.Pending);
        case Done(key, sha, bytes, at, remote) =>
          Insert(key, sha, bytes, at, State.Done(remote));
          bySha := bySha[sha := key];
        case UploadedBySha(key, sha, bytes, at, of) =>
          Insert(key, sha, bytes, at, Alias(of));
        case Day(d, bytes) =>
          day, dayBytes := d, bytes;
        case Forget(key) =>
          Detach(key);
          entries := entries - {key};
      }
    }

    method ApplyAll(recs: seq<Record>)
      modifies this`entries, this`bySha, this`nextSeq, this`day, this`dayBytes
      ensures Value() == AppliedAll(old(Value()), recs)
    {
      for i := 0 to |recs|
        invariant Value() == AppliedAll(old(Value()), recs[..i])
      {
        assert recs[..i + 1][..i] == recs[..i];
        Apply(recs[i]);
      }
      assert recs[..|recs|] == recs;
    }

    /** The file, appended to or rewritten, of a ledger `recs` are already applied to. */
    method WriteOut(recs: seq<Record>, fault: Fault, ghost was: Kept)
      requires Wf(was.mem) && recs != []
      requires Now() == was.(mem := AppliedAll(was.mem, recs))
      modifies this`file, this`appended, this`needsCompaction
      ensures Now() == Persisted(codec, was, recs, fault)
    {
      AppliedAllWf(was.mem, recs);
      var compact := needsCompaction || appended + |recs| > Threshold(|entries|);
      match fault {
        case Fine =>
          if compact {
            file, appended := Encode(codec, Snapshot(Value())), 0;
          } else {
            file, appended := file + Encode(codec, recs), appended + |recs|;
          }
          needsCompaction := false;
        case Fails(k) =>
          if !compact {
            file := Appended(codec, file, recs, k);
          }
          needsCompaction := true;
      }
    }

    /** Memory first; then the file. `fault` is how the write goes. */
    method Persist(recs: seq<Record>, fault: Fault) returns (ok: bool)
      requires Valid()
      modifies this
      ensures Now() == Persisted(codec, old(Now()), recs, fault)
      ensures Valid() && (ok <==> recs == [] || fault.Fine?)
    {
      PersistKeeps(codec, Now(), recs, fault);
      if recs == [] {
        return true;
      }
      ghost var was := Now();
      ApplyAll(recs);
      WriteOut(recs, fault, was);
      ok := fault.Fine?;
    }
  }
}
