/**
 Whether the ledger tells the truth (crates/dagron-artifact/src/tiered.rs): what
 it calls uploaded, in memory or in its file, against what the remote tier holds.
 */
module LedgerTruth {
  import opened Common
  import opened Ledger
  import opened LedgerFile
  import opened LedgerStore

  /** A daily budget, if there is one. */
  type Cap = Option<nat>

  datatype Config = Config(hash: Bytes -> Sha, cap: Cap, codec: Codec)

  // ── of memory ──────────────────────────────────────────────────────────────

  /** What is called uploaded is what the remote tier holds, but perhaps at the places `but`. */
  ghost predicate TrueBut(c: Config, m: Mem, remote: map<Rel, Bytes>, but: set<Rel>) {
    forall rel <- m.entries :: m.entries[rel].state.Done? && rel !in but ==>
      rel in remote && c.hash(remote[rel]) == m.entries[rel].sha
  }

  ghost predicate Truthful(c: Config, m: Mem, remote: map<Rel, Bytes>) {
    TrueBut(c, m, remote, {})
  }

  /** Records that call uploaded only what is. */
  ghost predicate Honest(c: Config, recs: seq<Record>, remote: map<Rel, Bytes>) {
    forall r <- recs :: r.Done? ==> r.key in remote && c.hash(remote[r.key]) == r.sha
  }

  lemma HonestApplied(c: Config, m: Mem, rec: Record, remote: map<Rel, Bytes>, but: set<Rel>)
    requires TrueBut(c, m, remote, but) && Honest(c, [rec], remote)
    ensures TrueBut(c, Applied(m, rec), remote, but)
  {
    assert rec in [rec];
  }

  lemma {:induction false} HonestAppliedAll(c: Config, m: Mem, recs: seq<Record>, remote: map<Rel, Bytes>, but: set<Rel>)
    requires TrueBut(c, m, remote, but) && Honest(c, recs, remote)
    ensures TrueBut(c, AppliedAll(m, recs), remote, but)
    decreases |recs|
  {
    if recs != [] {
      var n := |recs| - 1;
      HonestAppliedAll(c, m, recs[..n], remote, but);
      HonestApplied(c, AppliedAll(m, recs[..n]), recs[n], remote, but);
    }
  }

  lemma EquivTrue(c: Config, m: Mem, m': Mem, remote: map<Rel, Bytes>, but: set<Rel>)
    requires TrueBut(c, m, remote, but) && Equiv(m, m')
    ensures TrueBut(c, m', remote, but)
  {
    forall rel | rel in m'.entries && m'.entries[rel].state.Done? && rel !in but
      ensures rel in remote && c.hash(remote[rel]) == m'.entries[rel].sha
    {
      assert Same(m.entries[rel], m'.entries[rel]);
    }
  }

  // ── of the file ────────────────────────────────────────────────────────────

  function ReplayedMem(c: Config, file: Bytes): Mem {
    Replay(c.codec, file, START).mem
  }

  /** The file ends its last line; or its last record lacks only its newline, and may yet be lost. */
  ghost predicate EndsTrue(c: Config, file: Bytes, remote: map<Rel, Bytes>, but: set<Rel>) {
    || Clean(file)
    || exists base, r :: Unended(c.codec, file, base, r) && TrueBut(c, ReplayedMem(c, base), remote, but)
  }

  /** What a reload of the file would call uploaded is; its last line has ended, or the reload knows it has not, or it may be lost. */
  ghost predicate LeftTrue(c: Config, file: Bytes, remote: map<Rel, Bytes>, but: set<Rel>) {
    && TrueBut(c, ReplayedMem(c, file), remote, but)
    && (Replay(c.codec, file, START).damaged || EndsTrue(c, file, remote, but))
  }

  /** And will be, whatever is appended. */
  ghost predicate FileTrue(c: Config, s: Kept, remote: map<Rel, Bytes>, but: set<Rel>) {
    LeftTrue(c, s.file, remote, but) && (s.needsCompaction || EndsTrue(c, s.file, remote, but))
  }

  lemma TailedTrue(c: Config, base: Bytes, recs: seq<Record>, file: Bytes, n: nat, remote: map<Rel, Bytes>, but: set<Rel>)
    requires Faithful(c.codec) && Clean(base) && Tailed(c.codec, base, recs, file, n)
    requires Honest(c, recs, remote) && TrueBut(c, ReplayedMem(c, base), remote, but)
    ensures LeftTrue(c, file, remote, but)
  {
    HonestAppliedAll(c, ReplayedMem(c, base), recs[..n], remote, but);
    if n > 0 {
      AppendReplays(c.codec, base, recs[..n - 1]);
      HonestAppliedAll(c, ReplayedMem(c, base), recs[..n - 1], remote, but);
    }
  }

  lemma CleanAppendTrue(c: Config, base: Bytes, recs: seq<Record>, k: nat, remote: map<Rel, Bytes>, but: set<Rel>)
    requires Faithful(c.codec) && Clean(base) && k <= |Encode(c.codec, recs)|
    requires Honest(c, recs, remote) && TrueBut(c, ReplayedMem(c, base), remote, but)
    ensures LeftTrue(c, Torn(c.codec, base, recs, k), remote, but)
    ensures k == |Encode(c.codec, recs)| ==> Clean(Torn(c.codec, base, recs, k))
  {
    var n := TornTail(c.codec, base, recs, k);
    TailedTrue(c, base, recs, Torn(c.codec, base, recs, k), n, remote, but);
  }

  /** The line made of a record without its newline and some of the next: both are lost. */
  lemma GluedLineTrue(c: Config, base: Bytes, r: Record, more: Record, k: nat, remote: map<Rel, Bytes>, but: set<Rel>)
    requires Faithful(c.codec) && Clean(base) && 0 < k <= |c.codec.enc(more)|
    requires TrueBut(c, ReplayedMem(c, base), remote, but)
    ensures var line := c.codec.enc(r) + c.codec.enc(more)[..k];
            && LeftTrue(c, base + line, remote, but)
            && Clean(base + (line + [NEWLINE])) && TrueBut(c, ReplayedMem(c, base + (line + [NEWLINE])), remote, but)
  {
    GluedLine(c.codec, r, more, k);
    MalformedLine(c.codec, base, c.codec.enc(r) + c.codec.enc(more)[..k]);
  }

  lemma GluedAppendTrue(c: Config, base: Bytes, r: Record, recs: seq<Record>, k: nat, remote: map<Rel, Bytes>, but: set<Rel>)
    requires Faithful(c.codec) && Clean(base) && recs != [] && 0 < k <= |Encode(c.codec, recs)|
    requires Honest(c, recs, remote) && TrueBut(c, ReplayedMem(c, base), remote, but)
    ensures LeftTrue(c, Torn(c.codec, base + c.codec.enc(r), recs, k), remote, but)
    ensures k == |Encode(c.codec, recs)| ==> Clean(Torn(c.codec, base + c.codec.enc(r), recs, k))
  {
    var (line, first) := (c.codec.enc(r), c.codec.enc(recs[0]));
    TornGlued(c.codec, base, r, recs, k);
    EncodedFirst(c.codec, recs);
    if k <= |first| {
      GluedLineTrue(c, base, r, recs[0], k, remote, but);
    } else {
      NotEmpty(c.codec, recs[0]);
      GluedLineTrue(c, base, r, recs[0], |first|, remote, but);
      assert first[..|first|] == first;
      CleanAppendTrue(c, base + (line + first + [NEWLINE]), recs[1..], k - |first| - 1, remote, but);
    }
  }

  lemma AppendTrue(c: Config, file: Bytes, recs: seq<Record>, k: nat, remote: map<Rel, Bytes>, but: set<Rel>)
    requires Faithful(c.codec) && recs != [] && k <= |Encode(c.codec, recs)| && Honest(c, recs, remote)
    requires TrueBut(c, ReplayedMem(c, file), remote, but) && EndsTrue(c, file, remote, but)
    ensures LeftTrue(c, Torn(c.codec, file, recs, k), remote, but)
    ensures k == |Encode(c.codec, recs)| ==> Clean(Torn(c.codec, file, recs, k))
  {
    if Clean(file) {
      CleanAppendTrue(c, file, recs, k, remote, but);
    } else if k == 0 {
      assert Torn(c.codec, file, recs, k) == file;
      EncodedFirst(c.codec, recs);
    } else {
      var base, r :| Unended(c.codec, file, base, r) && TrueBut(c, ReplayedMem(c, base), remote, but);
      GluedAppendTrue(c, base, r, recs, k, remote, but);
    }
  }

  lemma RewriteTrue(c: Config, m: Mem, remote: map<Rel, Bytes>)
    requires Faithful(c.codec) && Wf(m) && Truthful(c, m, remote)
    ensures var file := Encode(c.codec, Snapshot(m)); Clean(file) && Truthful(c, ReplayedMem(c, file), remote)
  {
    RewriteHolds(c.codec, m);
    EquivTrue(c, m, ReplayedMem(c, Encode(c.codec, Snapshot(m))), remote, {});
  }

  /** A write of what is true, whole or failing. */
  lemma PersistTrue(c: Config, s: Kept, recs: seq<Record>, fault: Fault, remote: map<Rel, Bytes>, but: set<Rel>)
    requires Faithful(c.codec) && Wf(s.mem) && recs != [] && Honest(c, recs, remote)
    requires Truthful(c, s.mem, remote) && FileTrue(c, s, remote, but)
    ensures Truthful(c, Persisted(c.codec, s, recs, fault).mem, remote)
    ensures FileTrue(c, Persisted(c.codec, s, recs, fault), remote, but)
  {
    AppliedAllWf(s.mem, recs);
    HonestAppliedAll(c, s.mem, recs, remote, {});
    var all := |Encode(c.codec, recs)|;
    if Compacts(s, recs) {
      RewriteTrue(c, AppliedAll(s.mem, recs), remote);
    } else {
      AppendTrue(c, s.file, recs, if fault.Fine? then all else Min(fault.kept, all), remote, but);
      assert Encode(c.codec, recs)[..all] == Encode(c.codec, recs);
    }
  }

  /** Or cut by a crash. */
  lemma CrashTrue(c: Config, s: Kept, recs: seq<Record>, k: nat, renamed: bool, remote: map<Rel, Bytes>, but: set<Rel>)
    requires Faithful(c.codec) && Wf(s.mem) && recs != [] && Honest(c, recs, remote)
    requires Truthful(c, s.mem, remote) && FileTrue(c, s, remote, but)
    ensures LeftTrue(c, Left(c.codec, s, recs, k, renamed), remote, but)
  {
    AppliedAllWf(s.mem, recs);
    HonestAppliedAll(c, s.mem, recs, remote, {});
    if !Compacts(s, recs) {
      AppendTrue(c, s.file, recs, Min(k, |Encode(c.codec, recs)|), remote, but);
    } else if renamed {
      RewriteTrue(c, AppliedAll(s.mem, recs), remote);
    }
  }
}
