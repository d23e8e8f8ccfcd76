/**
 The uplink's bill (crates/dagron-artifact/src/tiered.rs): over any run, with any
 crashes, what the ledger counts for a day is what was uploaded then, less what a
 raced put or a crash kept from being counted, exactly unless the ledger comes to
 count a day as memory did not last count it.
 */
module Billing {
  import opened Common
  import opened Ledger
  import opened LedgerFile
  import opened LedgerStore
  import opened LedgerTruth
  import opened Uplink

  /** Records that leave the day's count alone. */
  predicate Dayless(recs: seq<Record>) {
    forall r <- recs :: !r.Day?
  }

  predicate SameDay(m: Mem, m': Mem) {
    m'.day == m.day && m'.dayBytes == m.dayBytes
  }

  lemma {:induction false} DaylessApplied(m: Mem, recs: seq<Record>)
    requires Dayless(recs)
    ensures SameDay(m, AppliedAll(m, recs))
    decreases |recs|
  {
    if recs != [] {
      DaylessApplied(m, recs[..|recs| - 1]);
    }
  }

  predicate Early(d: Drain) {
    d.Resting? || d.Preparing?
  }

  /** What was uploaded in a day, less what was missed, as far as a count goes. */
  function Billable(s: Sys, day: nat): int {
    Min(On(s.uploaded, day) - On(Lost(s), day), U64_MAX)
  }

  /** Memory's count is what it last counted for its day. */
  predicate Tallied(s: Sys) {
    s.kept.mem.dayBytes == On(s.counted, s.kept.mem.day)
  }

  /** What was last counted for each day is what was uploaded then and not missed. */
  ghost predicate Billed(s: Sys) {
    && (forall d: nat {:trigger On(s.counted, d)} :: On(s.counted, d) == Billable(s, d))
    && (forall d :: On(Lost(s), d) <= On(s.uploaded, d))
  }

  /** What is under way in a drain that has its day is of that day. */
  ghost predicate Dated(s: Sys) {
    && Tallied(s)
    && (s.drain.Preparing? ==> Dayless(s.drain.recs))
    && (!Early(s.drain) ==> s.kept.mem.day == s.today)
  }

  // ── what a step makes of the count ─────────────────────────────────────────

  /**
   Nothing; a drain begun; its day settled; an upload chosen; made; or counted;
   or a day's count made anew, by a drain or a reload.
   */
  datatype Effect = Quiet | Begun | Settled | Chosen | Made | Counts | Recounts

  /** The count memory had is the one it has. */
  ghost predicate SameCount(s: Sys, t: Sys) {
    && SameDay(s.kept.mem, t.kept.mem) && t.today == s.today
    && (t.counted == s.counted || t.counted == s.counted[s.kept.mem.day := s.kept.mem.dayBytes])
  }

  ghost predicate CountNow(s: Sys, t: Sys) {
    t.counted == s.counted[t.kept.mem.day := t.kept.mem.dayBytes]
  }

  ghost predicate Does(c: Config, e: Effect, s: Sys, t: Sys) {
    match e
    case Quiet =>
      && SameCount(s, t) && t.uploaded == s.uploaded && Lost(t) == Lost(s)
      && (Early(s.drain) ==> Early(t.drain)) && (t.drain.Preparing? ==> Dayless(t.drain.recs))
      && (t.drain.Uploading? || t.drain.Sent? ==> t.drain == s.drain)
    case Begun =>
      && s.drain.Resting? && t == s.(drain := t.drain, today := t.today)
      && t.drain.Preparing? && t.drain.recs == []
    case Settled =>
      && s.drain.Preparing? && (t.drain.Resting? || t.drain.Ordering?)
      && SameCount(s, t) && t.uploaded == s.uploaded && Lost(t) == Lost(s)
      && (t.drain.Ordering? ==> t.kept.mem.day == s.today)
    case Chosen =>
      && s.drain.Draining? && t == s.(drain := t.drain) && t.drain.Uploading?
      && !Oversize(c.cap, t.drain.up.bytes) && Fits(c.cap, s.kept.mem.dayBytes, t.drain.up.bytes)
    case Made =>
      && s.drain.Uploading? && t.drain.Sent? && t.kept == s.kept && t.counted == s.counted && t.today == s.today
      && t.unbilled == s.unbilled && t.uploaded == Plus(s.uploaded, s.today, t.drain.bytes)
    case Counts =>
      && s.drain.Sent? && t.today == s.today && t.uploaded == s.uploaded && t.unbilled == s.unbilled
      && CountsUpload(s, t.kept.mem) && CountNow(s, t)
      && (t.drain.Draining? || t.drain.Resting?)
    case Recounts =>
      && t.today == s.today && t.uploaded == s.uploaded && Lost(t) == Lost(s) && CountNow(s, t)
      && (t.drain.Resting? || (t.drain.Ordering? && t.kept.mem.day == s.today))
  }

  /** The day a ledger comes to count anew, and its count: of a reload, or of a drain on another day than the ledger's. */
  function Recounted(c: Config, s: Sys, a: Action): Option<(nat, nat)>
    requires Wf(s.kept.mem)
  {
    match CrashFile(c, s, a)
    case Some(file) =>
      if a.Account? && s.drain.Sent? && Survived(c, s, a.out) then None
      else Some((ReplayedMem(c, file).day, ReplayedMem(c, file).dayBytes))
    case None =>
      if a.Settle? && s.drain.Preparing? && s.kept.mem.day != s.today then Some((s.today, 0)) else None
  }

  lemma WroteWent(c: Config, s: Sys, recs: seq<Record>, fault: Fault, next: Drain, failed: Drain,
                  missed: map<nat, nat>, t: Sys)
    requires Wf(s.kept.mem) && recs != [] && t == Wrote(c, s, recs, Went(fault), next, failed, missed)
    ensures t.kept.mem == AppliedAll(s.kept.mem, recs) && CountNow(s, t)
    ensures t.uploaded == s.uploaded && t.today == s.today && t.unbilled == s.unbilled
    ensures t.drain == if fault.Fine? then next else failed
  {
  }

  lemma WroteCrashed(c: Config, s: Sys, recs: seq<Record>, out: Outcome, next: Drain, failed: Drain,
                     missed: map<nat, nat>, t: Sys)
    requires Wf(s.kept.mem) && recs != [] && out.Crashed? && t == Wrote(c, s, recs, out, next, failed, missed)
    ensures t.kept.mem == ReplayedMem(c, Left(c.codec, s.kept, recs, out.k, out.renamed)) && CountNow(s, t)
    ensures t.uploaded == s.uploaded && t.today == s.today && t.unbilled == missed && t.drain.Resting?
  {
  }

  /** A write that leaves the count alone. */
  lemma QuietWrite(c: Config, s: Sys, recs: seq<Record>, out: Outcome, next: Drain, failed: Drain, t: Sys) returns (e: Effect)
    requires Wf(s.kept.mem) && Dayless(recs) && t == Wrote(c, s, recs, out, next, failed, Lost(s))
    requires s.drain.Preparing? ==> Dayless(s.drain.recs)
    requires next == failed == s.drain || (!Early(s.drain) && !s.drain.Sent? && next.Draining? && failed.Resting?)
    ensures Does(c, e, s, t) && e == if recs != [] && out.Crashed? then Recounts else Quiet
  {
    e := Quiet;
    if recs != [] {
      match out
      case Went(fault) =>
        WroteWent(c, s, recs, fault, next, failed, Lost(s), t);
        DaylessApplied(s.kept.mem, recs);
      case Crashed(_, _) =>
        WroteCrashed(c, s, recs, out, next, failed, Lost(s), t);
        e := Recounts;
    }
  }

  lemma PutDoes(c: Config, s: Sys, a: Action, t: Sys) returns (e: Effect)
    requires Wf(s.kept.mem) && a.LedgerPut? && PutStep(c, s, Writes(c, s, a), a.out, t)
    requires s.drain.Preparing? ==> Dayless(s.drain.recs)
    ensures Does(c, e, s, t) && (e.Recounts? <==> CrashFile(c, s, a).Some?) && (e.Quiet? || e.Recounts?)
  {
    e := QuietWrite(c, s, Writes(c, s, a), a.out, s.drain, s.drain, t);
  }

  lemma VanishedDoes(c: Config, s: Sys, a: Action, t: Sys) returns (e: Effect)
    requires Wf(s.kept.mem) && a.Vanished? && VanishedStep(c, s, a.out, t)
    ensures Does(c, e, s, t) && (e.Recounts? <==> CrashFile(c, s, a).Some?) && (e.Quiet? || e.Recounts?)
  {
    e := QuietWrite(c, s, Writes(c, s, a), a.out, Draining(s.drain.now, s.drain.order), Resting, t);
  }

  lemma NextDoes(c: Config, s: Sys, a: Action, t: Sys) returns (e: Effect)
    requires Wf(s.kept.mem) && a.Next? && NextStep(c, s, a.out, t)
    ensures Does(c, e, s, t) && (e.Recounts? <==> CrashFile(c, s, a).Some?) && (e.Quiet? || e.Recounts? || e.Chosen?)
  {
    var recs := NextRecords(c, s);
    e := Quiet;
    if recs != [] {
      e := QuietWrite(c, s, recs, a.out, NextDrain(c, s), Resting, t);
    } else if NextDrain(c, s).Uploading? {
      e := Chosen;
    }
  }

  lemma PreparedDay(s: Sys)
    requires s.drain.Preparing? && Dayless(s.drain.recs)
    ensures var m := AppliedAll(s.kept.mem, Prepared(s));
            if s.kept.mem.day != s.today then m.day == s.today && m.dayBytes == 0 else SameDay(s.kept.mem, m)
  {
    var (recs, all) := (s.drain.recs, Prepared(s));
    if s.kept.mem.day != s.today {
      assert all[..|all| - 1] == recs;
    } else {
      assert all == recs;
      DaylessApplied(s.kept.mem, recs);
    }
  }

  lemma SettledDoes(c: Config, s: Sys, recs: seq<Record>, fault: Fault, t: Sys)
    requires Wf(s.kept.mem) && s.drain.Preparing? && Dayless(s.drain.recs) && recs == Prepared(s) && recs != []
    requires t == Wrote(c, s, recs, Went(fault), Ordering(s.drain.now), Resting, Lost(s))
    ensures Does(c, if s.kept.mem.day != s.today then Recounts else Settled, s, t)
    ensures s.kept.mem.day != s.today ==> t.kept.mem.day == s.today && t.kept.mem.dayBytes == 0
  {
    WroteWent(c, s, recs, fault, Ordering(s.drain.now), Resting, Lost(s), t);
    PreparedDay(s);
  }

  lemma SettleDoes(c: Config, s: Sys, a: Action, t: Sys) returns (e: Effect)
    requires Wf(s.kept.mem) && a.Settle? && SettleStep(c, s, a.out, t) && Dayless(s.drain.recs)
    ensures Does(c, e, s, t) && (e.Settled? || e.Recounts?) && (e.Recounts? <==> Recounted(c, s, a).Some?)
    ensures e.Recounts? ==> Recounted(c, s, a) == Some((t.kept.mem.day, t.kept.mem.dayBytes))
  {
    var recs := Prepared(s);
    e := Settled;
    if recs != [] {
      match a.out
      case Went(fault) =>
        SettledDoes(c, s, recs, fault, t);
        e := if s.kept.mem.day != s.today then Recounts else Settled;
      case Crashed(_, _) =>
        WroteCrashed(c, s, recs, a.out, Ordering(s.drain.now), Resting, Lost(s), t);
        e := Recounts;
    }
  }

  /** What recording an upload makes of the count. */
  lemma RecordDoes(c: Config, s: Sys, a: Action, t: Sys) returns (e: Effect)
    requires Wf(s.kept.mem) && a.Account? && s.drain.Sent? && StillPending(s.kept.mem, s.drain.up)
    requires t == Wrote(c, s, Accounted(s), a.out, Draining(s.drain.now, s.drain.order), Resting, MissedBy(c, s, a.out))
    ensures Does(c, e, s, t) && (e.Counts? || e.Recounts?)
    ensures e.Recounts? <==> a.out.Crashed? && !Survived(c, s, a.out)
  {
    var (recs, next) := (Accounted(s), Draining(s.drain.now, s.drain.order));
    match a.out
    case Went(fault) =>
      WroteWent(c, s, recs, fault, next, Resting, MissedBy(c, s, a.out), t);
      TwoApplied(s.kept.mem, recs[0], recs[1]);
      e := Counts;
    case Crashed(_, _) =>
      WroteCrashed(c, s, recs, a.out, next, Resting, MissedBy(c, s, a.out), t);
      e := if Survived(c, s, a.out) then Counts else Recounts;
  }

  lemma AccountDoes(c: Config, s: Sys, a: Action, t: Sys) returns (e: Effect)
    requires Wf(s.kept.mem) && a.Account? && AccountStep(c, s, a.out, t)
    ensures Does(c, e, s, t) && (e.Quiet? || e.Counts? || e.Recounts?)
    ensures e.Recounts? <==> CrashFile(c, s, a).Some? && !Survived(c, s, a.out)
  {
    e := Quiet;
    if StillPending(s.kept.mem, s.drain.up) {
      e := RecordDoes(c, s, a, t);
    }
  }

  lemma CrashDoes(c: Config, s: Sys, t: Sys)
    requires Wf(s.kept.mem) && t == Restarted(c, s, s.kept.file, Lost(s))
    ensures Does(c, Recounts, s, t)
  {
  }

  lemma SendDoes(c: Config, s: Sys, a: Action, t: Sys)
    requires a.Send? && SendStep(c, s, a.sent, a.locator, t)
    ensures Does(c, Made, s, t)
  {
  }

  lemma GiveUpDoes(c: Config, s: Sys, a: Action, t: Sys)
    requires a.GiveUp? && GiveUpStep(c, s, a.landed, t)
    ensures Does(c, Quiet, s, t)
  {
  }

  lemma UnwrittenDoes(c: Config, s: Sys, a: Action, t: Sys)
    requires Wf(s.kept.mem) && Local(a) && Step(c, s, a, t)
    requires s.drain.Preparing? ==> Dayless(s.drain.recs)
    ensures Does(c, if a.Begin? then Begun else Quiet, s, t)
  {
  }

  /** Every step, however its write goes, does one of these. */
  lemma StepDoes(c: Config, s: Sys, a: Action, t: Sys) returns (e: Effect)
    requires Wf(s.kept.mem) && Step(c, s, a, t)
    requires s.drain.Preparing? ==> Dayless(s.drain.recs)
    ensures Does(c, e, s, t) && (e.Made? ==> a.Send?) && (e.Recounts? <==> Recounted(c, s, a).Some?)
    ensures e.Recounts? ==> Recounted(c, s, a) == Some((t.kept.mem.day, t.kept.mem.dayBytes))
  {
    if CrashFile(c, s, a).Some? {
      CrashReloads(c, s, a, t);
    }
    if a.LedgerPut? {
      e := PutDoes(c, s, a, t);
    } else if a.Vanished? {
      e := VanishedDoes(c, s, a, t);
    } else if a.Next? {
      e := NextDoes(c, s, a, t);
    } else if a.Account? {
      e := AccountDoes(c, s, a, t);
    } else if a.Settle? {
      e := SettleDoes(c, s, a, t);
    } else if a.Crash? {
      CrashDoes(c, s, t);
      e := Recounts;
    } else if a.Send? {
      SendDoes(c, s, a, t);
      e := Made;
    } else if a.GiveUp? {
      GiveUpDoes(c, s, a, t);
      e := Quiet;
    } else {
      UnwrittenDoes(c, s, a, t);
      e := if a.Begin? then Begun else Quiet;
    }
  }

  // ── the bill ───────────────────────────────────────────────────────────────

  /** A day comes to be counted as memory did not last count it. */
  predicate Forgets(c: Config, s: Sys, a: Action)
    requires Wf(s.kept.mem)
  {
    var r := Recounted(c, s, a);
    r.Some? && r.value.1 != On(s.counted, r.value.0)
  }

  lemma EffectDates(c: Config, e: Effect, s: Sys, t: Sys)
    requires Dated(s) && Does(c, e, s, t)
    ensures Dated(t)
  {
  }

  lemma QuietBills(c: Config, e: Effect, s: Sys, t: Sys)
    requires Billed(s) && Dated(s) && Does(c, e, s, t) && !e.Recounts? && !e.Made? && !e.Counts?
    ensures Billed(t)
  {
    forall d: nat ensures On(t.counted, d) == On(s.counted, d) && Billable(t, d) == Billable(s, d) {
    }
  }

  lemma MadeBills(c: Config, s: Sys, t: Sys)
    requires Billed(s) && Does(c, Made, s, t)
    ensures Billed(t)
  {
    forall d: nat ensures On(t.uploaded, d) - On(Lost(t), d) == On(s.uploaded, d) - On(Lost(s), d) {
    }
    forall d: nat ensures On(t.counted, d) == Billable(t, d) {
      assert On(s.counted, d) == Billable(s, d);
    }
  }

  lemma CountsBills(c: Config, s: Sys, t: Sys)
    requires Billed(s) && Dated(s) && Does(c, Counts, s, t)
    ensures Billed(t)
  {
    forall d: nat ensures On(t.counted, d) == Billable(t, d) {
      assert On(s.counted, d) == Billable(s, d);
    }
  }

  lemma RecountBillsIff(c: Config, s: Sys, t: Sys)
    requires Billed(s) && Does(c, Recounts, s, t)
    ensures Billed(t) <==> t.kept.mem.dayBytes == On(s.counted, t.kept.mem.day)
  {
    var day := t.kept.mem.day;
    assert On(s.counted, day) == Billable(s, day) == Billable(t, day);
    assert On(t.counted, day) == t.kept.mem.dayBytes;
    if t.kept.mem.dayBytes == On(s.counted, day) {
      forall d: nat ensures On(t.counted, d) == Billable(t, d) {
        assert On(s.counted, d) == Billable(s, d);
      }
    }
  }

  /** A step, with any crash in it, keeps the bill exactly unless it forgets. */
  lemma StepBilledIff(c: Config, s: Sys, a: Action, t: Sys)
    requires Wf(s.kept.mem) && Billed(s) && Dated(s) && Step(c, s, a, t)
    ensures Dated(t) && (Billed(t) <==> !Forgets(c, s, a))
  {
    var e := StepDoes(c, s, a, t);
    EffectDates(c, e, s, t);
    if e.Recounts? {
      RecountBillsIff(c, s, t);
    } else if e.Made? {
      MadeBills(c, s, t);
    } else if e.Counts? {
      CountsBills(c, s, t);
    } else {
      QuietBills(c, e, s, t);
    }
  }

  /** At the `i`th action. */
  ghost predicate ForgotAt(c: Config, s: Sys, actions: seq<Action>, states: seq<Sys>, i: nat)
    requires i < |actions| == |states|
  {
    var before := Last(s, states[..i]);
    Wf(before.kept.mem) && Forgets(c, before, actions[i])
  }

  ghost predicate NeverForgot(c: Config, s: Sys, actions: seq<Action>, states: seq<Sys>)
    requires |actions| == |states|
  {
    forall i :: 0 <= i < |actions| ==> !ForgotAt(c, s, actions, states, i)
  }

  ghost predicate AllBilled(states: seq<Sys>) {
    forall t <- states :: Billed(t)
  }

  lemma ForgotTo(c: Config, s: Sys, actions: seq<Action>, states: seq<Sys>)
    requires |actions| == |states| && actions != []
    ensures var n := |actions| - 1;
            NeverForgot(c, s, actions, states)
            <==> NeverForgot(c, s, actions[..n], states[..n]) && !ForgotAt(c, s, actions, states, n)
  {
    var n := |actions| - 1;
    forall i | 0 <= i < n
      ensures ForgotAt(c, s, actions, states, i) <==> ForgotAt(c, s, actions[..n], states[..n], i)
    {
      assert states[..n][..i] == states[..i];
    }
  }

  /** Over any run, what is counted is what was uploaded and not missed, all along, exactly unless it forgets. */
  lemma {:induction false} RunBilledIff(c: Config, s: Sys, actions: seq<Action>, states: seq<Sys>)
    requires Billed(s) && Dated(s) && Run(c, s, actions, states)
    ensures AllBilled(states) <==> NeverForgot(c, s, actions, states)
    ensures NeverForgot(c, s, actions, states) ==> Billed(Last(s, states)) && Dated(Last(s, states))
    decreases |actions|
  {
    if actions != [] {
      var n := |actions| - 1;
      var t := states[n];
      assert states == states[..n] + [t];
      ForgotTo(c, s, actions, states);
      RunBilledIff(c, s, actions[..n], states[..n]);
      if AllBilled(states[..n]) {
        StepBilledIff(c, Last(s, states[..n]), actions[n], t);
      } else {
        assert forall u <- states[..n] :: u in states;
      }
    }
  }

  // ── crashes that forget nothing ────────────────────────────────────────────

  /** A drain on a day already counted, another being the ledger's. */
  predicate GoesBack(s: Sys, a: Action) {
    a.Settle? && s.drain.Preparing? && s.kept.mem.day != s.today && On(s.counted, s.today) > 0
  }

  /** A crash that comes with the file abreast brings back memory's own count, or one as the write has it. */
  lemma AbreastReloads(c: Config, s: Sys, a: Action) returns (n: nat)
    requires Faithful(c.codec) && Wf(s.kept.mem) && InStep(c.codec, s.kept) && CrashFile(c, s, a).Some?
    ensures n <= |Writes(c, s, a)|
    ensures SameDay(AppliedAll(s.kept.mem, Writes(c, s, a)[..n]), ReplayedMem(c, CrashFile(c, s, a).value))
  {
    n := 0;
    assert Writes(c, s, a)[..0] == [];
    if !a.Crash? {
      n := CrashKeeps(c.codec, s.kept, Writes(c, s, a), a.out.k, a.out.renamed);
    }
  }

  lemma SomePrepared(s: Sys, n: nat)
    requires s.drain.Preparing? && Dayless(s.drain.recs) && n <= |Prepared(s)|
    ensures var m := AppliedAll(s.kept.mem, Prepared(s)[..n]);
            SameDay(s.kept.mem, m) || (s.kept.mem.day != s.today && m.day == s.today && m.dayBytes == 0)
  {
    var (recs, all) := (s.drain.recs, Prepared(s));
    if n <= |recs| {
      assert all[..n] == recs[..n];
      assert Dayless(recs[..n]);
      DaylessApplied(s.kept.mem, recs[..n]);
    } else {
      assert all[..n] == all;
      PreparedDay(s);
    }
  }

  lemma SomeAccounted(s: Sys, n: nat)
    requires s.drain.Sent? && Dated(s) && n <= 2
    ensures var m := AppliedAll(s.kept.mem, Accounted(s)[..n]); SameDay(s.kept.mem, m) || CountsUpload(s, m)
  {
    var recs := Accounted(s);
    TwoApplied(s.kept.mem, recs[0], recs[1]);
    assert recs[..2] == recs;
  }

  /** So only a drain that goes back forgets. */
  lemma AbreastForgets(c: Config, s: Sys, a: Action)
    requires Faithful(c.codec) && Wf(s.kept.mem) && Dated(s) && Abreast(c, s, a) && Forgets(c, s, a)
    ensures GoesBack(s, a)
  {
    if CrashFile(c, s, a).Some? {
      var n := AbreastReloads(c, s, a);
      var recs := Writes(c, s, a);
      if a.Settle? {
        SomePrepared(s, n);
      } else if a.Account? {
        SomeAccounted(s, n);
      } else {
        assert Dayless(recs[..n]);
        DaylessApplied(s.kept.mem, recs[..n]);
      }
    }
  }

  ghost predicate BackAt(s: Sys, actions: seq<Action>, states: seq<Sys>, i: nat)
    requires i < |actions| == |states|
  {
    GoesBack(Last(s, states[..i]), actions[i])
  }

  ghost predicate NeverBack(s: Sys, actions: seq<Action>, states: seq<Sys>)
    requires |actions| == |states|
  {
    forall i :: 0 <= i < |actions| ==> !BackAt(s, actions, states, i)
  }

  lemma BackTo(s: Sys, actions: seq<Action>, states: seq<Sys>)
    requires |actions| == |states| && actions != [] && NeverBack(s, actions, states)
    ensures var n := |actions| - 1; NeverBack(s, actions[..n], states[..n]) && !BackAt(s, actions, states, n)
  {
    var n := |actions| - 1;
    forall i | 0 <= i < n ensures !BackAt(s, actions[..n], states[..n], i) {
      assert states[..n][..i] == states[..i];
      assert !BackAt(s, actions, states, i);
    }
  }

  /** Where every crash comes with the file abreast and no drain goes back, nothing is forgotten. */
  lemma {:induction false} AbreastIsBilled(c: Config, s: Sys, actions: seq<Action>, states: seq<Sys>)
    requires Faithful(c.codec) && Billed(s) && Dated(s) && Run(c, s, actions, states)
    requires RunAbreast(c, s, actions, states) && NeverBack(s, actions, states)
    ensures NeverForgot(c, s, actions, states) && Billed(Last(s, states)) && Dated(Last(s, states))
    decreases |actions|
  {
    if actions != [] {
      var n := |actions| - 1;
      var before := Last(s, states[..n]);
      AbreastTo(c, s, actions, states);
      BackTo(s, actions, states);
      AbreastIsBilled(c, s, actions[..n], states[..n]);
      ForgotTo(c, s, actions, states);
      if Forgets(c, before, actions[n]) {
        AbreastForgets(c, before, actions[n]);
      }
      StepBilledIff(c, before, actions[n], states[n]);
    }
  }

  // ── and stays within the budget ────────────────────────────────────────────

  /** What fits is within the cap, exactly unless the cap is the most a count can be: then anything fits. */
  lemma FitsIff(cap: nat, used: nat, bytes: nat)
    requires cap <= U64_MAX
    ensures Fits(Some(cap), used, bytes) <==> used + bytes <= cap || cap == U64_MAX
  {
  }

  /** An upload sends no more than was ledgered. */
  predicate Sized(s: Sys, a: Action) {
    a.Send? && s.drain.Uploading? ==> |a.sent| <= s.drain.up.bytes
  }

  ghost predicate Capped(cap: nat, s: Sys) {
    && (s.drain.Uploading? ==> s.kept.mem.dayBytes + s.drain.up.bytes <= cap)
    && (s.drain.Sent? ==> s.kept.mem.dayBytes + s.drain.bytes <= cap)
    && (forall d :: On(s.uploaded, d) <= cap + On(Lost(s), d))
  }

  /** No day's uploads pass the cap by more than what was missed. */
  lemma EffectCaps(c: Config, cap: nat, e: Effect, s: Sys, t: Sys)
    requires c.cap == Some(cap) && cap < U64_MAX && Billed(s) && Dated(s) && Capped(cap, s) && Does(c, e, s, t)
    requires e.Made? ==> t.drain.bytes <= s.drain.up.bytes
    ensures Capped(cap, t)
  {
    if e.Made? {
      MadeCaps(c, cap, s, t);
    } else if e.Counts? {
      forall d: nat ensures On(t.uploaded, d) <= cap + On(Lost(t), d) {
        assert On(s.counted, d) == Billable(s, d);
      }
    }
  }

  lemma MadeCaps(c: Config, cap: nat, s: Sys, t: Sys)
    requires cap < U64_MAX && Billed(s) && Dated(s) && Capped(cap, s) && Does(c, Made, s, t)
    requires t.drain.bytes <= s.drain.up.bytes
    ensures Capped(cap, t)
  {
    forall d: nat ensures On(t.uploaded, d) <= cap + On(Lost(t), d) {
      assert On(s.counted, d) == Billable(s, d);
    }
  }

  ghost predicate SizedAt(s: Sys, actions: seq<Action>, states: seq<Sys>, i: nat)
    requires i < |actions| == |states|
  {
    Sized(Last(s, states[..i]), actions[i])
  }

  ghost predicate RunSized(s: Sys, actions: seq<Action>, states: seq<Sys>)
    requires |states| == |actions|
  {
    forall i :: 0 <= i < |actions| ==> SizedAt(s, actions, states, i)
  }

  lemma SizedTo(s: Sys, actions: seq<Action>, states: seq<Sys>)
    requires |actions| == |states| && actions != [] && RunSized(s, actions, states)
    ensures var n := |actions| - 1; RunSized(s, actions[..n], states[..n]) && SizedAt(s, actions, states, n)
  {
    var n := |actions| - 1;
    forall i | 0 <= i < n ensures SizedAt(s, actions[..n], states[..n], i) {
      assert states[..n][..i] == states[..i];
      assert SizedAt(s, actions, states, i);
    }
  }

  lemma SizedMade(c: Config, s: Sys, a: Action, e: Effect, t: Sys)
    requires Wf(s.kept.mem) && Step(c, s, a, t) && Sized(s, a) && Does(c, e, s, t) && (e.Made? ==> a.Send?)
    ensures e.Made? ==> t.drain.bytes <= s.drain.up.bytes
  {
  }

  /** A run that forgets nothing, and whose uploads are no larger than ledgered. */
  lemma {:induction false} RunIsCapped(c: Config, cap: nat, s: Sys, actions: seq<Action>, states: seq<Sys>)
    requires c.cap == Some(cap) && cap < U64_MAX && Fresh(s) && Run(c, s, actions, states)
    requires NeverForgot(c, s, actions, states) && RunSized(s, actions, states)
    ensures Capped(cap, Last(s, states)) && Billed(Last(s, states)) && Dated(Last(s, states))
    decreases |actions|
  {
    if actions != [] {
      var n := |actions| - 1;
      ForgotTo(c, s, actions, states);
      SizedTo(s, actions, states);
      RunIsCapped(c, cap, s, actions[..n], states[..n]);
      var before := Last(s, states[..n]);
      var e := StepDoes(c, before, actions[n], states[n]);
      SizedMade(c, before, actions[n], e, states[n]);
      EffectCaps(c, cap, e, before, states[n]);
      StepBilledIff(c, before, actions[n], states[n]);
    }
  }

  // ── what is missed ─────────────────────────────────────────────────────────

  /** A put that raced an upload, or a crash before the upload was recorded. */
  predicate Disturbs(c: Config, s: Sys, a: Action)
    requires Wf(s.kept.mem)
  {
    && s.drain.Sent?
    && match a
       case Account(out) => !StillPending(s.kept.mem, s.drain.up) || (out.Crashed? && !Survived(c, s, out))
       case LedgerPut(_, _, _, _, out) => Writes(c, s, a) != [] && out.Crashed?
       case Crash => true
       case _ => false
  }

  lemma WriteMisses(c: Config, s: Sys, a: Action, t: Sys)
    requires Wf(s.kept.mem) && Writing(a) && !a.Account? && Step(c, s, a, t)
    ensures t.unbilled == if Disturbs(c, s, a) then Lost(s) else s.unbilled
  {
  }

  lemma AccountMisses(c: Config, s: Sys, a: Action, t: Sys)
    requires Wf(s.kept.mem) && a.Account? && Step(c, s, a, t)
    ensures t.unbilled == if Disturbs(c, s, a) then Lost(s) else s.unbilled
  {
  }

  lemma RestMisses(c: Config, s: Sys, a: Action, t: Sys)
    requires Wf(s.kept.mem) && !Writing(a) && Step(c, s, a, t)
    ensures t.unbilled == if a.Crash? then Lost(s) else s.unbilled
  {
  }

  lemma Misses(c: Config, s: Sys, a: Action, t: Sys)
    requires Wf(s.kept.mem) && Step(c, s, a, t)
    ensures t.unbilled == if Disturbs(c, s, a) then Lost(s) else s.unbilled
  {
    if a.Account? {
      AccountMisses(c, s, a, t);
    } else if Writing(a) {
      WriteMisses(c, s, a, t);
    } else {
      RestMisses(c, s, a, t);
    }
  }

  /**
   A step misses the upload under way exactly if it is disturbed; and less what was
   missed the counts are right, exactly unless it forgets.
   */
  lemma MissedIff(c: Config, s: Sys, a: Action, t: Sys)
    requires Wf(s.kept.mem) && Billed(s) && Dated(s) && Step(c, s, a, t)
    ensures t.unbilled == if Disturbs(c, s, a) then Lost(s) else s.unbilled
    ensures Billed(t) <==> !Forgets(c, s, a)
  {
    StepBilledIff(c, s, a, t);
    Misses(c, s, a, t);
  }

  ghost predicate DisturbedAt(c: Config, s: Sys, actions: seq<Action>, states: seq<Sys>, i: nat)
    requires i < |actions| == |states|
  {
    var before := Last(s, states[..i]);
    Wf(before.kept.mem) && Disturbs(c, before, actions[i])
  }

  ghost predicate NeverDisturbed(c: Config, s: Sys, actions: seq<Action>, states: seq<Sys>)
    requires |actions| == |states|
  {
    forall i :: 0 <= i < |actions| ==> !DisturbedAt(c, s, actions, states, i)
  }

  lemma DisturbedTo(c: Config, s: Sys, actions: seq<Action>, states: seq<Sys>)
    requires |actions| == |states| && actions != [] && NeverDisturbed(c, s, actions, states)
    ensures var n := |actions| - 1;
            NeverDisturbed(c, s, actions[..n], states[..n]) && !DisturbedAt(c, s, actions, states, n)
  {
    var n := |actions| - 1;
    forall i | 0 <= i < n ensures !DisturbedAt(c, s, actions[..n], states[..n], i) {
      assert states[..n][..i] == states[..i];
      assert !DisturbedAt(c, s, actions, states, i);
    }
  }

  lemma {:induction false} NothingMissed(c: Config, s: Sys, actions: seq<Action>, states: seq<Sys>)
    requires Fresh(s) && Run(c, s, actions, states) && NeverDisturbed(c, s, actions, states)
    ensures Last(s, states).unbilled == map[]
    decreases |actions|
  {
    if actions != [] {
      var n := |actions| - 1;
      DisturbedTo(c, s, actions, states);
      NothingMissed(c, s, actions[..n], states[..n]);
      Misses(c, Last(s, states[..n]), actions[n], states[n]);
    }
  }

  /**
   So, where nothing is forgotten, none missed and no upload larger than ledgered:
   what was last counted for a day is what was uploaded then, but for an upload
   under way, and no day's uploads pass the cap.
   */
  lemma BudgetIsKept(c: Config, cap: nat, s: Sys, actions: seq<Action>, states: seq<Sys>, day: nat)
    requires c.cap == Some(cap) && cap < U64_MAX && Fresh(s) && Run(c, s, actions, states)
    requires NeverForgot(c, s, actions, states) && RunSized(s, actions, states)
    requires NeverDisturbed(c, s, actions, states)
    ensures var t := Last(s, states);
            && On(t.uploaded, day) == On(t.counted, day) + (if t.drain.Sent? && t.today == day then t.drain.bytes else 0)
            && t.kept.mem.dayBytes == On(t.counted, t.kept.mem.day)
            && On(t.uploaded, day) <= cap
  {
    NothingMissed(c, s, actions, states);
    RunIsCapped(c, cap, s, actions, states);
    var t := Last(s, states);
    assert On(t.counted, day) == Billable(t, day);
    assert On(Lost(t), day) == if t.drain.Sent? && day == t.today then t.drain.bytes else 0;
  }

  // ── a clock set back ───────────────────────────────────────────────────────

  lemma OneDay(m: Mem, day: nat, bytes: nat)
    ensures AppliedAll(m, [Day(day, bytes)]) == m.(day := day, dayBytes := bytes)
  {
    assert [Day(day, bytes)][..0] == [];
  }

  lemma DaySettles(c: Config, s: Sys) returns (t: Sys)
    requires Wf(s.kept.mem) && s.drain.Preparing? && s.drain.recs == [] && s.kept.mem.day != s.today
    ensures Step(c, s, Settle(Went(Fine)), t) && Wf(t.kept.mem)
    ensures t.kept.mem == s.kept.mem.(day := s.today, dayBytes := 0)
    ensures t == s.(kept := t.kept, since := t.since, counted := s.counted[s.today := 0], drain := Ordering(s.drain.now))
  {
    OneDay(s.kept.mem, s.today, 0);
    assert Prepared(s) == [Day(s.today, 0)];
    t := Wrote(c, s, [Day(s.today, 0)], Went(Fine), Ordering(s.drain.now), Resting, Lost(s));
  }

  /** A drain that finds nothing, on another day than the ledger's. */
  lemma EmptyDrain(c: Config, s0: Sys, s: Sys, day: nat) returns (t: Sys)
    requires Reaches(c, s0, s) && Wf(s.kept.mem) && s.kept.mem.entries == map[]
    requires s.drain.Resting? && s.kept.mem.day != day
    ensures Reaches(c, s0, t) && Wf(t.kept.mem) && t.kept.mem == s.kept.mem.(day := day, dayBytes := 0)
    ensures t.drain.Resting? && t.today == day && t.uploaded == s.uploaded && t.unbilled == s.unbilled
    ensures t.counted == s.counted[day := 0]
  {
    var now := day * SECS_PER_DAY;
    var one := s.(drain := Preparing(now, []), today := day);
    ReachesOn(c, s0, s, Begin(now), one);
    var two := DaySettles(c, one);
    ReachesOn(c, s0, one, Settle(Went(Fine)), two);
    assert PendingRels(two.kept.mem) == {};
    var three := two.(drain := Draining(now, []));
    ReachesOn(c, s0, two, Order, three);
    t := three.(drain := Resting);
    ReachesOn(c, s0, three, Finish, t);
  }

  /** A day on which `n` bytes were uploaded and counted, and nothing is left to upload. */
  function DayOf(c: Config, n: nat): Sys {
    var m := EMPTY.(day := 1, dayBytes := n);
    Sys(Kept(m, 0, false, c.codec.enc(Day(1, n)) + [NEWLINE]), map[], map[], map[], Resting, 1,
        map[1 := n], map[1 := n], map[])
  }

  lemma DayOfIsBilled(c: Config, n: nat)
    requires Faithful(c.codec) && n <= U64_MAX
    ensures Billed(DayOf(c, n)) && Dated(DayOf(c, n)) && InStep(c.codec, DayOf(c, n).kept)
  {
    ReplayLine(c.codec, c.codec.enc(Day(1, n)), START);
  }

  /** A drain on the day before and one back on it leave it counted as if nothing had been uploaded. */
  lemma ClockBackForgets(c: Config, n: nat) returns (t: Sys)
    requires Faithful(c.codec) && 0 < n <= U64_MAX
    ensures var s := DayOf(c, n); Billed(s) && Dated(s) && InStep(c.codec, s.kept) && Reaches(c, s, t)
    ensures t.kept.mem.day == t.today == 1 && t.kept.mem.dayBytes == 0 && On(t.uploaded, 1) == n && !Billed(t)
  {
    var s := DayOf(c, n);
    DayOfIsBilled(c, n);
    ReachesItself(c, s);
    var back := EmptyDrain(c, s, s, 0);
    t := EmptyDrain(c, s, back, 1);
    assert On(t.counted, 1) == 0 && On(t.uploaded, 1) == n;
  }
}
