/**
 The live relay's registry of watched runs (crates/dagron-api/src/relay.rs):
 what each run's watchers want read, counted, and given back when they go.
 */
module Watchers {
  import opened Common

  /** The tasks a watcher wants: all of them, or these, by id or by name. */
  type Keys = Option<seq<string>>

  function LowerChar(c: char): char {
    if 'A' <= c <= 'Z' then ((c as int) - ('A' as int) + ('a' as int)) as char else c
  }

  function Lower(s: string): string {
    seq(|s|, i requires 0 <= i < |s| => LowerChar(s[i]))
  }

  function Lowered(keys: seq<string>): (r: seq<string>)
    ensures |r| == |keys|
  {
    seq(|keys|, i requires 0 <= i < |keys| => Lower(keys[i]))
  }

  // ── counts ─────────────────────────────────────────────────────────────────

  type Counts = map<string, nat>

  /** `c` counts `m`: every key there with how often it is, and no other. */
  ghost predicate Tallies(c: Counts, m: multiset<string>) {
    && (forall k :: k in c <==> k in m)
    && (forall k <- c :: c[k] == m[k])
  }

  /** What a run's watchers want read. */
  datatype Want = Want(all: nat, keys: Counts, wanted: set<string>)

  const NOTHING := Want(0, map[], {})

  /** `want` is of `all` watchers of everything and `keys` of the rest. */
  ghost predicate WantIs(want: Want, all: nat, keys: multiset<string>) {
    want.all == all && Tallies(want.keys, keys) && want.wanted == want.keys.Keys
  }

  function Bumped(c: Counts, key: string): Counts {
    c[key := (if key in c then c[key] else 0) + 1]
  }

  /** One less; gone at none. A count is never taken below one. */
  function Dropped(c: Counts, key: string): Counts
    requires key in c ==> c[key] > 0
  {
    if key !in c then c else if c[key] == 1 then c - {key} else c[key := c[key] - 1]
  }

  lemma TakenNext(have: multiset<string>, keys: seq<string>, i: nat)
    requires i < |keys| && multiset(keys) <= have
    ensures keys[i] in have - multiset(keys[..i])
    ensures have - multiset(keys[..i + 1]) == have - multiset(keys[..i]) - multiset{keys[i]}
    ensures have + multiset(keys[..i + 1]) == have + multiset(keys[..i]) + multiset{keys[i]}
  {
    assert keys == keys[..i] + [keys[i]] + keys[i + 1..];
    assert keys[..i + 1] == keys[..i] + [keys[i]];
    assert multiset(keys)[keys[i]] >= multiset(keys[..i])[keys[i]] + 1;
  }

  method Add(want: Want, keys: Keys, ghost all: nat, ghost have: multiset<string>) returns (r: Want)
    requires WantIs(want, all, have)
    ensures keys.None? ==> WantIs(r, all + 1, have)
    ensures keys.Some? ==> WantIs(r, all, have + multiset(Lowered(keys.value)))
  {
    if keys.None? {
      return want.(all := want.all + 1);
    }
    var counts: Counts := want.keys;
    var lowered := Lowered(keys.value);
    for i := 0 to |lowered|
      invariant Tallies(counts, have + multiset(lowered[..i]))
    {
      TakenNext(multiset(lowered), lowered, i);
      assert lowered[..i + 1] == lowered[..i] + [lowered[i]];
      counts := Bumped(counts, lowered[i]);
    }
    assert lowered[..|lowered|] == lowered;
    r := Want(want.all, counts, counts.Keys);
  }

  /** The keys given back are counted: no count is below one when it is taken. */
  method Remove(want: Want, keys: Keys, ghost all: nat, ghost have: multiset<string>) returns (r: Want)
    requires WantIs(want, all, have)
    requires keys.None? ==> all > 0
    requires keys.Some? ==> multiset(Lowered(keys.value)) <= have
    ensures keys.None? ==> WantIs(r, all - 1, have)
    ensures keys.Some? ==> WantIs(r, all, have - multiset(Lowered(keys.value)))
  {
    if keys.None? {
      return want.(all := want.all - 1);
    }
    var counts: Counts := want.keys;
    var lowered := Lowered(keys.value);
    for i := 0 to |lowered|
      invariant Tallies(counts, have - multiset(lowered[..i]))
    {
      TakenNext(have, lowered, i);
      counts := Dropped(counts, lowered[i]);
    }
    assert lowered[..|lowered|] == lowered;
    r := Want(want.all, counts, counts.Keys);
  }

  // ── the registry ───────────────────────────────────────────────────────────

  /** A watched run; its channel's receivers are its streams'. */
  datatype Watched = Watched(want: Want, idleSince: Option<nat>, dirty: bool, epoch: nat)

  /** A stream's place among a run's watchers, until it is dropped: its receiver goes first. */
  datatype Guard = Guard(run: string, epoch: nat, keys: Keys, receiving: bool)

  type Guards = seq<Guard>

  predicate Of(g: Guard, run: string, epoch: nat) {
    g.run == run && g.epoch == epoch
  }

  function Receivers(guards: Guards, run: string, epoch: nat): nat {
    if guards == [] then 0
    else
      var g := guards[|guards| - 1];
      Receivers(guards[..|guards| - 1], run, epoch) + if Of(g, run, epoch) && g.receiving then 1 else 0
  }

  /** How many of an entry's live guards want everything. */
  ghost function Alls(guards: Guards, run: string, epoch: nat): nat {
    if guards == [] then 0
    else
      var g := guards[|guards| - 1];
      Alls(guards[..|guards| - 1], run, epoch) + if Of(g, run, epoch) && g.keys.None? then 1 else 0
  }

  ghost function KeysOf(g: Guard): multiset<string> {
    if g.keys.Some? then multiset(Lowered(g.keys.value)) else multiset{}
  }

  /** The keys an entry's live guards want, each as often as it is wanted. */
  ghost function AllKeys(guards: Guards, run: string, epoch: nat): multiset<string> {
    if guards == [] then multiset{}
    else
      var g := guards[|guards| - 1];
      AllKeys(guards[..|guards| - 1], run, epoch) + if Of(g, run, epoch) then KeysOf(g) else multiset{}
  }

  function Without(guards: Guards, i: nat): Guards
    requires i < |guards|
  {
    guards[..i] + guards[i + 1..]
  }

  lemma WithoutLast(guards: Guards, i: nat)
    requires i < |guards| - 1
    ensures var n := |guards| - 1;
            && |Without(guards, i)| == n && Without(guards, i)[n - 1] == guards[n]
            && Without(guards, i)[..n - 1] == Without(guards[..n], i)
  {
  }

  lemma {:induction false} WithoutOneAlls(guards: Guards, i: nat, run: string, epoch: nat)
    requires i < |guards|
    ensures Alls(guards, run, epoch)
         == Alls(Without(guards, i), run, epoch) + if Of(guards[i], run, epoch) && guards[i].keys.None? then 1 else 0
    decreases |guards|
  {
    var n := |guards| - 1;
    if i < n {
      WithoutOneAlls(guards[..n], i, run, epoch);
      WithoutLast(guards, i);
    } else {
      assert Without(guards, i) == guards[..n];
    }
  }

  lemma {:induction false} WithoutOneKeys(guards: Guards, i: nat, run: string, epoch: nat)
    requires i < |guards|
    ensures AllKeys(guards, run, epoch)
         == AllKeys(Without(guards, i), run, epoch) + if Of(guards[i], run, epoch) then KeysOf(guards[i]) else multiset{}
    decreases |guards|
  {
    var n := |guards| - 1;
    if i < n {
      WithoutOneKeys(guards[..n], i, run, epoch);
      WithoutLast(guards, i);
    } else {
      assert Without(guards, i) == guards[..n];
    }
  }

  /** A guard whose receiver is gone wants what it wanted. */
  lemma {:induction false} ReceivingOnly(guards: Guards, i: nat, run: string, epoch: nat)
    requires i < |guards|
    ensures var after := guards[i := guards[i].(receiving := false)];
            Alls(after, run, epoch) == Alls(guards, run, epoch) && AllKeys(after, run, epoch) == AllKeys(guards, run, epoch)
    decreases |guards|
  {
    var n := |guards| - 1;
    var after := guards[i := guards[i].(receiving := false)];
    if i < n {
      ReceivingOnly(guards[..n], i, run, epoch);
      assert after[..n] == guards[..n][i := guards[i].(receiving := false)];
    } else {
      assert after[..n] == guards[..n];
    }
  }

  /** Nobody holds a guard of an epoch not yet begun. */
  lemma {:induction false} NoneYet(guards: Guards, run: string, epoch: nat)
    requires forall g <- guards :: g.epoch < epoch
    ensures Alls(guards, run, epoch) == 0 && AllKeys(guards, run, epoch) == multiset{}
    decreases |guards|
  {
    if guards != [] {
      NoneYet(guards[..|guards| - 1], run, epoch);
      assert guards[|guards| - 1] in guards;
    }
  }

  /** The entry's count is exactly what its own epoch's live guards want. */
  ghost predicate Accounted(w: Watched, guards: Guards, run: string) {
    WantIs(w.want, Alls(guards, run, w.epoch), AllKeys(guards, run, w.epoch))
  }

  ghost predicate EpochsBelow(runs: map<string, Watched>, guards: Guards, epochs: nat) {
    && (forall run <- runs :: runs[run].epoch <= epochs)
    && (forall g <- guards :: g.epoch <= epochs)
  }

  ghost predicate Consistent(runs: map<string, Watched>, guards: Guards, epochs: nat, maxTails: nat) {
    && |runs| <= maxTails
    && EpochsBelow(runs, guards, epochs)
    && forall run {:trigger Accounted(runs[run], guards, run)} :: run in runs ==> Accounted(runs[run], guards, run)
  }

  predicate Idle(runs: map<string, Watched>, guards: Guards, run: string)
    requires run in runs
  {
    Receivers(guards, run, runs[run].epoch) == 0
  }

  /** No later than: a run not yet seen idle goes before any that was. */
  predicate NoLater(a: Option<nat>, b: Option<nat>) {
    a.None? || (b.Some? && a.value <= b.value)
  }

  /** The one to let go for another: idle, and for the longest. */
  predicate Longest(runs: map<string, Watched>, guards: Guards, run: string)
    requires run in runs
  {
    && Idle(runs, guards, run)
    && forall r <- runs :: Idle(runs, guards, r) ==> NoLater(runs[run].idleSince, runs[r].idleSince)
  }

  /** What `take` leaves of a run: nothing once it has been idle for the linger. */
  function Kept(w: Watched, idle: bool, now: nat, linger: nat): Option<Watched> {
    if !idle then Some(w.(idleSince := None))
    else
      var since := if w.idleSince.Some? then w.idleSince.value else now;
      if now < since + linger then Some(w.(idleSince := Some(since))) else None
  }

  function Retained(runs: map<string, Watched>, guards: Guards, now: nat, linger: nat): map<string, Watched> {
    map run | run in runs && Kept(runs[run], Idle(runs, guards, run), now, linger).Some?
      :: Kept(runs[run], Idle(runs, guards, run), now, linger).value
  }

  lemma LongestExists(runs: map<string, Watched>, guards: Guards, some: set<string>) returns (run: string)
    requires some != {} && some <= runs.Keys && forall r <- some :: Idle(runs, guards, r)
    requires forall r <- runs :: Idle(runs, guards, r) ==> r in some || exists s :: s in some && NoLater(runs[s].idleSince, runs[r].idleSince)
    ensures run in runs && Longest(runs, guards, run)
    decreases some
  {
    run :| run in some;
    if other :| other in some && other != run {
      if NoLater(runs[run].idleSince, runs[other].idleSince) {
        forall r | r in runs && Idle(runs, guards, r) && r !in some - {other}
          ensures exists s :: s in some - {other} && NoLater(runs[s].idleSince, runs[r].idleSince)
        {
          if r == other {
            assert run in some - {other};
          } else {
            var s :| s in some && NoLater(runs[s].idleSince, runs[r].idleSince);
            assert s != other || (run in some - {other} && NoLater(runs[run].idleSince, runs[r].idleSince));
          }
        }
        run := LongestExists(runs, guards, some - {other});
      } else {
        forall r | r in runs && Idle(runs, guards, r) && r !in some - {run}
          ensures exists s :: s in some - {run} && NoLater(runs[s].idleSince, runs[r].idleSince)
        {
          if r == run {
            assert other in some - {run};
          } else {
            var s :| s in some && NoLater(runs[s].idleSince, runs[r].idleSince);
            assert s != run || (other in some - {run} && NoLater(runs[other].idleSince, runs[r].idleSince));
          }
        }
        run := LongestExists(runs, guards, some - {run});
      }
    } else {
      assert some == {run};
    }
  }

  // ── what each step keeps ───────────────────────────────────────────────────

  lemma OthersAfterJoin(runs: map<string, Watched>, guards: Guards, epochs: nat, maxTails: nat, g: Guard)
    requires Consistent(runs, guards, epochs, maxTails) && g.run in runs && runs[g.run].epoch == g.epoch
    ensures OthersAccounted(runs, guards + [g], g.run)
  {
    forall run | run in runs && run != g.run ensures Accounted(runs[run], guards + [g], run) {
      assert Accounted(runs[run], guards, run);
    }
  }

  ghost predicate OthersAccounted(runs: map<string, Watched>, guards: Guards, but: string) {
    forall run {:trigger Accounted(runs[run], guards, run)} ::
      run in runs && run != but ==> Accounted(runs[run], guards, run)
  }

  /** One run's count made right, with the others' right already. */
  lemma SetKeeps(runs: map<string, Watched>, guards: Guards, epochs: nat, maxTails: nat, run: string, w: Watched)
    requires |runs| <= maxTails && EpochsBelow(runs, guards, epochs) && OthersAccounted(runs, guards, run)
    requires run in runs && w.epoch == runs[run].epoch && Accounted(w, guards, run)
    ensures Consistent(runs[run := w], guards, epochs, maxTails)
  {
    var runs' := runs[run := w];
    forall r | r in runs' ensures Accounted(runs'[r], guards, r) {
      if r != run {
        assert Accounted(runs[r], guards, r);
      }
    }
  }

  lemma OneMore(runs: map<string, Watched>, run: string, w: Watched)
    requires run !in runs
    ensures |runs[run := w]| == |runs| + 1
  {
    assert runs[run := w].Keys == runs.Keys + {run};
    assert |runs[run := w]| == |runs[run := w].Keys|;
  }

  lemma BeginKeeps(runs: map<string, Watched>, guards: Guards, epochs: nat, maxTails: nat, run: string)
    requires Consistent(runs, guards, epochs, maxTails) && run !in runs && |runs| < maxTails
    ensures Consistent(runs[run := Watched(NOTHING, None, true, epochs + 1)], guards, epochs + 1, maxTails)
  {
    var w := Watched(NOTHING, None, true, epochs + 1);
    NoneYet(guards, run, epochs + 1);
    OneMore(runs, run, w);
    var runs' := runs[run := w];
    forall r | r in runs' ensures Accounted(runs'[r], guards, r) {
      if r != run {
        assert Accounted(runs[r], guards, r);
      }
    }
  }

  lemma ReceiverKeeps(runs: map<string, Watched>, guards: Guards, epochs: nat, maxTails: nat, i: nat)
    requires Consistent(runs, guards, epochs, maxTails) && i < |guards|
    ensures Consistent(runs, guards[i := guards[i].(receiving := false)], epochs, maxTails)
  {
    forall run | run in runs
      ensures Accounted(runs[run], guards[i := guards[i].(receiving := false)], run)
    {
      assert Accounted(runs[run], guards, run);
      ReceivingOnly(guards, i, run, runs[run].epoch);
    }
  }

  /** Of a guard that goes, what its entry counts is what it gives back. */
  lemma GuardIsCounted(w: Watched, guards: Guards, i: nat, run: string)
    requires i < |guards| && Accounted(w, guards, run) && Of(guards[i], run, w.epoch)
    ensures guards[i].keys.None? ==> w.want.all > 0
    ensures guards[i].keys.Some? ==> multiset(Lowered(guards[i].keys.value)) <= AllKeys(guards, run, w.epoch)
  {
    WithoutOneAlls(guards, i, run, w.epoch);
    WithoutOneKeys(guards, i, run, w.epoch);
  }

  lemma AccountedAfterDrop(w: Watched, w': Watched, guards: Guards, i: nat, run: string)
    requires i < |guards| && Accounted(w, guards, run) && Of(guards[i], run, w.epoch) && w'.epoch == w.epoch
    requires guards[i].keys.None? && w.want.all > 0 ==>
               WantIs(w'.want, Alls(guards, run, w.epoch) - 1, AllKeys(guards, run, w.epoch))
    requires guards[i].keys.Some? ==>
               WantIs(w'.want, Alls(guards, run, w.epoch),
                      AllKeys(guards, run, w.epoch) - multiset(Lowered(guards[i].keys.value)))
    ensures Accounted(w', Without(guards, i), run)
  {
    WithoutOneAlls(guards, i, run, w.epoch);
    WithoutOneKeys(guards, i, run, w.epoch);
  }

  lemma AccountedElsewhere(w: Watched, guards: Guards, i: nat, run: string)
    requires i < |guards| && Accounted(w, guards, run) && !Of(guards[i], run, w.epoch)
    ensures Accounted(w, Without(guards, i), run)
  {
    WithoutOneAlls(guards, i, run, w.epoch);
    WithoutOneKeys(guards, i, run, w.epoch);
  }

  lemma OthersAfterDrop(runs: map<string, Watched>, guards: Guards, epochs: nat, maxTails: nat, i: nat)
    requires Consistent(runs, guards, epochs, maxTails) && i < |guards|
    ensures OthersAccounted(runs, Without(guards, i), guards[i].run)
    ensures EpochsBelow(runs, Without(guards, i), epochs)
  {
    forall run | run in runs && run != guards[i].run ensures Accounted(runs[run], Without(guards, i), run) {
      assert Accounted(runs[run], guards, run);
      AccountedElsewhere(runs[run], guards, i, run);
    }
  }

  /** A guard of another epoch than its run's entry: nothing of the entry's is its. */
  lemma StaleDropKeeps(runs: map<string, Watched>, guards: Guards, epochs: nat, maxTails: nat, i: nat)
    requires Consistent(runs, guards, epochs, maxTails) && i < |guards|
    requires guards[i].run in runs ==> runs[guards[i].run].epoch != guards[i].epoch
    ensures Consistent(runs, Without(guards, i), epochs, maxTails)
  {
    forall run | run in runs ensures Accounted(runs[run], Without(guards, i), run) {
      assert Accounted(runs[run], guards, run);
      AccountedElsewhere(runs[run], guards, i, run);
    }
  }

  /** Fewer entries, with the same counts, are as right. */
  lemma FewerKeeps(runs: map<string, Watched>, guards: Guards, epochs: nat, maxTails: nat, runs': map<string, Watched>)
    requires Consistent(runs, guards, epochs, maxTails) && runs'.Keys <= runs.Keys
    requires forall run <- runs' :: runs'[run].want == runs[run].want && runs'[run].epoch == runs[run].epoch
    ensures Consistent(runs', guards, epochs, maxTails)
  {
    SubsetSize(runs'.Keys, runs.Keys);
    assert |runs'| == |runs'.Keys| && |runs| == |runs.Keys|;
    forall run | run in runs' ensures Accounted(runs'[run], guards, run) {
      assert Accounted(runs[run], guards, run);
    }
  }

  ghost predicate SomeIdle(runs: map<string, Watched>, guards: Guards) {
    exists r :: r in runs && Idle(runs, guards, r)
  }

  /** One of the longest idle is let go. */
  ghost predicate LetGo(runs: map<string, Watched>, guards: Guards, runs': map<string, Watched>) {
    exists r :: r in runs && Longest(runs, guards, r) && runs' == runs - {r}
  }

  /** A new watcher changes what is wanted of its own run's entry, which keeps its epoch. */
  ghost predicate EnteredOnly(runs: map<string, Watched>, run: string, runs': map<string, Watched>) {
    && run in runs && run in runs'
    && runs'[run].epoch == runs[run].epoch && runs'[run].dirty && runs'[run].idleSince == None
    && runs' == runs[run := runs'[run]]
  }

  /** What a dropped guard changes: of its own entry what is wanted, of any other nothing. */
  ghost predicate GivenBack(runs: map<string, Watched>, g: Guard, runs': map<string, Watched>) {
    if g.run in runs && runs[g.run].epoch == g.epoch
    then exists want :: runs' == runs[g.run := runs[g.run].(want := want)]
    else runs' == runs
  }

  function Cleaned(kept: map<string, Watched>): map<string, Watched> {
    map run | run in kept :: kept[run].(dirty := false)
  }

  function TakenRuns(runs: map<string, Watched>, guards: Guards, now: nat, linger: nat): map<string, Watched> {
    Cleaned(Retained(runs, guards, now, linger))
  }

  function Work(kept: map<string, Watched>): map<string, Want> {
    map run | run in kept && kept[run].dirty :: kept[run].want
  }

  lemma TakeKeeps(runs: map<string, Watched>, guards: Guards, epochs: nat, maxTails: nat, now: nat, linger: nat)
    requires Consistent(runs, guards, epochs, maxTails)
    ensures Consistent(TakenRuns(runs, guards, now, linger), guards, epochs, maxTails)
  {
    FewerKeeps(runs, guards, epochs, maxTails, TakenRuns(runs, guards, now, linger));
  }

  /** A run somebody receives of stays; one goes only when it has been idle for the linger. */
  lemma TakenIff(runs: map<string, Watched>, guards: Guards, now: nat, linger: nat, run: string)
    requires run in runs
    ensures run in TakenRuns(runs, guards, now, linger)
       <==> !Idle(runs, guards, run)
            || now < (if runs[run].idleSince.Some? then runs[run].idleSince.value else now) + linger
    ensures run in TakenRuns(runs, guards, now, linger) ==>
              var w := TakenRuns(runs, guards, now, linger)[run];
              && w.want == runs[run].want && w.epoch == runs[run].epoch && !w.dirty
              && (w.idleSince.None? <==> !Idle(runs, guards, run))
  {
  }

  /** The relay's registry, and the streams that watch through it. */
  class Relay {
    const maxTails: nat
    const linger: nat
    var runs: map<string, Watched>
    var epochs: nat
    var guards: Guards

    ghost predicate Valid()
      reads this
    {
      maxTails > 0 && Consistent(runs, guards, epochs, maxTails)
    }

    constructor (maxTails: nat, linger: nat)
      requires maxTails > 0
      ensures Valid() && runs == map[] && guards == []
    {
      this.maxTails, this.linger := maxTails, linger;
      runs, epochs, guards := map[], 0, [];
    }

    /** Room for one more run: there is, or the run idle the longest makes it. */
    method MakeRoom() returns (ok: bool)
      requires Valid()
      modifies this`runs
      ensures Valid()
      ensures ok <==> |old(runs)| < maxTails || SomeIdle(old(runs), guards)
      ensures |old(runs)| < maxTails || !ok ==> runs == old(runs)
      ensures |old(runs)| >= maxTails && ok ==> LetGo(old(runs), guards, runs)
      ensures ok ==> |runs| < maxTails
    {
      if |runs| < maxTails {
        return true;
      }
      var idle := set r | r in runs && Idle(runs, guards, r);
      if idle == {} {
        assert forall r <- runs :: Idle(runs, guards, r) ==> r in idle;
        return false;
      }
      var one :| one in idle;
      assert SomeIdle(runs, guards);
      ghost var longest := LongestExists(runs, guards, idle);
      var r :| r in runs && Longest(runs, guards, r);
      var runs' := runs - {r};
      FewerKeeps(runs, guards, epochs, maxTails, runs');
      assert runs'.Keys == runs.Keys - {r};
      assert |runs'| == |runs'.Keys| == |runs| - 1;
      runs := runs';
      return true;
    }

    /** An entry for a run nobody watches yet, of an epoch of its own. */
    method Begin(run: string) returns (ok: bool)
      requires Valid() && run !in runs
      modifies this`runs, this`epochs
      ensures Valid()
      ensures ok <==> |old(runs)| < maxTails || SomeIdle(old(runs), guards)
      ensures ok ==> run in runs && runs[run].epoch == epochs > old(epochs)
      ensures !ok ==> runs == old(runs)
    {
      ok := MakeRoom();
      if ok {
        BeginKeeps(runs, guards, epochs, maxTails, run);
        epochs := epochs + 1;
        runs := runs[run := Watched(NOTHING, None, true, epochs)];
      }
    }

    /** One more stream watches a run that has an entry. */
    method Enter(run: string, keys: Keys)
      requires Valid() && run in runs
      modifies this`runs, this`guards
      ensures Valid()
      ensures guards == old(guards) + [Guard(run, old(runs)[run].epoch, keys, true)]
      ensures EnteredOnly(old(runs), run, runs)
    {
      var w := runs[run];
      assert Accounted(runs[run], guards, run);
      var want := Add(w.want, keys, Alls(guards, run, w.epoch), AllKeys(guards, run, w.epoch));
      var g := Guard(run, w.epoch, keys, true);
      var w' := Watched(want, None, true, w.epoch);
      OthersAfterJoin(runs, guards, epochs, maxTails, g);
      SetKeeps(runs, guards + [g], epochs, maxTails, run, w');
      guards := guards + [g];
      runs := runs[run := w'];
    }

    /** Watch `run`: the new guard is the last. Refused where no more may be watched. */
    method Join(run: string, keys: Keys) returns (joined: bool)
      requires Valid()
      modifies this
      ensures Valid()
      ensures joined <==> run in old(runs) || |old(runs)| < maxTails || SomeIdle(old(runs), old(guards))
      ensures joined ==> run in runs && runs[run].dirty && runs[run].idleSince == None
      ensures joined ==> guards == old(guards) + [Guard(run, runs[run].epoch, keys, true)]
      ensures run in old(runs) ==> EnteredOnly(old(runs), run, runs)
      ensures joined && run !in old(runs) ==> runs[run].epoch > old(epochs)
      ensures !joined ==> runs == old(runs) && guards == old(guards)
    {
      if run !in runs {
        joined := Begin(run);
        if !joined {
          return;
        }
      }
      Enter(run, keys);
      joined := true;
    }

    /** A stream's receiver goes. */
    method DropReceiver(i: nat)
      requires Valid() && i < |guards|
      modifies this`guards
      ensures Valid() && guards == old(guards)[i := old(guards)[i].(receiving := false)]
    {
      ReceiverKeeps(runs, guards, epochs, maxTails, i);
      guards := guards[i := guards[i].(receiving := false)];
    }

    /** And then its guard: what it wanted is given back to the entry it was added to, and to no other. */
    method DropGuard(i: nat)
      requires Valid() && i < |guards|
      modifies this`guards, this`runs
      ensures Valid() && guards == Without(old(guards), i)
      ensures GivenBack(old(runs), old(guards)[i], runs)
    {
      var g := guards[i];
      if g.run !in runs || runs[g.run].epoch != g.epoch {
        StaleDropKeeps(runs, guards, epochs, maxTails, i);
        guards := Without(guards, i);
        return;
      }
      var w := runs[g.run];
      assert Accounted(runs[g.run], guards, g.run);
      GuardIsCounted(w, guards, i, g.run);
      var want := Remove(w.want, g.keys, Alls(guards, g.run, w.epoch), AllKeys(guards, g.run, w.epoch));
      AccountedAfterDrop(w, w.(want := want), guards, i, g.run);
      OthersAfterDrop(runs, guards, epochs, maxTails, i);
      guards := Without(guards, i);
      SetKeeps(runs, guards, epochs, maxTails, g.run, w.(want := want));
      runs := runs[g.run := w.(want := want)];
    }

    /** The runs a pass reads, with what is wanted of each; the long idle let go. */
    method Take(now: nat) returns (work: map<string, Want>)
      requires Valid()
      modifies this`runs
      ensures Valid()
      ensures runs == TakenRuns(old(runs), guards, now, linger)
      ensures work == Work(Retained(old(runs), guards, now, linger))
    {
      var kept := Retained(runs, guards, now, linger);
      work := Work(kept);
      TakeKeeps(runs, guards, epochs, maxTails, now, linger);
      runs := Cleaned(kept);
    }

    method Mark(run: string) returns (watched: bool)
      requires Valid()
      modifies this`runs
      ensures Valid() && (watched <==> run in old(runs))
      ensures runs == if watched then old(runs)[run := old(runs)[run].(dirty := true)] else old(runs)
    {
      watched := run in runs;
      if watched {
        var runs' := runs[run := runs[run].(dirty := true)];
        assert runs'.Keys == runs.Keys;
        FewerKeeps(runs, guards, epochs, maxTails, runs');
        runs := runs';
      }
    }

    /** The relay stopped: every entry goes; the streams' guards stay until they are dropped. */
    method Clear()
      requires Valid()
      modifies this`runs
      ensures Valid() && runs == map[]
    {
      runs := map[];
    }
  }

  /** A pass wants a task exactly when a live watcher of the run's entry does. */
  predicate Wants(want: Want, id: string, name: string) {
    want.all > 0 || Lower(id) in want.wanted || Lower(name) in want.wanted
  }

  ghost predicate GuardWants(g: Guard, id: string, name: string) {
    g.keys.None? || Lower(id) in Lowered(g.keys.value) || Lower(name) in Lowered(g.keys.value)
  }

  lemma {:induction false} KeyWanted(guards: Guards, run: string, epoch: nat, key: string)
    ensures key in AllKeys(guards, run, epoch)
       <==> exists g :: g in guards && Of(g, run, epoch) && g.keys.Some? && key in Lowered(g.keys.value)
    decreases |guards|
  {
    if guards != [] {
      var n := |guards| - 1;
      KeyWanted(guards[..n], run, epoch, key);
      assert forall g <- guards :: g in guards[..n] || g == guards[n];
      assert guards[n] in guards;
    }
  }

  lemma {:induction false} AllWanted(guards: Guards, run: string, epoch: nat)
    ensures Alls(guards, run, epoch) > 0 <==> exists g :: g in guards && Of(g, run, epoch) && g.keys.None?
    decreases |guards|
  {
    if guards != [] {
      var n := |guards| - 1;
      AllWanted(guards[..n], run, epoch);
      assert forall g <- guards :: g in guards[..n] || g == guards[n];
      assert guards[n] in guards;
    }
  }

  lemma SnapshotWantsIff(w: Watched, guards: Guards, run: string, id: string, name: string)
    requires Accounted(w, guards, run)
    ensures Wants(w.want, id, name) <==> exists g :: g in guards && Of(g, run, w.epoch) && GuardWants(g, id, name)
  {
    AllWanted(guards, run, w.epoch);
    KeyWanted(guards, run, w.epoch, Lower(id));
    KeyWanted(guards, run, w.epoch, Lower(name));
  }
}
