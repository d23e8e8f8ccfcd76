/**
 The SQLite change pump (crates/dagron-api/src/stream.rs): what it reads of a
 log of run changes that keeps one row a run and is trimmed as it grows
 (crates/dagron-core/migrations/081_run_changes.sql), and where it goes on.
 */
module Pump {
  import opened Common

  type Run(==, !new)

  /** Every change made, oldest first: change `c` is numbered from 1, and is of run `log[c - 1]`. */
  type Log = seq<Run>

  /** The file at one read: its changes, and the runs a live stream shows. */
  datatype Db = Db(log: Log, live: seq<Run>)

  const RUN_CHANGES_KEPT := 65536
  const CHANGES_PER_READ := 4096
  const READS_PER_POLL := 8

  // ── the file ───────────────────────────────────────────────────────────────

  function RunAt(log: Log, c: nat): Run
    requires 0 < c <= |log|
  {
    log[c - 1]
  }

  /** A change writes its run's row again, so a run's row is its last change's. */
  predicate IsLast(log: Log, c: nat) {
    0 < c <= |log| && forall later :: c < later <= |log| ==> RunAt(log, later) != RunAt(log, c)
  }

  /** Each 1,024th change takes away the rows that many behind it. */
  function Trimmed(n: nat): int {
    n / 1024 * 1024 - RUN_CHANGES_KEPT
  }

  predicate IsRow(log: Log, c: nat) {
    IsLast(log, c) && c > Trimmed(|log|)
  }

  /** The rows past `after`, up to `upto`, in order. */
  function Rows(log: Log, after: nat, upto: nat): seq<nat> {
    if upto <= after then [] else Rows(log, after, upto - 1) + if IsRow(log, upto) then [upto] else []
  }

  datatype Changes = Behind | Since(rows: seq<nat>)

  function ChangesAfter(log: Log, after: nat): Changes {
    if after < |log| - RUN_CHANGES_KEPT || after > |log| then Behind
    else
      var rows := Rows(log, after, |log|);
      Since(rows[..Min(|rows|, CHANGES_PER_READ)])
  }

  // ── a poll ─────────────────────────────────────────────────────────────────

  /** The place read up to, none before a first read or where it was lost; and the runs to send. */
  datatype Place = Place(at: Option<nat>, runs: seq<Run>)

  function Add(runs: seq<Run>, run: Run): seq<Run> {
    if run in runs then runs else runs + [run]
  }

  function AddAll(runs: seq<Run>, more: seq<Run>): seq<Run>
    decreases |more|
  {
    if more == [] then runs else Add(AddAll(runs, more[..|more| - 1]), more[|more| - 1])
  }

  function RunsOf(log: Log, rows: seq<nat>): seq<Run>
    requires forall c <- rows :: 0 < c <= |log|
  {
    seq(|rows|, i requires 0 <= i < |rows| => assert rows[i] in rows; RunAt(log, rows[i]))
  }

  predicate Rising(rows: seq<nat>) {
    forall i, j :: 0 <= i < j < |rows| ==> rows[i] < rows[j]
  }

  lemma RisesTo(rows: seq<nat>, next: nat)
    requires Rising(rows) && forall c <- rows :: c < next
    ensures Rising(rows + [next]) && forall c :: c in rows + [next] <==> c in rows || c == next
  {
    var all := rows + [next];
    forall i, j | 0 <= i < j < |all| ensures all[i] < all[j] {
      if j == |rows| {
        assert rows[i] in rows;
      }
    }
  }

  lemma {:induction false} RowsAre(log: Log, after: nat, upto: nat)
    requires upto <= |log|
    ensures var rows := Rows(log, after, upto);
            Rising(rows) && forall c :: c in rows <==> after < c <= upto && IsRow(log, c)
    decreases upto
  {
    if after < upto {
      RowsAre(log, after, upto - 1);
      RisesTo(Rows(log, after, upto - 1), upto);
    }
  }

  lemma SinceAre(log: Log, after: nat)
    requires ChangesAfter(log, after).Since?
    ensures forall c <- ChangesAfter(log, after).rows :: after < c <= |log|
  {
    RowsAre(log, after, |log|);
    var (all, rows) := (Rows(log, after, |log|), ChangesAfter(log, after).rows);
    assert forall i :: 0 <= i < |rows| ==> rows[i] == all[i] && all[i] in all;
  }

  /** One read: the live runs where there is no place to go on from; and whether it was the poll's last. */
  function ReadOne(db: Db, s: Place): (Place, bool) {
    if s.at.None? then (Place(Some(|db.log|), AddAll(s.runs, db.live)), false)
    else
      match ChangesAfter(db.log, s.at.value)
      case Behind => (s.(at := None), false)
      case Since(rows) =>
        SinceAre(db.log, s.at.value);
        (Place(if rows == [] then s.at else Some(rows[|rows| - 1]), AddAll(s.runs, RunsOf(db.log, rows))),
         |rows| < CHANGES_PER_READ)
  }

  /** The reads of a poll, each of the file as it then is; none where one fails. */
  function Reads(dbs: seq<Option<Db>>, s: Place): Option<Place>
    decreases |dbs|
  {
    if dbs == [] then Some(s)
    else if dbs[0].None? then None
    else
      var (t, done) := ReadOne(dbs[0].value, s);
      if done then Some(t) else Reads(dbs[1..], t)
  }

  method ReadChanges(log: Log, rows: seq<nat>, at: nat, runs: seq<Run>) returns (s: Place)
    requires forall c <- rows :: 0 < c <= |log|
    ensures s == Place(Some(if rows == [] then at else rows[|rows| - 1]), AddAll(runs, RunsOf(log, rows)))
  {
    s := Place(Some(at), runs);
    var changed := RunsOf(log, rows);
    for i := 0 to |rows|
      invariant s == Place(Some(if i == 0 then at else rows[i - 1]), AddAll(runs, changed[..i]))
    {
      assert changed[..i + 1][..i] == changed[..i];
      s := Place(Some(rows[i]), Add(s.runs, changed[i]));
    }
    assert changed[..|rows|] == changed;
  }

  method AddLive(runs: seq<Run>, live: seq<Run>) returns (r: seq<Run>)
    ensures r == AddAll(runs, live)
  {
    r := runs;
    for i := 0 to |live|
      invariant r == AddAll(runs, live[..i])
    {
      assert live[..i + 1][..i] == live[..i];
      r := Add(r, live[i]);
    }
    assert live[..|live|] == live;
  }

  /** The pump between its polls. */
  class Listener {
    var cursor: Option<nat>

    constructor ()
      ensures cursor == None
    {
      cursor := None;
    }

    /** The runs to send, each once; a read that fails sends nothing, and the next poll reads it all again. */
    method ChangedRuns(dbs: seq<Option<Db>>) returns (runs: Option<seq<Run>>)
      requires |dbs| == READS_PER_POLL
      modifies this`cursor
      ensures match Reads(dbs, Place(old(cursor), []))
              case None => runs == None && cursor == old(cursor)
              case Some(s) => runs == Some(s.runs) && cursor == s.at
    {
      var s := Place(cursor, []);
      for i := 0 to |dbs|
        invariant cursor == old(cursor)
        invariant Reads(dbs, Place(old(cursor), [])) == Reads(dbs[i..], s)
      {
        assert dbs[i..][0] == dbs[i] && dbs[i..][1..] == dbs[i + 1..];
        if dbs[i].None? {
          return None;
        }
        var db := dbs[i].value;
        if s.at.None? {
          var live := AddLive(s.runs, db.live);
          s := Place(Some(|db.log|), live);
          continue;
        }
        match ChangesAfter(db.log, s.at.value) {
          case Behind => s := s.(at := None);
          case Since(rows) =>
            SinceAre(db.log, s.at.value);
            s := ReadChanges(db.log, rows, s.at.value, s.runs);
            if |rows| < CHANGES_PER_READ {
              cursor := s.at;
              return Some(s.runs);
            }
        }
      }
      assert dbs[|dbs|..] == [];
      cursor := s.at;
      runs := Some(s.runs);
    }
  }

  // ── what a poll sends ──────────────────────────────────────────────────────

  ghost predicate Distinct(runs: seq<Run>) {
    forall i, j :: 0 <= i < j < |runs| ==> runs[i] != runs[j]
  }

  lemma {:induction false} AddAllIs(runs: seq<Run>, more: seq<Run>)
    ensures forall run :: run in AddAll(runs, more) <==> run in runs || run in more
    ensures Distinct(runs) ==> Distinct(AddAll(runs, more))
    decreases |more|
  {
    if more != [] {
      AddAllIs(runs, more[..|more| - 1]);
      assert more == more[..|more| - 1] + [more[|more| - 1]];
    }
  }

  /** However often a run changed, a poll sends it once. */
  lemma {:induction false} SentOnce(dbs: seq<Option<Db>>, s: Place)
    requires Distinct(s.runs) && Reads(dbs, s).Some?
    ensures Distinct(Reads(dbs, s).value.runs) && forall run <- s.runs :: run in Reads(dbs, s).value.runs
    decreases |dbs|
  {
    if dbs != [] {
      var db := dbs[0].value;
      var (t, done) := ReadOne(db, s);
      if s.at.None? {
        AddAllIs(s.runs, db.live);
      } else if ChangesAfter(db.log, s.at.value).Since? {
        SinceAre(db.log, s.at.value);
        AddAllIs(s.runs, RunsOf(db.log, ChangesAfter(db.log, s.at.value).rows));
      }
      if !done {
        SentOnce(dbs[1..], t);
      }
    }
  }

  // ── what is told ───────────────────────────────────────────────────────────

  /** A change a read tells of: its run's row is read, at that change or a later one; or every live run is. */
  ghost predicate Tells(db: Db, s: Place, c: nat) {
    && 0 < c <= |db.log|
    && (s.at.None?
        || (ChangesAfter(db.log, s.at.value).Since?
            && exists row :: c <= row <= |db.log| && row in ChangesAfter(db.log, s.at.value).rows
                             && RunAt(db.log, row) == RunAt(db.log, c)))
  }

  /** What is told by the reads of a poll that does not fail. */
  ghost function ToldBy(dbs: seq<Option<Db>>, s: Place, told: iset<nat>): iset<nat>
    decreases |dbs|
  {
    if dbs == [] || dbs[0].None? then told
    else
      var (t, done) := ReadOne(dbs[0].value, s);
      var more := told + iset c: nat | Tells(dbs[0].value, s, c);
      if done then more else ToldBy(dbs[1..], t, more)
  }

  /** Told of by a row, its run is sent; by a snapshot, every run live in it is. */
  lemma TellsSends(db: Db, s: Place, c: nat)
    requires Tells(db, s, c)
    ensures if s.at.None? then forall run <- db.live :: run in ReadOne(db, s).0.runs
            else RunAt(db.log, c) in ReadOne(db, s).0.runs
  {
    if s.at.None? {
      AddAllIs(s.runs, db.live);
    } else {
      var rows := ChangesAfter(db.log, s.at.value).rows;
      SinceAre(db.log, s.at.value);
      var row :| c <= row <= |db.log| && row in rows && RunAt(db.log, row) == RunAt(db.log, c);
      var i :| 0 <= i < |rows| && rows[i] == row;
      assert RunsOf(db.log, rows)[i] == RunAt(db.log, c);
      AddAllIs(s.runs, RunsOf(db.log, rows));
    }
  }

  /** Every change up to `k` is told of, or its run changed again past `k`, and is still to come. */
  ghost predicate Settled(log: Log, k: nat, told: iset<nat>) {
    k <= |log| && forall c {:trigger c in told} :: 0 < c <= k ==> c in told || ChangedPast(log, k, c)
  }

  ghost predicate ChangedPast(log: Log, k: nat, c: nat)
    requires 0 < c <= |log|
  {
    exists later :: k < later <= |log| && RunAt(log, later) == RunAt(log, c)
  }

  lemma SettledGrows(log: Log, log': Log, k: nat, told: iset<nat>, told': iset<nat>)
    requires Settled(log, k, told) && log <= log' && told <= told'
    ensures Settled(log', k, told')
  {
    forall c | 0 < c <= k && c !in told' ensures ChangedPast(log', k, c) {
      assert c !in told;
      var later :| k < later <= |log| && RunAt(log, later) == RunAt(log, c);
      assert RunAt(log', later) == RunAt(log', c);
    }
  }

  lemma {:induction false} LastChange(log: Log, c: nat, upto: nat) returns (last: nat)
    requires 0 < c <= upto <= |log|
    requires forall later :: upto < later <= |log| ==> RunAt(log, later) != RunAt(log, c)
    ensures c <= last <= upto && RunAt(log, last) == RunAt(log, c) && IsLast(log, last)
    decreases upto
  {
    if RunAt(log, upto) == RunAt(log, c) {
      return upto;
    }
    last := LastChange(log, c, upto - 1);
  }

  /** A change up to the read's last row: its run's row was read, or is past it. */
  lemma RowReadOrPast(log: Log, after: nat, c: nat, k: nat)
    requires ChangesAfter(log, after).Since?
    requires var rows := ChangesAfter(log, after).rows; rows != [] && k == rows[|rows| - 1]
    requires 0 < c <= |log| && c <= k && (c > after || ChangedPast(log, after, c))
    ensures 0 < k <= |log|
    ensures ChangedPast(log, k, c)
         || exists row :: c <= row <= |log| && row in ChangesAfter(log, after).rows && RunAt(log, row) == RunAt(log, c)
  {
    RowsAre(log, after, |log|);
    var all := Rows(log, after, |log|);
    var rows := ChangesAfter(log, after).rows;
    assert k in all;
    var last := LastChange(log, c, |log|);
    assert last > after;
    assert IsRow(log, last);
    if last <= k {
      var i :| 0 <= i < |all| && all[i] == last;
      assert all[|rows| - 1] == k;
      assert i < |rows|;
      assert rows[i] == last && last in rows;
    } else {
      assert RunAt(log, last) == RunAt(log, c);
    }
  }

  /** A read keeps its place settled: what it goes on from is told of, or still to come. */
  lemma ReadSettles(db: Db, s: Place, told: iset<nat>, told': iset<nat>)
    requires s.at.Some? && s.at.value <= |db.log| ==> Settled(db.log, s.at.value, told)
    requires told' == told + iset c: nat | Tells(db, s, c)
    ensures var at := ReadOne(db, s).0.at; at.Some? ==> Settled(db.log, at.value, told')
  {
    var at := ReadOne(db, s).0.at;
    if s.at.Some? && ChangesAfter(db.log, s.at.value).Since? {
      SinceAre(db.log, s.at.value);
      var (after, k, rows) := (s.at.value, at.value, ChangesAfter(db.log, s.at.value).rows);
      if rows == [] {
        SettledGrows(db.log, db.log, k, told, told');
      } else {
        assert k in rows;
        forall c | 0 < c <= k && c !in told' ensures ChangedPast(db.log, k, c) {
          assert c !in told && !Tells(db, s, c);
          RowReadOrPast(db.log, after, c, k);
        }
      }
    }
  }

  /** A read that was not full has read to the end: everything is told of. */
  lemma NotFullIsAll(db: Db, s: Place)
    requires s.at.Some? && ReadOne(db, s).1
    ensures ReadOne(db, s).0.at == Some(|db.log|)
  {
    var (log, after) := (db.log, s.at.value);
    RowsAre(log, after, |log|);
    var all := Rows(log, after, |log|);
    assert ChangesAfter(log, after).rows == all;
    if after < |log| {
      assert IsRow(log, |log|);
      var i :| 0 <= i < |all| && all[i] == |log|;
      assert all[|all| - 1] in all;
    }
  }

  // ── any run of it ──────────────────────────────────────────────────────────

  /** The file, the pump's cursor, and which changes were told of. */
  datatype World = World(log: Log, cursor: Option<nat>, told: iset<nat>)

  datatype Action =
    | Change(run: Run)
    | Poll(dbs: seq<Option<Db>>)
    | Restore(kept: nat)

  /** The file only grows while a poll reads it. */
  ghost predicate Growing(log: Log, dbs: seq<Option<Db>>, last: Log)
    decreases |dbs|
  {
    if dbs == [] then log <= last
    else if dbs[0].None? then log <= last
    else log <= dbs[0].value.log <= last && Growing(dbs[0].value.log, dbs[1..], last)
  }

  ghost predicate Step(w: World, a: Action, w': World) {
    match a
    case Change(run) => w' == w.(log := w.log + [run])
    case Poll(dbs) =>
      && |dbs| == READS_PER_POLL && Growing(w.log, dbs, w'.log)
      && (match Reads(dbs, Place(w.cursor, []))
          case None => w' == w.(log := w'.log)
          case Some(s) => w' == World(w'.log, s.at, ToldBy(dbs, Place(w.cursor, []), w.told)))
    case Restore(kept) =>
      kept <= |w.log| && w' == w.(log := w.log[..kept], told := iset c | c in w.told && c <= kept)
  }

  /** The cursor is past the newest change, as after an older copy of the file is put back. */
  predicate Ahead(log: Log, cursor: Option<nat>) {
    cursor.Some? && cursor.value > |log|
  }

  /** A file put back from an older copy is not written up to the cursor before it is read. */
  ghost predicate Timely(w: World, a: Action, w': World) {
    Ahead(w.log, w.cursor) ==>
      match a
      case Change(_) => Ahead(w'.log, w.cursor)
      case Poll(dbs) => if Reads(dbs, Place(w.cursor, [])).None? then Ahead(w'.log, w.cursor)
                        else dbs != [] && dbs[0].Some? && Ahead(dbs[0].value.log, w.cursor)
      case Restore(_) => true
  }

  /** An older copy is put back below the cursor, or where all below the cursor is told of. */
  ghost predicate Fresh(w: World, a: Action) {
    a.Restore? && w.cursor.Some? ==>
      a.kept < w.cursor.value || forall c {:trigger c in w.told} :: 0 < c <= w.cursor.value ==> c in w.told
  }

  /** Up to the cursor everything is told of, or still to come. */
  ghost predicate Inv(w: World) {
    w.cursor.Some? && w.cursor.value <= |w.log| ==> Settled(w.log, w.cursor.value, w.told)
  }

  lemma {:induction false} PollSettles(log: Log, dbs: seq<Option<Db>>, last: Log, s: Place, told: iset<nat>)
    requires Growing(log, dbs, last) && Reads(dbs, s).Some?
    requires s.at.Some? ==> Settled(log, s.at.value, told) || (dbs != [] && dbs[0].Some? && Ahead(dbs[0].value.log, s.at))
    ensures var at := Reads(dbs, s).value.at; at.Some? ==> Settled(last, at.value, ToldBy(dbs, s, told))
    decreases |dbs|
  {
    if dbs == [] {
      if s.at.Some? {
        SettledGrows(log, last, s.at.value, told, told);
      }
    } else {
      var db := dbs[0].value;
      var (t, done) := ReadOne(db, s);
      var told' := told + iset c: nat | Tells(db, s, c);
      if s.at.Some? && Settled(log, s.at.value, told) {
        SettledGrows(log, db.log, s.at.value, told, told);
      }
      ReadSettles(db, s, told, told');
      if done {
        SettledGrows(db.log, last, t.at.value, told', told');
      } else {
        PollSettles(db.log, dbs[1..], last, t, told');
      }
    }
  }

  /** Whatever happens, what is at or below the cursor is told of, or its run has changed again past it. */
  lemma StepKeeps(w: World, a: Action, w': World)
    requires Inv(w) && Step(w, a, w') && Timely(w, a, w') && Fresh(w, a)
    ensures Inv(w')
  {
    match a
    case Change(_) =>
      if w.cursor.Some? && w.cursor.value <= |w.log| {
        SettledGrows(w.log, w'.log, w.cursor.value, w.told, w.told);
      }
    case Restore(_) =>
    case Poll(dbs) =>
      if Reads(dbs, Place(w.cursor, [])).Some? {
        PollSettles(w.log, dbs, w'.log, Place(w.cursor, []), w.told);
      } else if w.cursor.Some? && w.cursor.value <= |w.log| {
        SettledGrows(w.log, w'.log, w.cursor.value, w.told, w.told);
      }
  }

  ghost predicate Ran(worlds: seq<World>, actions: seq<Action>) {
    && |worlds| == |actions| + 1
    && worlds[0] == World([], None, iset{})
    && forall i :: 0 <= i < |actions| ==> Moves(worlds, actions[i], i)
  }

  ghost predicate Moves(worlds: seq<World>, a: Action, i: nat)
    requires i + 1 < |worlds|
  {
    Step(worlds[i], a, worlds[i + 1]) && Timely(worlds[i], a, worlds[i + 1]) && Fresh(worlds[i], a)
  }

  lemma {:induction false} NothingIsLost(worlds: seq<World>, actions: seq<Action>, i: nat)
    requires Ran(worlds, actions) && i < |worlds|
    ensures Inv(worlds[i])
    decreases i
  {
    if i > 0 {
      NothingIsLost(worlds, actions, i - 1);
      assert Moves(worlds, actions[i - 1], i - 1);
      StepKeeps(worlds[i - 1], actions[i - 1], worlds[i]);
    }
  }

  /** The file as the poll's last read had it, where that read was not full. */
  function ReadToEnd(dbs: seq<Option<Db>>, s: Place): Option<Log>
    decreases |dbs|
  {
    if dbs == [] || dbs[0].None? then None
    else
      var (t, done) := ReadOne(dbs[0].value, s);
      if done then Some(dbs[0].value.log) else ReadToEnd(dbs[1..], t)
  }

  lemma {:induction false} CatchesUp(log: Log, dbs: seq<Option<Db>>, last: Log, s: Place, told: iset<nat>)
    requires Growing(log, dbs, last) && ReadToEnd(dbs, s).Some?
    requires s.at.Some? ==> Settled(log, s.at.value, told) || (dbs != [] && dbs[0].Some? && Ahead(dbs[0].value.log, s.at))
    ensures forall c :: 0 < c <= |ReadToEnd(dbs, s).value| ==> c in ToldBy(dbs, s, told)
    decreases |dbs|
  {
    var db := dbs[0].value;
    var (t, done) := ReadOne(db, s);
    var told' := told + iset c: nat | Tells(db, s, c);
    if s.at.Some? && Settled(log, s.at.value, told) {
      SettledGrows(log, db.log, s.at.value, told, told);
    }
    ReadSettles(db, s, told, told');
    if done {
      NotFullIsAll(db, s);
    } else {
      CatchesUp(db.log, dbs[1..], last, t, told');
    }
  }

  /** A poll that read to the end leaves no change of the file, as it then was, untold. */
  lemma PollTellsAll(w: World, dbs: seq<Option<Db>>, w': World, c: nat)
    requires Inv(w) && Step(w, Poll(dbs), w') && Timely(w, Poll(dbs), w')
    requires Reads(dbs, Place(w.cursor, [])).Some? && ReadToEnd(dbs, Place(w.cursor, [])).Some?
    requires 0 < c <= |ReadToEnd(dbs, Place(w.cursor, [])).value|
    ensures c in w'.told
  {
    CatchesUp(w.log, dbs, w'.log, Place(w.cursor, []), w.told);
  }

  // ── a file put back ────────────────────────────────────────────────────────

  /** Told of by a read, or by the read of the live runs it asks for. */
  ghost predicate ToldWithin(db: Db, s: Place, c: nat) {
    Tells(db, s, c) || (ReadOne(db, s).0.at.None? && Tells(db, ReadOne(db, s).0, c))
  }

  /**
   A change at or below the cursor whose run has not changed since is told of
   by the next read that succeeds exactly when the cursor is past the file's
   newest change, or more changes behind it than are kept.
   */
  lemma BelowCursorIsToldIff(db: Db, cursor: nat, c: nat)
    requires 0 < c <= cursor && IsLast(db.log, c)
    ensures ToldWithin(db, Place(Some(cursor), []), c) <==> cursor > |db.log| || cursor < |db.log| - RUN_CHANGES_KEPT
  {
    if ChangesAfter(db.log, cursor).Since? {
      SinceAre(db.log, cursor);
    }
  }

  /** So a file put back and written up to the cursor before a poll has changes that poll never tells of. */
  lemma RestoredAndGrownLoses(a: Run, b: Run, x: Run)
    requires a != b && b != x && a != x
    ensures var log := [a, x];
            && IsLast(log, 2)
            && Reads([Some(Db(log, [a, x]))], Place(Some(2), [])) == Some(Place(Some(2), []))
            && log == ([a, b][..1] + [x])
  {
    var log := [a, x];
    assert Rows(log, 2, 2) == [];
    assert AddAll([], []) == [];
    assert RunsOf(log, []) == [];
  }
}
