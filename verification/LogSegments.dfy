/**
 A task's log in segments (crates/dagron-artifact/src/log_segments.rs): a
 reader that counts the closed segments and then reads, while the engine's log
 batch (crates/dagron-engine/src/log_batch.rs) appends and closes beneath it.
 */
module LogSegments {
  import opened Common

  /** What one writing of a log is kept as, and what the batch is doing to it; a segment is of about `size` bytes. */
  datatype World = World(
    size: nat, inRow: bool, log: Bytes, segs: map<nat, Bytes>, opens: map<nat, Bytes>, row: Bytes,
    recorded: nat, closes: nat, writer: Writer)

  /** A close puts its pieces and writes the rest as the next open part; then the open parts before the last go. */
  datatype Writer =
    | Idle
    | Closing(pieces: seq<Bytes>, rest: Bytes, put: nat, ready: bool)
    | Removing(next: nat, below: nat)

  datatype Action =
    | Append(text: Bytes)
    | Close(pieces: seq<Bytes>, rest: Bytes)
    | Put
    | WriteOpen
    | Record
    | RemoveOpen
    | GiveUp

  predicate Has(segs: map<nat, Bytes>, n: nat) {
    forall i: nat :: i < n ==> i in segs
  }

  /** The first `n` segments' text. */
  function Joined(segs: map<nat, Bytes>, n: nat): Bytes
    requires Has(segs, n)
  {
    if n == 0 then [] else Joined(segs, n - 1) + segs[n - 1]
  }

  /** What is not in a closed segment yet. */
  function Open(w: World): Bytes {
    if w.inRow then w.row else if w.recorded in w.opens then w.opens[w.recorded] else []
  }

  function WithOpen(w: World, text: Bytes): World {
    if w.inRow then w.(row := text) else w.(opens := w.opens[w.recorded := text])
  }

  ghost predicate Step(w: World, a: Action, w': World) {
    match a
    case Append(text) =>
      w.writer.Idle? && w' == WithOpen(w, Open(w) + text).(log := w.log + text)
    case Close(pieces, rest) =>
      && w.writer.Idle? && |Open(w)| >= w.size && Open(w) != []
      && pieces != [] && Flat(pieces) + rest == Open(w) && |rest| < w.size
      && w' == w.(writer := Closing(pieces, rest, 0, false))
    case Put =>
      && w.writer.Closing? && w.writer.put < |w.writer.pieces|
      && w' == w.(segs := w.segs[w.recorded + w.writer.put := w.writer.pieces[w.writer.put]],
                  writer := w.writer.(put := w.writer.put + 1))
    case WriteOpen =>
      && w.writer.Closing? && !w.inRow
      && w' == w.(opens := w.opens[w.recorded + |w.writer.pieces| := w.writer.rest],
                  writer := w.writer.(ready := true))
    case Record =>
      && w.writer.Closing? && w.writer.put == |w.writer.pieces| && (w.inRow || w.writer.ready)
      && w' == w.(recorded := w.recorded + |w.writer.pieces|, closes := w.closes + 1,
                  row := if w.inRow then w.writer.rest else w.row,
                  writer := if w.inRow then Idle else Removing(0, w.recorded))
    case RemoveOpen =>
      && w.writer.Removing? && w.writer.next < w.writer.below
      && w' == w.(opens := w.opens - {w.writer.next}, writer := w.writer.(next := w.writer.next + 1))
    case GiveUp => w' == w.(writer := Idle)
  }

  // ── what every step keeps ──────────────────────────────────────────────────

  /** The segments recorded and the open part are the log. */
  ghost predicate Whole(w: World) {
    Has(w.segs, w.recorded) && w.log == Joined(w.segs, w.recorded) + Open(w)
  }

  predicate PutAt(segs: map<nat, Bytes>, n: nat, pieces: seq<Bytes>, i: nat)
    requires i < |pieces|
  {
    n + i in segs && segs[n + i] == pieces[i]
  }

  /** The first `put` pieces are segments `n` on. */
  predicate Puts(segs: map<nat, Bytes>, n: nat, pieces: seq<Bytes>, put: nat) {
    put <= |pieces| && forall i: nat :: i < put ==> PutAt(segs, n, pieces, i)
  }

  /** A close under way puts what it will record, and nothing already recorded. */
  ghost predicate Sane(w: World) {
    && (w.recorded > 0 && !w.inRow ==> w.recorded in w.opens)
    && (w.recorded > 0 ==> w.log != [])
    && match w.writer
       case Idle => true
       case Closing(pieces, rest, put, ready) =>
         && pieces != [] && Open(w) != [] && Flat(pieces) + rest == Open(w) && put <= |pieces|
         && |Open(w)| >= w.size > |rest|
         && Puts(w.segs, w.recorded, pieces, put)
         && (ready ==> w.recorded + |pieces| in w.opens && w.opens[w.recorded + |pieces|] == rest)
       case Removing(_, below) => below < w.recorded
  }

  ghost predicate Inv(w: World) {
    Whole(w) && Sane(w)
  }

  lemma {:induction false} JoinedSame(a: map<nat, Bytes>, b: map<nat, Bytes>, n: nat)
    requires Has(a, n) && Has(b, n) && forall i: nat :: i < n ==> a[i] == b[i]
    ensures Joined(a, n) == Joined(b, n)
  {
    if n > 0 {
      JoinedSame(a, b, n - 1);
    }
  }

  lemma {:induction false} JoinedOn(segs: map<nat, Bytes>, n: nat, pieces: seq<Bytes>, k: nat)
    requires Has(segs, n) && Puts(segs, n, pieces, k)
    ensures Has(segs, n + k) && Joined(segs, n + k) == Joined(segs, n) + Flat(pieces[..k])
    decreases k
  {
    if k > 0 {
      JoinedOn(segs, n, pieces, k - 1);
      assert PutAt(segs, n, pieces, k - 1);
      var (at, flat, piece) := (Joined(segs, n), Flat(pieces[..k - 1]), pieces[k - 1]);
      assert pieces[..k] == pieces[..k - 1] + [piece];
      FlatOn(pieces[..k - 1], piece);
      assert Joined(segs, n + k) == at + flat + piece == at + (flat + piece);
    }
  }

  lemma RecordKeeps(w: World, w': World)
    requires Inv(w) && Step(w, Record, w')
    ensures Inv(w')
  {
    var pieces := w.writer.pieces;
    JoinedOn(w.segs, w.recorded, pieces, |pieces|);
    assert pieces[..|pieces|] == pieces;
    assert Joined(w.segs, w.recorded) + Flat(pieces) + w.writer.rest
        == Joined(w.segs, w.recorded) + (Flat(pieces) + w.writer.rest);
  }

  lemma StepKeeps(w: World, a: Action, w': World)
    requires Inv(w) && Step(w, a, w')
    ensures Inv(w')
  {
    match a
    case Append(text) =>
      assert Joined(w.segs, w.recorded) + Open(w) + text == Joined(w.segs, w.recorded) + (Open(w) + text);
    case Put =>
      JoinedSame(w.segs, w'.segs, w.recorded);
      var (pieces, put) := (w.writer.pieces, w.writer.put);
      forall i: nat | i < put + 1 ensures PutAt(w'.segs, w.recorded, pieces, i) {
        assert i < put ==> PutAt(w.segs, w.recorded, pieces, i);
      }
    case Record => RecordKeeps(w, w');
    case _ =>
  }

  // ── what a count still means later ─────────────────────────────────────────

  /** Of the log as it was at `u`, when its segments were counted, what is still there at `w`. */
  ghost predicate Since(u: World, w: World) {
    && Inv(u) && Inv(w) && w.inRow == u.inRow && w.size == u.size
    && u.log <= w.log && u.recorded <= w.recorded
    && (forall i: nat :: i < u.recorded ==> w.segs[i] == u.segs[i])
    && (w.closes == u.closes ==> w.recorded == u.recorded)
    && (w.closes > u.closes ==> w.recorded > u.recorded)
    && w.closes >= u.closes
    && Grown(u, w)
    && (!u.inRow ==> OpenSince(u, w))
  }

  /** A close leaves less than is closed, so a second one comes only of a log that grew. */
  predicate Grown(u: World, w: World) {
    && (w.closes == u.closes + 1 ==> |w.log| > |u.log| || |Open(w)| < w.size)
    && (w.closes >= u.closes + 2 ==> |w.log| > |u.log|)
  }

  /** The open part the count goes on to: no shorter than it was, and nothing else, until the second close. */
  ghost predicate OpenSince(u: World, w: World)
    requires Has(u.segs, u.recorded)
  {
    var (n, at) := (u.recorded, Joined(u.segs, u.recorded));
    && (n in w.opens ==> u.log <= at + w.opens[n] <= w.log)
    && (w.closes == u.closes + 1 ==> n in w.opens && (w.writer.Removing? ==> w.writer.below <= n))
  }

  lemma SinceItself(u: World)
    requires Inv(u)
    ensures Since(u, u)
  {
  }

  lemma AppendSince(u: World, w: World, text: Bytes, w': World)
    requires Since(u, w) && Step(w, Append(text), w') && !u.inRow
    ensures OpenSince(u, w')
  {
    var (n, at) := (u.recorded, Joined(u.segs, u.recorded));
    JoinedSame(u.segs, w.segs, n);
    if w.recorded == n {
      assert w'.log == at + w'.opens[n] by {
        assert at + Open(w) + text == at + (Open(w) + text);
      }
    }
  }

  lemma RecordSince(u: World, w: World, w': World)
    requires Since(u, w) && Step(w, Record, w') && !u.inRow
    ensures OpenSince(u, w')
  {
  }

  lemma StepSince(u: World, w: World, a: Action, w': World)
    requires Since(u, w) && Step(w, a, w')
    ensures Since(u, w')
  {
    StepKeeps(w, a, w');
    match a
    case Append(text) =>
      assert w.log <= w'.log;
      if !u.inRow {
        AppendSince(u, w, text, w');
      }
    case Record =>
      if !u.inRow {
        RecordSince(u, w, w');
      }
    case _ =>
  }

  // ── the reader ─────────────────────────────────────────────────────────────

  /** What a reader makes of it: the text; nothing kept here; or told that the log moved on. */
  datatype Got = Text(text: Bytes) | Nothing | Moved

  /**
   The first `n` segments, each as it is when its turn comes: `views` is the
   store at each of a reader's steps.
   */
  function Gathered(n: nat, views: seq<World>): Option<Bytes>
    requires n <= |views|
  {
    if n == 0 then Some([])
    else
      var before := Gathered(n - 1, views);
      if before.None? || n - 1 !in views[n - 1].segs then None
      else Some(before.value + views[n - 1].segs[n - 1])
  }

  /**
   The whole log as a reader makes it that counted `u.recorded` segments and
   read the row with the count: the segments, the open part, and the row's text.
   */
  function Assembled(u: World, views: seq<World>): Got
    requires |views| == u.recorded + 2
  {
    var n := u.recorded;
    match Gathered(n, views)
    case None => Moved
    case Some(text) =>
      if u.inRow then if n == 0 then Nothing else Text(text + u.row)
      else if n in views[n].opens then Text(text + views[n].opens[n] + u.row)
      else if n > 0 || 0 in views[n + 1].segs then Moved
      else Nothing
  }

  method Assemble(u: World, views: seq<World>) returns (got: Got)
    requires |views| == u.recorded + 2
    ensures got == Assembled(u, views)
  {
    var n := u.recorded;
    if n == 0 && u.inRow {
      return Nothing;
    }
    var text: Bytes := [];
    for i := 0 to n
      invariant Gathered(i, views) == Some(text)
    {
      if i !in views[i].segs {
        GatheredNone(i + 1, n, views);
        return Moved;
      }
      text := text + views[i].segs[i];
    }
    if !u.inRow {
      if n in views[n].opens {
        text := text + views[n].opens[n];
      } else if n > 0 || 0 in views[n + 1].segs {
        return Moved;
      } else {
        return Nothing;
      }
    }
    got := Text(text + u.row);
  }

  lemma {:induction false} GatheredNone(i: nat, n: nat, views: seq<World>)
    requires i <= n <= |views| && Gathered(i, views).None?
    ensures Gathered(n, views).None?
    decreases n
  {
    if i < n {
      GatheredNone(i, n - 1, views);
    }
  }

  // ── reader against closer ──────────────────────────────────────────────────

  lemma {:induction false} GathersAll(u: World, views: seq<World>, n: nat)
    requires n <= |views| && n <= u.recorded && forall i :: 0 <= i < n ==> Since(u, views[i])
    ensures Has(u.segs, n) && Gathered(n, views) == Some(Joined(u.segs, n))
    decreases n
  {
    if n > 0 {
      GathersAll(u, views, n - 1);
      assert Since(u, views[n - 1]);
    }
  }

  /** What a reader is entitled to: all that was logged when it counted, then at most what was logged since. */
  ghost predicate Faithful(u: World, looked: World, got: Got) {
    match got
    case Text(text) =>
      if u.inRow then text == u.log
      else exists log: Bytes :: u.log <= log <= looked.log && text == log + u.row
    case Nothing => u.recorded == 0 && (!u.inRow ==> looked.log == [])
    case Moved => !u.inRow && (looked.closes >= u.closes + 2 <==> looked.log != []) && (looked.log != [] ==> u.log < looked.log)
  }

  lemma ReadsFaithfully(u: World, views: seq<World>)
    requires Inv(u) && |views| == u.recorded + 2 && forall i :: 0 <= i < |views| ==> Since(u, views[i])
    requires Since(views[u.recorded], views[u.recorded + 1])
    ensures Faithful(u, views[u.recorded], Assembled(u, views))
  {
    var n := u.recorded;
    GathersAll(u, views, n);
    var at := Joined(u.segs, n);
    var looked := views[n];
    assert Since(u, looked);
    if !u.inRow {
      if n in looked.opens {
        var log := at + looked.opens[n];
        assert u.log <= log <= looked.log && at + looked.opens[n] + u.row == log + u.row;
      } else {
        assert looked.closes == u.closes ==> n == 0 && looked.log == [];
        if looked.closes >= u.closes + 2 {
          assert looked.recorded > n;
          assert 0 in looked.segs && 0 in views[n + 1].segs;
        }
      }
    }
  }

  // ── any interleaving ───────────────────────────────────────────────────────

  ghost predicate Run(states: seq<World>, actions: seq<Action>) {
    && |states| == |actions| + 1 && Inv(states[0])
    && forall i :: 0 <= i < |actions| ==> Follows(states, actions[i], i)
  }

  ghost predicate Follows(states: seq<World>, a: Action, i: nat)
    requires i + 1 < |states|
  {
    Step(states[i], a, states[i + 1])
  }

  lemma {:induction false} RunKeeps(states: seq<World>, actions: seq<Action>, i: nat)
    requires Run(states, actions) && i < |states|
    ensures Inv(states[i])
    decreases i
  {
    if i > 0 {
      RunKeeps(states, actions, i - 1);
      assert Follows(states, actions[i - 1], i - 1);
      StepKeeps(states[i - 1], actions[i - 1], states[i]);
    }
  }

  lemma {:induction false} RunSince(states: seq<World>, actions: seq<Action>, i: nat, j: nat)
    requires Run(states, actions) && i <= j < |states|
    ensures Since(states[i], states[j])
    decreases j
  {
    if i == j {
      RunKeeps(states, actions, i);
      SinceItself(states[i]);
    } else {
      RunSince(states, actions, i, j - 1);
      assert Follows(states, actions[j - 1], j - 1);
      StepSince(states[i], states[j - 1], actions[j - 1], states[j]);
    }
  }

  /** When a reader counts, at `times[0]`, and when it makes each of its steps after. */
  ghost predicate ReadAt(states: seq<World>, times: seq<nat>) {
    && times != [] && times[0] < |states| && (forall t <- times :: t < |states|)
    && (forall i, j :: 0 <= i < j < |times| ==> times[i] <= times[j])
    && |times| == states[times[0]].recorded + 3
  }

  function Views(states: seq<World>, times: seq<nat>): seq<World>
    requires times != [] && forall t <- times :: t < |states|
  {
    seq(|times| - 1, i requires 0 <= i < |times| - 1 => assert times[i + 1] in times; states[times[i + 1]])
  }

  /** Whatever the writer does between a reader's steps. */
  lemma ReaderAgainstCloser(states: seq<World>, actions: seq<Action>, times: seq<nat>)
    requires Run(states, actions) && ReadAt(states, times)
    ensures var (u, views) := (states[times[0]], Views(states, times));
            Faithful(u, views[u.recorded], Assembled(u, views))
  {
    var (u, views) := (states[times[0]], Views(states, times));
    RunKeeps(states, actions, times[0]);
    forall i | 0 <= i < |views| ensures Since(u, views[i]) {
      assert times[i + 1] in times && times[0] <= times[i + 1];
      RunSince(states, actions, times[0], times[i + 1]);
    }
    var n := u.recorded;
    assert times[n + 1] in times && times[n + 2] in times;
    RunSince(states, actions, times[n + 1], times[n + 2]);
    ReadsFaithfully(u, views);
  }

  /** A log not begun when its open part is looked for may be begun, and told of as moved on, with no close made. */
  lemma MovedWithoutClose(text: Bytes)
    requires text != []
    ensures var w0 := World(1, false, [], map[], map[], [], 0, 0, Idle);
            var w1 := w0.(log := text, opens := map[0 := text]);
            var w2 := w1.(writer := Closing([text], [], 0, false));
            var w3 := w2.(segs := map[0 := text], writer := Closing([text], [], 1, false));
            var states := [w0, w1, w2, w3];
            && Run(states, [Append(text), Close([text], []), Put])
            && Assembled(w0, [w0, w3]) == Moved && w3.closes == w0.closes
  {
    var w0 := World(1, false, [], map[], map[], [], 0, 0, Idle);
    var w1 := w0.(log := text, opens := map[0 := text]);
    assert [] + text == text;
    assert [text][1..] == [] && Flat([text]) == text + [] && text + [] == text;
    assert Step(w0, Append(text), w1);
  }
}
