/**
 The relay (crates/dagron-api/src/relay.rs) over a log in segments that is
 written and closed beneath it (crates/dagron-artifact/src/log_segments.rs):
 where each pass finds the log, what it reads, and what all of them send.
 */
module RelayLog {
  import opened Common
  import Segments = LogSegments
  import opened LayoutRead
  import opened Follow

  type World = Segments.World

  // ── where the log is ───────────────────────────────────────────────────────

  /** The task's row, as the statement of a pass reads it. */
  function RowOf(u: World, over: bool): LayoutRead.Tail
    requires Segments.Has(u.segs, u.recorded)
  {
    LayoutRead.Tail(over, |u.row|, 0, |Segments.Joined(u.segs, u.recorded)|, u.recorded)
  }

  /** What keeps it: the open part the statement counts up to, measured at `v`. */
  function KeeperOf(u: World, v: World): Keeper {
    if u.inRow then OpenInRow
    else OpenFile(if u.recorded in v.opens then Some(|v.opens[u.recorded]|) else None)
  }

  function LayoutOf(u: World, v: World, over: bool): Option<LayoutRead.Layout>
    requires Segments.Has(u.segs, u.recorded)
  {
    Of(KeeperOf(u, v), RowOf(u, over))
  }

  /** All that is logged is in the segments and the open part. */
  predicate Plain(u: World) {
    u.inRow || u.row == []
  }

  /** No segment was counted, and the open part is not there to be measured. */
  predicate Unmeasured(u: World, v: World) {
    !u.inRow && u.recorded == 0 && 0 !in v.opens
  }

  /**
   A layout counts all that was logged at the statement, and nothing that was
   not when its open part was measured. Two closes in between, of a log that grew
   meanwhile, and nothing else, have it told that the log moved on; or, none being
   counted, have it count nothing of what is there.
   */
  lemma LayoutCounts(u: World, v: World, over: bool)
    requires Segments.Since(u, v) && Plain(u)
    ensures var l := LayoutOf(u, v, over);
            match l
            case None => !u.inRow && u.recorded > 0 && v.closes >= u.closes + 2 && |u.log| < |v.log|
            case Some(l) =>
              && !l.output && l.Total() <= |v.log|
              && if Unmeasured(u, v) then l.Total() == 0 && (v.log != [] ==> v.closes >= u.closes + 2 && |u.log| < |v.log|)
                 else |u.log| <= l.Total()
  {
    var (n, at) := (u.recorded, Segments.Joined(u.segs, u.recorded));
    if !u.inRow && n in v.opens {
      assert u.log <= at + v.opens[n] <= v.log;
    }
  }

  // ── what a read finds ──────────────────────────────────────────────────────

  function SpansOf(segs: map<nat, Bytes>, n: nat): seq<Span>
    requires Segments.Has(segs, n)
  {
    if n == 0 then [] else SpansOf(segs, n - 1) + [Span(n - 1, |segs[n - 1]|)]
  }

  lemma {:induction false} SpansAre(segs: map<nat, Bytes>, n: nat)
    requires Segments.Has(segs, n)
    ensures forall s <- SpansOf(segs, n) :: s.number < n && s.bytes == |segs[s.number]|
  {
    if n > 0 {
      SpansAre(segs, n - 1);
    }
  }

  lemma {:induction false} SpansSum(segs: map<nat, Bytes>, n: nat)
    requires Segments.Has(segs, n)
    ensures SpanSum(SpansOf(segs, n)) == |Segments.Joined(segs, n)|
  {
    if n > 0 {
      SpansSum(segs, n - 1);
      SpanOn(SpansOf(segs, n - 1), Span(n - 1, |segs[n - 1]|));
    }
  }

  /** The segments a read asks for, each as it is. */
  function Recorded(segs: map<nat, Bytes>, n: nat): map<nat, Bytes> {
    map i | i in segs && i < n :: segs[i]
  }

  /** A read's finds: the spans at `w`, the segments at `x`, the open part at `y` and the row at `z`. */
  function HeldAt(u: World, w: World, x: World, y: World, z: World): Holds
    requires Segments.Has(w.segs, w.recorded) && Segments.Has(z.segs, z.recorded)
  {
    Holds(SpansOf(w.segs, w.recorded), Recorded(x.segs, w.recorded),
          if u.recorded in y.opens then Some(y.opens[u.recorded]) else None,
          RowRead.Row(|Segments.Joined(z.segs, z.recorded)|, z.row), None)
  }

  lemma {:induction false} ClosedSame(a: map<nat, Bytes>, b: map<nat, Bytes>, n: nat)
    requires Segments.Has(a, n) && Segments.Has(b, n)
    ensures (forall s <- SpansOf(a, n) :: s.number in b) && Closed(SpansOf(a, n), b) == Segments.Joined(b, n)
  {
    if n > 0 {
      ClosedSame(a, b, n - 1);
      ClosedOn(SpansOf(a, n - 1), Span(n - 1, |a[n - 1]|), b);
    }
  }

  lemma SpansWhole(a: map<nat, Bytes>, b: map<nat, Bytes>, n: nat)
    requires Segments.Has(a, n) && Segments.Has(b, n) && forall i: nat :: i < n ==> a[i] == b[i]
    ensures Whole(SpansOf(a, n), b) && Closed(SpansOf(a, n), b) == Segments.Joined(a, n)
  {
    SpansAre(a, n);
    ClosedSame(a, b, n);
    Segments.JoinedSame(a, b, n);
  }

  // ── a pass, as the writer goes on ──────────────────────────────────────────

  /**
   The log at each of a pass's steps: as it counts, as it measures the open
   part, and as it reads the spans, the segments, the open part and the row.
   */
  datatype Steps = Steps(counted: World, measured: World, spans: World, segments: World, open: World, row: World)

  function Nth(p: Steps, i: nat): World
    requires i < 6
  {
    if i == 0 then p.counted
    else if i == 1 then p.measured
    else if i == 2 then p.spans
    else if i == 3 then p.segments
    else if i == 4 then p.open
    else p.row
  }

  ghost predicate Later(p: Steps, i: nat, j: nat)
    requires i <= j < 6
  {
    Segments.Since(Nth(p, i), Nth(p, j))
  }

  /** The writer only goes on from each step to the next. */
  ghost predicate Glimpse(p: Steps) {
    Plain(p.counted) && forall i: nat, j: nat {:trigger Later(p, i, j)} :: i <= j < 6 ==> Later(p, i, j)
  }

  lemma SpansHeld(p: Steps)
    requires Glimpse(p)
    ensures Segments.Has(p.spans.segs, p.spans.recorded) && Segments.Has(p.row.segs, p.row.recorded)
    ensures var spans := SpansOf(p.spans.segs, p.spans.recorded);
            && Whole(spans, p.row.segs) && PlacedAt(p.row.log, 0, Closed(spans, p.row.segs))
            && OfWhole(Recorded(p.segments.segs, p.spans.recorded), p.row.segs)
  {
    var (w, z) := (p.spans, p.row);
    assert Later(p, 2, 3) && Later(p, 2, 5);
    SpansWhole(w.segs, z.segs, w.recorded);
    assert w.log == Segments.Joined(w.segs, w.recorded) + Segments.Open(w);
  }

  lemma LayoutHeld(p: Steps, over: bool)
    requires Glimpse(p)
    ensures Segments.Has(p.counted.segs, p.counted.recorded)
    ensures match LayoutOf(p.counted, p.measured, over)
            case None => p.measured.closes >= p.counted.closes + 2 && !Complete(p)
            case Some(l) =>
              && !l.output && l.Total() <= |p.row.log| && l.closed == |Segments.Joined(p.counted.segs, p.counted.recorded)|
              && (l.row > 0 ==> p.counted.inRow && l.open == 0) && (l.open > 0 ==> !p.counted.inRow)
              && (Complete(p) ==> l.Total() == |p.row.log|)
  {
    assert Later(p, 0, 1) && Later(p, 1, 5);
    LayoutCounts(p.counted, p.measured, over);
  }

  /** While no more is closed, the row goes on from the segments counted. */
  lemma RowHeld(p: Steps)
    requires Glimpse(p) && p.counted.inRow
    ensures Segments.Has(p.counted.segs, p.counted.recorded) && Segments.Has(p.row.segs, p.row.recorded)
    ensures var at := |Segments.Joined(p.counted.segs, p.counted.recorded)|;
            |Segments.Joined(p.row.segs, p.row.recorded)| == at ==> PlacedAt(p.row.log, at, p.row.row)
  {
    assert Later(p, 0, 5);
    assert p.row.log == Segments.Joined(p.row.segs, p.row.recorded) + p.row.row;
  }

  lemma OpenHeld(p: Steps, k: nat)
    requires Glimpse(p) && !p.counted.inRow && p.counted.recorded in p.open.opens && k <= |p.open.opens[p.counted.recorded]|
    ensures Segments.Has(p.counted.segs, p.counted.recorded)
    ensures PlacedAt(p.row.log, |Segments.Joined(p.counted.segs, p.counted.recorded)|, p.open.opens[p.counted.recorded][..k])
  {
    assert Later(p, 0, 4) && Later(p, 4, 5);
    PartPlaced(Segments.Joined(p.counted.segs, p.counted.recorded), p.open.opens[p.counted.recorded], p.open.log, p.row.log, k);
  }

  lemma PartPlaced(at: Bytes, open: Bytes, log: Bytes, longer: Bytes, k: nat)
    requires at + open <= log <= longer && k <= |open|
    ensures PlacedAt(longer, |at|, open[..k])
  {
    assert (at + open)[|at|..|at| + k] == open[..k];
  }

  /** Each part in its place. */
  lemma PartsHeld(u: World, w: World, x: World, y: World, z: World, l: LayoutRead.Layout)
    requires Segments.Has(w.segs, w.recorded) && Segments.Has(z.segs, z.recorded)
    requires l.Total() <= |z.log| && !l.output
    requires var spans := SpansOf(w.segs, w.recorded); Whole(spans, z.segs) && PlacedAt(z.log, 0, Closed(spans, z.segs))
    requires OfWhole(Recorded(x.segs, w.recorded), z.segs)
    requires l.row > 0 && |Segments.Joined(z.segs, z.recorded)| == l.closed ==> PlacedAt(z.log, l.closed + l.open, z.row)
    requires l.open > 0 && u.recorded in y.opens ==>
               PlacedAt(z.log, l.closed, y.opens[u.recorded][..Min(l.open, |y.opens[u.recorded]|)])
    ensures HeldOf(l, HeldAt(u, w, x, y, z), z.segs, z.log)
  {
  }

  /** Whatever the writer does meanwhile, what a read finds is the log's. */
  lemma HeldIsTheLogs(p: Steps, over: bool)
    requires Glimpse(p) && Segments.Has(p.counted.segs, p.counted.recorded) && LayoutOf(p.counted, p.measured, over).Some?
    ensures Segments.Has(p.spans.segs, p.spans.recorded) && Segments.Has(p.row.segs, p.row.recorded)
    ensures HeldOf(LayoutOf(p.counted, p.measured, over).value, HeldAt(p.counted, p.spans, p.segments, p.open, p.row), p.row.segs, p.row.log)
  {
    var l := LayoutOf(p.counted, p.measured, over).value;
    LayoutHeld(p, over);
    SpansHeld(p);
    if l.row > 0 {
      RowHeld(p);
    }
    if l.open > 0 && p.counted.recorded in p.open.opens {
      OpenHeld(p, Min(l.open, |p.open.opens[p.counted.recorded]|));
    }
    PartsHeld(p.counted, p.spans, p.segments, p.open, p.row, l);
  }

  // ── what a pass is told ────────────────────────────────────────────────────

  function Heard(got: LayoutRead.Got): Follow.Got {
    match got
    case Took(bytes) => Follow.Got.Took(bytes)
    case Gone => Follow.Got.Gone
    case Moved => Follow.Got.Moved
  }

  /** The log is all there as the pass counts. */
  predicate Complete(p: Steps) {
    p.row.log == p.counted.log
  }

  /** Every part that was counted is found. */
  ghost predicate AllFound(p: Steps, over: bool) {
    && Segments.Has(p.counted.segs, p.counted.recorded) && Segments.Has(p.spans.segs, p.spans.recorded)
    && Segments.Has(p.row.segs, p.row.recorded)
    && LayoutOf(p.counted, p.measured, over).Some?
    && HeldWhole(LayoutOf(p.counted, p.measured, over).value, HeldAt(p.counted, p.spans, p.segments, p.open, p.row))
  }

  /** No more than there is, and what is read is the log's. */
  ghost predicate Tells(seen: Seen, log: Bytes, from: nat -> (nat, nat)) {
    seen.Layout? ==> seen.total <= |log| && Reads(seen.read, log, from(seen.total).0, from(seen.total).1)
  }

  /** Where the log is, and what is read of it: `from` says from where and how much, given its total. */
  method See(p: Steps, over: bool, from: nat -> (nat, nat)) returns (seen: Seen)
    requires Glimpse(p)
    ensures Tells(seen, p.row.log, from)
    ensures seen.Layout? && Complete(p) ==> seen.total == |p.row.log|
    ensures seen.Layout? && from(seen.total).0 <= seen.total && AllFound(p, over) ==> seen.read.Took?
    ensures seen.Layout? || (seen == MovedOn && p.measured.closes >= p.counted.closes + 2)
    ensures Complete(p) ==> seen.Layout?
  {
    LayoutHeld(p, over);
    var layout := LayoutOf(p.counted, p.measured, over);
    if layout.None? {
      return MovedOn;
    }
    HeldIsTheLogs(p, over);
    var l := layout.value;
    var (at, max) := from(l.Total());
    var read := Follow.Got.Gone;
    if at <= l.Total() {
      var got := Read(l, HeldAt(p.counted, p.spans, p.segments, p.open, p.row), p.row.segs, p.row.log, at, max);
      read := Heard(got);
    }
    seen := Seen.Layout(l.Total(), read);
  }

  // ── pass after pass ────────────────────────────────────────────────────────

  /**
   What the passes so far sent: where the stream began, and from there the log's
   bytes up to where it has got to, in order; what is kept back follows them.
   */
  ghost predicate Streams(f: Option<Following>, pieces: seq<Piece>, row: Follow.Row, s: Settings, log: Bytes) {
    match f
    case None => pieces == []
    case Some(g) =>
      && g.fence == row.fence && g.gen == row.gen && Follows(g, log) && Bounded(g.carry, s)
      && pieces != [] && pieces[0].what.Began? && pieces[0].what.end <= g.sent
      && Exact(pieces[1..], log, pieces[0].what.end, g.sent)
      && (!g.ended ==> forall p <- pieces :: !p.what.Ended?)
  }

  lemma StreamsLonger(f: Option<Following>, pieces: seq<Piece>, row: Follow.Row, s: Settings, log: Bytes, longer: Bytes)
    requires Streams(f, pieces, row, s, log) && log <= longer
    ensures Streams(f, pieces, row, s, longer)
  {
    if f.Some? {
      FollowsLonger(f.value, log, longer);
      ExactLonger(pieces[1..], log, longer, pieces[0].what.end, f.value.sent);
    }
  }

  /** From where, and how much, a pass reads: on from what it has, or the window before the end. */
  function Asks(f: Option<Following>, s: Settings): nat -> (nat, nat) {
    match f
    case None => (end: nat) => (WindowStart(end, s), end - WindowStart(end, s))
    case Some(g) => (end: nat) => (g.Read(), s.step)
  }

  lemma BeginsStream(s: Settings, row: Follow.Row, seen: Seen, now: nat, log: Bytes)
    requires Tells(seen, log, Asks(None, s)) && (row.over && seen.Layout? ==> seen.total == |log|)
    ensures var (g, pieces, _) := Started(None, s, row, seen, now); Streams(g, pieces, row, s, log)
  {
    if seen.Layout? && (row.over || seen.read.Took?) {
      StartFollows(None, s, row, seen, now, log);
    }
  }

  lemma NotEnded(g: Following, s: Settings, over: bool, seen: Seen, now: nat)
    ensures var (h, pieces, _) := Advanced(g, s, over, seen, now);
            && (g.ended ==> h == g && pieces == [])
            && (!h.ended ==> forall p <- pieces :: !p.what.Ended?)
  {
  }

  lemma KeepsStream(g: Following, sent: seq<Piece>, s: Settings, row: Follow.Row, seen: Seen, now: nat, log: Bytes)
    requires Streams(Some(g), sent, row, s, log)
    requires Tells(seen, log, Asks(Some(g), s)) && (row.over && seen.Layout? ==> seen.total == |log|)
    ensures var (h, pieces, _) := Advanced(g, s, row.over, seen, now); Streams(Some(h), sent + pieces, row, s, log)
  {
    var (h, pieces, _) := Advanced(g, s, row.over, seen, now);
    NotEnded(g, s, row.over, seen, now);
    AdvanceIsExact(g, s, row.over, seen, now, log);
    ExactConcat(sent[1..], pieces, log, sent[0].what.end, g.sent, h.sent);
    assert (sent + pieces)[1..] == sent[1..] + pieces;
  }

  lemma PassStreams(f: Option<Following>, sent: seq<Piece>, s: Settings, row: Follow.Row, seen: Seen, now: nat, log: Bytes)
    requires Streams(f, sent, row, s, log)
    requires Tells(seen, log, Asks(f, s)) && (row.over && seen.Layout? ==> seen.total == |log|)
    ensures var (h, pieces, _) := Passed(f, s, row, seen, now); Streams(h, sent + pieces, row, s, log)
  {
    match f
    case None =>
      BeginsStream(s, row, seen, now, log);
      assert [] + Started(None, s, row, seen, now).1 == Started(None, s, row, seen, now).1;
    case Some(g) => KeepsStream(g, sent, s, row, seen, now, log);
  }

  /** Each pass while the writer goes on, and no pass before the one before it is done. */
  ghost predicate InTurn(passes: seq<Steps>) {
    && (forall p <- passes :: Glimpse(p))
    && (forall k :: 0 < k < |passes| ==> passes[k - 1].row.log <= passes[k].row.log)
  }

  /** A row that is over says so of a log all there. */
  ghost predicate TrulyOver(passes: seq<Steps>, overs: seq<bool>)
    requires |overs| == |passes|
  {
    forall k :: 0 <= k < |passes| && overs[k] ==> Complete(passes[k])
  }

  /** A task's log followed by a relay while it is written, closed and removed beneath it. */
  method Relay(passes: seq<Steps>, overs: seq<bool>, nows: seq<nat>, fence: int, gen: int, s: Settings, tail: Follow.Tail)
    returns (sent: seq<Piece>)
    requires |overs| == |nows| == |passes| && InTurn(passes) && TrulyOver(passes, overs) && tail.State() == None
    modifies tail
    ensures Streams(tail.State(), sent, Follow.Row(fence, gen, false), s,
                    if passes == [] then [] else passes[|passes| - 1].row.log)
  {
    sent := [];
    for k := 0 to |passes|
      invariant Streams(tail.State(), sent, Follow.Row(fence, gen, false), s, if k == 0 then [] else passes[k - 1].row.log)
    {
      var p := passes[k];
      assert p in passes;
      var (f, row) := (tail.State(), Follow.Row(fence, gen, overs[k]));
      StreamsLonger(f, sent, Follow.Row(fence, gen, false), s, if k == 0 then [] else passes[k - 1].row.log, p.row.log);
      var seen := See(p, overs[k], Asks(f, s));
      PassStreams(f, sent, s, row, seen, nows[k], p.row.log);
      var pieces, _ := tail.Pass(s, row, seen, nows[k]);
      sent := sent + pieces;
    }
  }

  // ── the passes of a run ────────────────────────────────────────────────────

  lemma {:induction false} RunPlain(states: seq<World>, actions: seq<Segments.Action>, i: nat)
    requires Segments.Run(states, actions) && i < |states| && Plain(states[0])
    ensures Plain(states[i])
    decreases i
  {
    if i > 0 {
      RunPlain(states, actions, i - 1);
      assert Segments.Follows(states, actions[i - 1], i - 1);
    }
  }

  /** When each step of each pass comes in a run. */
  ghost predicate Timed(states: seq<World>, times: seq<nat>, passes: seq<Steps>) {
    && |times| == 6 * |passes| && (forall t <- times :: t < |states|)
    && (forall i, j :: 0 <= i <= j < |times| ==> times[i] <= times[j])
    && (forall k, i :: 0 <= k < |passes| && 0 <= i < 6 ==> At(states, times, passes, k, i))
  }

  ghost predicate At(states: seq<World>, times: seq<nat>, passes: seq<Steps>, k: nat, i: nat)
    requires |times| == 6 * |passes| && k < |passes| && i < 6
  {
    times[6 * k + i] < |states| && Nth(passes[k], i) == states[times[6 * k + i]]
  }

  /** Whatever the writer's steps, and whenever the relay's come between them. */
  lemma RunInTurn(states: seq<World>, actions: seq<Segments.Action>, times: seq<nat>, passes: seq<Steps>)
    requires Segments.Run(states, actions) && Plain(states[0]) && Timed(states, times, passes)
    ensures InTurn(passes)
  {
    forall p | p in passes ensures Glimpse(p) {
      var k :| 0 <= k < |passes| && passes[k] == p;
      TimedGlimpse(states, actions, times, passes, k);
    }
    forall k | 0 < k < |passes| ensures passes[k - 1].row.log <= passes[k].row.log {
      assert At(states, times, passes, k - 1, 5) && At(states, times, passes, k, 5);
      Segments.RunSince(states, actions, times[6 * (k - 1) + 5], times[6 * k + 5]);
    }
  }

  lemma TimedGlimpse(states: seq<World>, actions: seq<Segments.Action>, times: seq<nat>, passes: seq<Steps>, k: nat)
    requires Segments.Run(states, actions) && Plain(states[0]) && Timed(states, times, passes) && k < |passes|
    ensures Glimpse(passes[k])
  {
    assert At(states, times, passes, k, 0);
    RunPlain(states, actions, times[6 * k]);
    forall i: nat, j: nat | i <= j < 6 ensures Later(passes[k], i, j) {
      assert At(states, times, passes, k, i) && At(states, times, passes, k, j);
      Segments.RunSince(states, actions, times[6 * k + i], times[6 * k + j]);
    }
  }

  // ── a log taken for empty ──────────────────────────────────────────────────

  /** Some steps of the writer's lead from one to the other. */
  ghost predicate Leads(u: World, v: World) {
    exists states, actions :: Segments.Run(states, actions) && states[0] == u && states[|actions|] == v
  }

  lemma LeadsOn(u: World, v: World, a: Segments.Action, w: World)
    requires Leads(u, v) && Segments.Step(v, a, w)
    ensures Leads(u, w)
  {
    var states, actions :| Segments.Run(states, actions) && states[0] == u && states[|actions|] == v;
    var (longer, more) := (states + [w], actions + [a]);
    forall i | 0 <= i < |more| ensures Segments.Follows(longer, more[i], i) {
      assert i < |actions| ==> Segments.Follows(states, actions[i], i);
    }
    assert Segments.Run(longer, more) && longer[0] == u && longer[|more|] == w;
  }

  /** A close of an open file, all of it put as a segment. */
  lemma Puts(u: World, w: World, text: Bytes) returns (v: World)
    requires Leads(u, w) && w.writer.Idle? && !w.inRow && Segments.Open(w) == text && |text| >= w.size > 0
    ensures Leads(u, v)
    ensures v == w.(segs := w.segs[w.recorded := text], writer := Segments.Closing([text], [], 1, false))
  {
    assert [text][1..] == [] && text + [] == text;
    assert Flat([text]) == text;
    var one := w.(writer := Segments.Closing([text], [], 0, false));
    LeadsOn(u, w, Segments.Close([text], []), one);
    v := one.(segs := w.segs[w.recorded := text], writer := Segments.Closing([text], [], 1, false));
    LeadsOn(u, one, Segments.Put, v);
  }

  /** And recorded, the next open part empty. */
  lemma Closes(u: World, w: World, text: Bytes) returns (v: World)
    requires Leads(u, w) && w.writer.Idle? && !w.inRow && Segments.Open(w) == text && |text| >= w.size > 0
    ensures Leads(u, v)
    ensures var n := w.recorded;
            v == w.(segs := w.segs[n := text], opens := w.opens[n + 1 := []], recorded := n + 1,
                    closes := w.closes + 1, writer := Segments.Removing(0, n))
  {
    var n := w.recorded;
    var two := Puts(u, w, text);
    var three := two.(opens := w.opens[n + 1 := []], writer := Segments.Closing([text], [], 1, true));
    LeadsOn(u, two, Segments.WriteOpen, three);
    v := three.(recorded := n + 1, closes := w.closes + 1, writer := Segments.Removing(0, n));
    LeadsOn(u, three, Segments.Record, v);
  }

  /** A full open file closed, and as much written after it. */
  lemma ClosesAndGrows(u: World, a: Bytes, b: Bytes) returns (v: World)
    requires Leads(u, u) && u == Segments.World(u.size, false, a, map[], map[0 := a], [], 0, 0, Segments.Idle)
    requires |a| >= u.size > 0
    ensures Leads(u, v)
    ensures v == Segments.World(u.size, false, a + b, map[0 := a], map[0 := a, 1 := b], [], 1, 1, Segments.Idle)
  {
    var one := Closes(u, u, a);
    var idle := one.(writer := Segments.Idle);
    LeadsOn(u, one, Segments.GiveUp, idle);
    assert [] + b == b;
    v := idle.(opens := idle.opens[1 := b], log := a + b);
    LeadsOn(u, idle, Segments.Append(b), v);
  }

  /**
   A log of which no segment was counted: written on and closed twice, and the
   first open part removed, before that is measured, it is measured as nothing.
   */
  lemma UnmeasuredIsNothing(size: nat, a: Bytes, b: Bytes) returns (v: World)
    requires |a| >= size > 0 && |b| >= size
    ensures var u := Segments.World(size, false, a, map[], map[0 := a], [], 0, 0, Segments.Idle);
            && Leads(u, v) && u.log == a && v.log == a + b
            && LayoutOf(u, v, false) == Some(LayoutRead.Layout.Layout(0, 0, 0, 0, false))
  {
    var u := Segments.World(size, false, a, map[], map[0 := a], [], 0, 0, Segments.Idle);
    var none: seq<Segments.Action> := [];
    assert [] + a == a;
    assert Segments.Run([u], none) && [u][0] == u && [u][|none|] == u;
    var grown := ClosesAndGrows(u, a, b);
    var two := Closes(u, grown, b);
    v := two.(opens := two.opens - {0}, writer := Segments.Removing(1, 1));
    LeadsOn(u, two, Segments.RemoveOpen, v);
  }
}
