/**
 Where a task's log is, and reading it from a byte
 (crates/dagron-api/src/relay.rs): its closed segments, then its open file,
 then its row's part.
 */
module LayoutRead {
  import opened Common

  /** A log's sizes, as one statement and the store found them. */
  datatype Layout = Layout(closed: nat, segments: nat, open: nat, row: nat, output: bool) {
    function Total(): nat { closed + open + row }
  }

  datatype Got = Took(bytes: Bytes) | Gone | Moved

  /** A task row: its status, its sizes as the statement read them. */
  datatype Tail = Tail(over: bool, rowBytes: nat, outputBytes: nat, closed: nat, segments: nat)

  /** What keeps a log: its row alone, segments with the open part in the row, or with an open file. */
  datatype Keeper = NoStore | OpenInRow | OpenFile(openSize: Option<nat>)

  function InRow(row: Tail): Layout {
    if row.rowBytes == 0 && row.over && row.outputBytes > 0
    then Layout(0, 0, 0, row.outputBytes, true)
    else Layout(0, 0, 0, row.rowBytes, false)
  }

  /** `None` where the log moved on between the statement and the store. */
  function Of(keeper: Keeper, row: Tail): Option<Layout> {
    match keeper
    case NoStore => Some(InRow(row))
    case OpenInRow =>
      if row.segments == 0 then Some(InRow(row)) else Some(Layout(row.closed, row.segments, 0, row.rowBytes, false))
    case OpenFile(Some(size)) => Some(Layout(row.closed, row.segments, size, row.rowBytes, false))
    case OpenFile(None) => if row.segments == 0 then Some(InRow(row)) else None
  }

  /** A segment as its row counts it: its number and its bytes. */
  datatype Span = Span(number: nat, bytes: nat)

  function SpanSum(spans: seq<Span>): nat {
    if spans == [] then 0 else SpanSum(spans[..|spans| - 1]) + spans[|spans| - 1].bytes
  }

  /** What the database says of the row when asked for its bytes. */
  datatype RowRead = RowGone | Row(closed: nat, log: Bytes)

  /** What the store and the database hold while a read is made. */
  datatype Holds = Holds(spans: seq<Span>, segments: map<nat, Bytes>, open: Option<Bytes>, row: RowRead,
                         output: Option<Bytes>)

  /** `max` bytes of `b` from `from`, or as many as there are. */
  function Sub(b: Bytes, from: nat, max: nat): (r: Bytes)
    ensures |r| <= max
  {
    if from >= |b| then [] else b[from..Min(from + max, |b|)]
  }

  // ── the log a layout is of ─────────────────────────────────────────────────

  /** The closed segments' text, one after another. */
  function Closed(spans: seq<Span>, segments: map<nat, Bytes>): Bytes
    requires forall s <- spans :: s.number in segments
  {
    if spans == [] then []
    else Closed(spans[..|spans| - 1], segments) + segments[spans[|spans| - 1].number]
  }

  /** Every counted segment is there whole. */
  ghost predicate Whole(spans: seq<Span>, segments: map<nat, Bytes>) {
    forall s <- spans :: s.number in segments && |segments[s.number]| == s.bytes
  }

  /** What is held is what the layout counted. */
  ghost predicate Still(l: Layout, h: Holds) {
    if l.output then h.output.Some? && |h.output.value| == l.Total()
    else
    && Whole(h.spans, h.segments) && SpanSum(h.spans) == l.closed
    && (l.open > 0 ==> h.open.Some? && |h.open.value| >= l.open)
    && (l.row > 0 ==> h.row.Row? && h.row.closed == l.closed && |h.row.log| == l.row)
  }

  function OpenPart(l: Layout, h: Holds): (o: Bytes)
    requires !l.output && Still(l, h)
    ensures |o| == l.open
  {
    if l.open > 0 then h.open.value[..l.open] else []
  }

  function RowPart(l: Layout, h: Holds): (r: Bytes)
    requires !l.output && Still(l, h)
    ensures |r| == l.row
  {
    if l.row > 0 then h.row.log else []
  }

  /** The log, as the layout counted it; or the output that stands in for one. */
  function Log(l: Layout, h: Holds): (log: Bytes)
    requires Still(l, h)
    ensures |log| == l.Total() && (!l.output ==> |Closed(h.spans, h.segments)| == l.closed)
  {
    if l.output then h.output.value
    else
      ClosedLength(h.spans, h.segments);
      Closed(h.spans, h.segments) + OpenPart(l, h) + RowPart(l, h)
  }

  /** One begins the other: bytes of one writing, one of them perhaps cut short. */
  predicate Aligned(a: Bytes, b: Bytes) {
    a <= b || b <= a
  }

  /** What is read so far is the log's. */
  ghost predicate SoFar(log: Bytes, from: nat, out: Bytes, max: nat) {
    |out| <= max && from + |out| <= |log| && out == log[from..from + |out|]
  }

  /** A part of the log, in its place. */
  ghost predicate PlacedAt(log: Bytes, start: nat, part: Bytes) {
    start + |part| <= |log| && log[start..start + |part|] == part
  }

  lemma {:induction false} ClosedLength(spans: seq<Span>, segments: map<nat, Bytes>)
    requires Whole(spans, segments)
    ensures |Closed(spans, segments)| == SpanSum(spans)
    decreases |spans|
  {
    if spans != [] {
      ClosedLength(spans[..|spans| - 1], segments);
    }
  }

  lemma SpanOn(spans: seq<Span>, span: Span)
    ensures SpanSum(spans + [span]) == SpanSum(spans) + span.bytes
  {
    assert (spans + [span])[..|spans|] == spans;
  }

  lemma ClosedOn(spans: seq<Span>, span: Span, segments: map<nat, Bytes>)
    requires (forall s <- spans :: s.number in segments) && span.number in segments
    ensures (forall s <- spans + [span] :: s.number in segments)
    ensures Closed(spans + [span], segments) == Closed(spans, segments) + segments[span.number]
  {
    assert (spans + [span])[..|spans|] == spans;
  }

  /** The spans' text is where the spans before them end. */
  lemma {:induction false} SpanInClosed(spans: seq<Span>, segments: map<nat, Bytes>, k: nat)
    requires k < |spans| && Whole(spans, segments)
    ensures var start := SpanSum(spans[..k]);
            && start + spans[k].bytes <= SpanSum(spans)
            && |Closed(spans, segments)| == SpanSum(spans)
            && PlacedAt(Closed(spans, segments), start, segments[spans[k].number])
    decreases |spans|
  {
    var n := |spans| - 1;
    ClosedLength(spans, segments);
    ClosedLength(spans[..n], segments);
    if k < n {
      assert spans[..n][..k] == spans[..k];
      SpanInClosed(spans[..n], segments, k);
    }
  }

  /** Reading on, from where a slice stopped. */
  lemma SliceOn(c: Bytes, from: nat, at: nat, part: Bytes, start: nat, n: nat)
    requires from <= at && start <= at && at + n <= start + |part| <= |c|
    requires c[start..start + |part|] == part
    ensures c[from..at] + part[at - start..at - start + n] == c[from..at + n]
  {
    var x := at - start;
    var p, q := part[x..x + n], c[at..at + n];
    forall j | 0 <= j < |p| ensures p[j] == q[j] {
      assert part[x + j] == c[start..start + |part|][x + j];
    }
    assert p == q;
  }

  /** `n` bytes of a part, read on. */
  lemma ReadOn(log: Bytes, from: nat, out: Bytes, max: nat, start: nat, part: Bytes, n: nat)
    requires SoFar(log, from, out, max) && PlacedAt(log, start, part)
    requires start <= from + |out| && from + |out| + n <= start + |part| && |out| + n <= max
    ensures var x := from + |out| - start; SoFar(log, from, out + part[x..x + n], max)
  {
    SliceOn(log, from, from + |out|, part, start, n);
  }

  // ── the read ───────────────────────────────────────────────────────────────

  /** One segment's share; it stops where the segment is gone, or shorter than its row says. */
  method ReadSpan(segment: Option<Bytes>, start: nat, bytes: nat, max: nat, at: nat, sofar: Bytes,
                  ghost whole: Bytes, ghost log: Bytes, ghost from: nat)
    returns (out: Bytes, stopped: bool)
    requires SoFar(log, from, sofar, max) && at == from + |sofar|
    requires |whole| == bytes && PlacedAt(log, start, whole) && (segment.Some? ==> Aligned(segment.value, whole))
    ensures SoFar(log, from, out, max)
    ensures stopped ==> segment.None? || |segment.value| < bytes
    ensures !stopped ==>
              |out| == if start <= at < start + bytes && |sofar| < max then Min(max, start + bytes - from) else |sofar|
  {
    out, stopped := sofar, false;
    if start <= at < start + bytes && |sofar| < max {
      var want := Min(max - |sofar|, start + bytes - at);
      if segment.None? || |Sub(segment.value, at - start, want)| != want {
        stopped := true;
        return;
      }
      var got := Sub(segment.value, at - start, want);
      assert got == whole[at - start..at - start + want];
      ReadOn(log, from, sofar, max, start, whole, want);
      out := sofar + got;
    }
  }

  /** Each segment is of the writing's, where it is there. */
  ghost predicate OfWhole(segments: map<nat, Bytes>, all: map<nat, Bytes>) {
    forall k <- segments :: k in all && Aligned(segments[k], all[k])
  }

  /** Every counted segment is there, no shorter than its row says. */
  predicate LongEnough(spans: seq<Span>, segments: map<nat, Bytes>) {
    forall s <- spans :: s.number in segments && |segments[s.number]| >= s.bytes
  }

  /** The closed segments' share of a read. */
  method ReadClosed(spans: seq<Span>, segments: map<nat, Bytes>, ghost all: map<nat, Bytes>, from: nat, max: nat)
    returns (out: Bytes, stopped: bool)
    requires Whole(spans, all) && OfWhole(segments, all) && from < SpanSum(spans)
    ensures SpanSum(spans) == |Closed(spans, all)| && SoFar(Closed(spans, all), from, out, max)
    ensures !stopped ==> |out| == Min(max, SpanSum(spans) - from)
    ensures stopped ==> !LongEnough(spans, segments)
  {
    out, stopped := [], false;
    var start := 0;
    ghost var c := Closed(spans, all);
    ClosedLength(spans, all);
    for k := 0 to |spans|
      invariant start == SpanSum(spans[..k])
      invariant SoFar(c, from, out, max)
      invariant |out| == max || from + |out| == (if start <= from then from else start)
    {
      var span := spans[k];
      assert spans[..k + 1][..k] == spans[..k];
      SpanInClosed(spans, all, k);
      assert span in spans;
      var segment := if span.number in segments then Some(segments[span.number]) else None;
      out, stopped := ReadSpan(segment, start, span.bytes, max, from + |out|, out, all[span.number], c, from);
      if stopped {
        return;
      }
      start := start + span.bytes;
    }
    assert spans[..|spans|] == spans;
  }

  /** The row part's share, the end of a read: `base` is where the row begins. */
  method ReadRow(row: RowRead, closed: nat, base: nat, max: nat, at: nat, sofar: Bytes,
                 ghost log: Bytes, ghost from: nat)
    returns (r: Got)
    requires SoFar(log, from, sofar, max) && at == from + |sofar| && base <= at
    requires row.Row? && row.closed == closed ==> PlacedAt(log, base, row.log)
    ensures r.Took? ==> SoFar(log, from, r.bytes, max)
    ensures row.Row? && row.closed == closed && at <= base + |row.log| ==>
              r.Took? && |r.bytes| == Min(max, base + |row.log| - from)
  {
    match row {
      case RowGone => r := if sofar == [] then Gone else Took(sofar);
      case Row(now, text) =>
        if now != closed {
          return if sofar == [] then Moved else Took(sofar);
        }
        var got := Sub(text, at - base, max - |sofar|);
        if at - base < |text| {
          ReadOn(log, from, sofar, max, base, text, |got|);
        }
        r := Took(sofar + got);
    }
  }

  /** The open file's share, no further than the size it had. */
  method ReadOpen(file: Bytes, closed: nat, size: nat, max: nat, at: nat, sofar: Bytes,
                  ghost log: Bytes, ghost from: nat)
    returns (out: Bytes)
    requires SoFar(log, from, sofar, max) && at == from + |sofar| && closed <= at < closed + size
    requires PlacedAt(log, closed, file[..Min(size, |file|)])
    ensures SoFar(log, from, out, max) && from + |out| <= closed + size
    ensures |file| >= size ==> |out| == Min(max, closed + size - from)
  {
    var want := Min(max - |sofar|, closed + size - at);
    var got := Sub(file, at - closed, want);
    out := sofar + got;
    if at - closed < |file| {
      ghost var part := file[..Min(size, |file|)];
      ReadOn(log, from, sofar, max, closed, part, |got|);
      assert got == part[at - closed..at - closed + |got|];
    }
  }

  /** What is held is of `log`, each part in its place, as far as it is there; the log may have grown since. */
  ghost predicate HeldOf(l: Layout, held: Holds, all: map<nat, Bytes>, log: Bytes) {
    && l.Total() <= |log|
    && if l.output then held.output.Some? ==> held.output.value == log
       else
         && (SpanSum(held.spans) == l.closed ==> Whole(held.spans, all) && PlacedAt(log, 0, Closed(held.spans, all)))
         && OfWhole(held.segments, all)
         && (l.open > 0 && held.open.Some? ==>
               PlacedAt(log, l.closed, held.open.value[..Min(l.open, |held.open.value|)]))
         && (l.row > 0 && held.row.Row? && held.row.closed == l.closed ==>
               PlacedAt(log, l.closed + l.open, held.row.log))
  }

  /** And every part is there, as long as it was counted or longer. */
  predicate HeldWhole(l: Layout, held: Holds) {
    if l.output then held.output.Some?
    else
      && SpanSum(held.spans) == l.closed && LongEnough(held.spans, held.segments)
      && (l.open > 0 ==> held.open.Some? && |held.open.value| >= l.open)
      && (l.row > 0 ==> held.row.Row? && held.row.closed == l.closed && |held.row.log| >= l.row)
  }

  /** The last part is longer than it was counted. */
  predicate Grown(l: Layout, held: Holds) {
    if l.output then held.output.Some? && |held.output.value| > l.Total()
    else l.row > 0 && held.row.Row? && |held.row.log| > l.row
  }

  /** The closed part of a read, where it begins in one. */
  method ReadFromClosed(l: Layout, held: Holds, ghost all: map<nat, Bytes>, ghost log: Bytes, from: nat, max: nat)
    returns (out: Bytes, stopped: bool)
    requires !l.output && HeldOf(l, held, all, log) && from <= l.Total()
    ensures SoFar(log, from, out, max)
    ensures stopped ==> !HeldWhole(l, held)
    ensures !stopped ==> |out| == (if from < l.closed then Min(max, l.closed - from) else 0)
  {
    out, stopped := [], false;
    if from < l.closed {
      // not the segments the statement counted: closed since, or begun again
      if SpanSum(held.spans) != l.closed {
        stopped := true;
        return;
      }
      out, stopped := ReadClosed(held.spans, held.segments, all, from, max);
    }
  }

  /** A read of a task's `output`, which stands in for the log of one that kept none. */
  method ReadOutput(output: Option<Bytes>, ghost log: Bytes, from: nat, max: nat) returns (r: Got)
    requires (output.Some? ==> output.value == log) && from <= |log|
    ensures r.Took? ==> SoFar(log, from, r.bytes, max)
    ensures output.Some? ==> r.Took? && |r.bytes| == Min(max, |log| - from)
  {
    match output {
      case Some(text) => r := Took(Sub(text, from, max));
      case None => r := Gone;
    }
  }

  /** At most `max` bytes of the log from byte `from`. */
  method Read(l: Layout, held: Holds, ghost all: map<nat, Bytes>, ghost log: Bytes, from: nat, max: nat)
    returns (r: Got)
    requires HeldOf(l, held, all, log) && from <= l.Total()
    // what it gives is the log's own bytes from `from`
    ensures r.Took? ==> SoFar(log, from, r.bytes, max)
    // and all of them that were counted and asked for, where every part is there
    ensures HeldWhole(l, held) ==> r.Took? && |r.bytes| >= Min(max, l.Total() - from)
    ensures HeldWhole(l, held) && !Grown(l, held) ==> |r.bytes| == Min(max, l.Total() - from)
  {
    if l.output {
      r := ReadOutput(held.output, log, from, max);
      return;
    }
    var out, stopped := ReadFromClosed(l, held, all, log, from, max);
    if stopped {
      return if out == [] then Moved else Took(out);
    }
    var at := from + |out|;
    if |out| >= max {
      return Took(out);
    }
    if l.open > 0 && at < l.closed + l.open {
      if held.open.None? {
        return if out == [] then Moved else Took(out);
      }
      out := ReadOpen(held.open.value, l.closed, l.open, max, at, out, log, from);
      at := from + |out|;
    }
    if |out| >= max || at < l.closed + l.open || (l.row == 0 && at >= l.Total()) {
      return Took(out);
    }
    r := ReadRow(held.row, l.closed, l.closed + l.open, max, at, out, log, from);
  }

  /** A log that did not change since its layout was found is read exactly. */
  method ReadStill(l: Layout, h: Holds, from: nat, max: nat) returns (r: Got)
    requires Still(l, h) && from <= l.Total()
    ensures r == Took(Log(l, h)[from..from + Min(max, l.Total() - from)])
  {
    assert !l.output && l.open > 0 ==> h.open.value[..l.open] == OpenPart(l, h);
    r := Read(l, h, h.segments, Log(l, h), from, max);
  }

  /**
   A log kept in its row alone is found to be what the row holds; or, of a task
   that is over and logged nothing, its output.
   */
  lemma KeptInRow(keeper: Keeper, row: Tail, h: Holds)
    requires keeper.NoStore? || (row.segments == 0 && (keeper.OpenInRow? || keeper == OpenFile(None)))
    requires h.spans == [] && h.row.Row? && h.row.closed == 0 && |h.row.log| == row.rowBytes
    requires row.outputBytes > 0 ==> h.output.Some? && |h.output.value| == row.outputBytes
    ensures var l := Of(keeper, row);
            && l.Some? && Still(l.value, h)
            && Log(l.value, h) == if h.row.log == [] && row.over && row.outputBytes > 0 then h.output.value else h.row.log
  {
  }
}
