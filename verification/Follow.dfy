/**
 The live relay's following of one task's log (crates/dagron-api/src/relay.rs):
 each pass reads a step past what it has, keeps an unfinished line back, and
 sends the rest.
 */
module Follow {
  import opened Common
  import opened Utf8

  datatype Settings = Settings(step: nat, lineMax: nat, carryWait: nat)

  /** A task row as a pass reads it: the writing its log is, and whether it grows no more. */
  datatype Row = Row(fence: int, gen: int, over: bool)

  datatype Got = Took(bytes: Bytes) | Gone | Moved | Failed

  /** What a pass finds: no layout, one that moved on, or the total and what a read of it gave. */
  datatype Seen = Unreadable | MovedOn | Layout(total: nat, read: Got)

  datatype What = Began(end: nat) | Chunk(start: nat, end: nat, text: Bytes) | Ended(end: nat, complete: bool)

  datatype Piece = Piece(fence: int, gen: int, what: What)

  /** Where the relay has got to in a writing: what it sent, and what it keeps past that. */
  datatype Following = Following(fence: int, gen: int, sent: nat, carry: Bytes, since: Option<nat>, ended: bool) {
    function Read(): nat { sent + |carry| }
  }

  /** Past the last newline; 0 where there is none. */
  function LastLine(b: Bytes): (n: nat)
    ensures n <= |b|
    ensures n > 0 ==> b[n - 1] == NEWLINE
    ensures NEWLINE !in b[n..]
  {
    if b == [] then 0
    else if b[|b| - 1] == NEWLINE then |b|
    else
      var n := LastLine(b[..|b| - 1]);
      assert b[n..] == b[..|b| - 1][n..] + [b[|b| - 1]];
      n
  }

  /** How many of `b` go now. */
  function Cut(b: Bytes, force: bool): (n: nat)
    ensures n <= |b|
  {
    if !force then LastLine(b)
    else if Scan(b).1 == Inside then Scan(b).0
    else |b|
  }

  // ── one pass ───────────────────────────────────────────────────────────────

  function Stamp(carry: Bytes, now: nat): Option<nat> {
    if carry == [] then None else Some(now)
  }

  /** How much of the carry goes now: past its last line's end only at the end, or where that line is long or late. */
  function HowMuch(carry: Bytes, since: Option<nat>, s: Settings, finished: bool, now: nat): (n: nat)
    ensures n <= |carry|
  {
    Cut(carry,
        finished || |carry| - Cut(carry, false) >= s.lineMax
        || (since.Some? && now >= since.value + s.carryWait))
  }

  function Drained(f: Following, n: nat, now: nat): Following
    requires n <= |f.carry|
  {
    if n == 0 then f
    else f.(sent := f.sent + n, carry := f.carry[n..], since := Stamp(f.carry[n..], now))
  }

  function TextOf(f: Following, n: nat): seq<Piece>
    requires n <= |f.carry|
  {
    if n == 0 then [] else [Piece(f.fence, f.gen, Chunk(f.sent, f.sent + n, f.carry[..n]))]
  }

  function EndOf(g: Following, finished: bool, complete: bool): seq<Piece> {
    if finished then [Piece(g.fence, g.gen, Ended(g.sent, complete))] else []
  }

  /** `n` bytes of the carry sent, and the end where the writing is over. */
  function SentSome(f: Following, n: nat, finished: bool, complete: bool, now: nat): (Following, seq<Piece>)
    requires n <= |f.carry|
  {
    var g := Drained(f, n, now);
    (if finished then g.(ended := true) else g, TextOf(f, n) + EndOf(g, finished, complete))
  }

  function Sent(f: Following, s: Settings, finished: bool, complete: bool, now: nat): (Following, seq<Piece>) {
    SentSome(f, HowMuch(f.carry, f.since, s, finished, now), finished, complete, now)
  }

  /** What a pass read: nothing it can use, or a carry that may be longer. */
  datatype Taken = Stop(again: bool) | Go(f: Following, more: bool, gone: bool)

  function Take(f: Following, seen: Seen, now: nat): Taken {
    if f.ended then Stop(false)
    else
      match seen
      case Unreadable => Stop(false)
      case MovedOn => Stop(true)
      case Layout(total, read) =>
        if total <= f.Read() then Go(f, false, false)
        else
          match read
          case Moved => Stop(true)
          case Failed => Stop(false)
          case Gone => Go(f, false, true)
          case Took(b) =>
            var since := if f.carry == [] && b != [] then Some(now) else f.since;
            Go(f.(carry := f.carry + b, since := since), f.Read() + |b| < total, false)
  }

  /** A pass over the writing already followed. */
  function Advanced(f: Following, s: Settings, over: bool, seen: Seen, now: nat): (Following, seq<Piece>, bool) {
    match Take(f, seen, now)
    case Stop(again) => (f, [], again)
    case Go(g, more, gone) =>
      var (h, pieces) := Sent(g, s, over && (gone || !more), !gone, now);
      (h, pieces, more)
  }

  /** Where the window a writing is begun on starts. */
  function WindowStart(end: nat, s: Settings): (from: nat)
    ensures from <= end && end - from <= s.lineMax
  {
    if end <= s.lineMax then 0 else end - s.lineMax
  }

  /** Where in the window the stream begins: the last line's start, or a character's. */
  function BeginAt(b: Bytes, from: nat): (at: nat)
    ensures at <= |b|
  {
    if NEWLINE in b then LastLine(b) else if from == 0 then 0 else Cut(b, true)
  }

  /** The end of another attempt's writing, not all of it read. */
  function Abandoned(was: Option<Following>, row: Row): seq<Piece> {
    if was.Some? && !was.value.ended && was.value.fence != row.fence
       && (was.value.sent > 0 || was.value.carry != [])
    then [Piece(was.value.fence, was.value.gen, Ended(was.value.sent, false))]
    else []
  }

  /** A pass that starts on a writing. */
  function Started(was: Option<Following>, s: Settings, row: Row, seen: Seen, now: nat)
    : (Option<Following>, seq<Piece>, bool)
  {
    match seen
    case Unreadable => (was, [], false)
    case MovedOn => (was, [], true)
    case Layout(end, read) =>
      var before := Abandoned(was, row);
      if row.over then
        (Some(Following(row.fence, row.gen, end, [], None, true)),
         before + [Piece(row.fence, row.gen, Began(end)), Piece(row.fence, row.gen, Ended(end, true))], false)
      else
        match read
        case Failed => (was, before, false)
        case Gone => (was, before, true)
        case Moved => (was, before, true)
        case Took(b) =>
          var from := WindowStart(end, s);
          var at := BeginAt(b, from);
          (Some(Following(row.fence, row.gen, from + at, b[at..], Stamp(b[at..], now), false)),
           before + [Piece(row.fence, row.gen, Began(from + at))], false)
  }

  function Passed(was: Option<Following>, s: Settings, row: Row, seen: Seen, now: nat)
    : (Option<Following>, seq<Piece>, bool)
  {
    if was.Some? && was.value.fence == row.fence && was.value.gen == row.gen then
      var (g, pieces, more) := Advanced(was.value, s, row.over, seen, now);
      (Some(g), pieces, more)
    else Started(was, s, row, seen, now)
  }

  /** A task's place in the relay, moved along by each pass. */
  class Tail {
    var following: bool
    var fence: int
    var gen: int
    var sent: nat
    var carry: Bytes
    var since: Option<nat>
    var ended: bool

    function State(): Option<Following>
      reads this
    {
      if following then Some(Following(fence, gen, sent, carry, since, ended)) else None
    }

    constructor ()
      ensures State() == None
    {
      following, fence, gen, sent, carry, since, ended := false, 0, 0, 0, [], None, false;
    }

    /** Let go of the writing: nobody wants the task read. */
    method LetGo()
      modifies this
      ensures State() == None
    {
      following := false;
    }

    /** Send the carry's first `n` bytes. */
    method Drain(n: nat, now: nat) returns (pieces: seq<Piece>)
      requires following && n <= |carry|
      modifies this
      ensures following && State().value == Drained(old(State().value), n, now)
      ensures pieces == TextOf(old(State().value), n)
    {
      pieces := [];
      if n > 0 {
        pieces := [Piece(fence, gen, Chunk(sent, sent + n, carry[..n]))];
        carry := carry[n..];
        since := Stamp(carry, now);
        sent := sent + n;
      }
    }

    method Send(s: Settings, finished: bool, complete: bool, now: nat) returns (pieces: seq<Piece>)
      requires following
      modifies this
      ensures following
      ensures (State().value, pieces) == Sent(old(State().value), s, finished, complete, now)
    {
      var n := HowMuch(carry, since, s, finished, now);
      pieces := Drain(n, now);
      ghost var g := State().value;
      if finished {
        ended := true;
        pieces := pieces + [Piece(fence, gen, Ended(sent, complete))];
      }
      assert pieces == TextOf(old(State().value), n) + EndOf(g, finished, complete);
    }

    method Advance(s: Settings, over: bool, seen: Seen, now: nat) returns (pieces: seq<Piece>, more: bool)
      requires following
      modifies this
      ensures following
      ensures (State().value, pieces, more) == Advanced(old(State().value), s, over, seen, now)
    {
      if ended || seen.Unreadable? {
        return [], false;
      }
      if seen.MovedOn? {
        return [], true;
      }
      ghost var f := State().value;
      var gone := false;
      more := false;
      if seen.total > sent + |carry| {
        match seen.read {
          case Took(b) =>
            if carry == [] && b != [] {
              since := Some(now);
            }
            carry := carry + b;
            more := sent + |carry| < seen.total;
          case Gone => gone := true;
          case Moved => return [], true;
          case Failed => return [], false;
        }
      }
      assert Take(f, seen, now) == Go(State().value, more, gone);
      pieces := Send(s, over && (gone || !more), !gone, now);
    }

    method Start(s: Settings, row: Row, seen: Seen, now: nat) returns (pieces: seq<Piece>, more: bool)
      modifies this
      ensures (State(), pieces, more) == Started(old(State()), s, row, seen, now)
    {
      if !seen.Layout? {
        return [], seen.MovedOn?;
      }
      var was := State();
      pieces := Abandoned(was, row);
      var end := seen.total;
      var begun, kept := end, [];
      if !row.over {
        if !seen.read.Took? {
          return pieces, !seen.read.Failed?;
        }
        var b := seen.read.bytes;
        var from := WindowStart(end, s);
        var at := BeginAt(b, from);
        begun, kept := from + at, b[at..];
      }
      following, fence, gen, sent, carry, ended := true, row.fence, row.gen, begun, kept, row.over;
      since := Stamp(kept, now);
      pieces := pieces + [Piece(fence, gen, Began(begun))];
      if row.over {
        pieces := pieces + [Piece(fence, gen, Ended(end, true))];
        assert pieces == Abandoned(was, row) + [Piece(fence, gen, Began(begun)), Piece(fence, gen, Ended(end, true))];
      }
      more := false;
    }

    /** One pass over the task's row. */
    method Pass(s: Settings, row: Row, seen: Seen, now: nat) returns (pieces: seq<Piece>, more: bool)
      modifies this
      ensures (State(), pieces, more) == Passed(old(State()), s, row, seen, now)
    {
      if following && fence == row.fence && gen == row.gen {
        pieces, more := Advance(s, row.over, seen, now);
      } else {
        pieces, more := Start(s, row, seen, now);
      }
    }
  }

  // ── what one pass keeps ────────────────────────────────────────────────────

  /** The carry is the log's bytes just past what was sent. */
  ghost predicate Follows(f: Following, log: Bytes) {
    f.Read() <= |log| && f.carry == log[f.sent..f.Read()]
  }

  /** What was sent ends where a character does. */
  ghost predicate AtCharacter(f: Following, log: Bytes)
    requires f.sent <= |log|
  {
    Valid(log[..f.sent])
  }

  /** A read gives the log's bytes from where it was asked, `max` at most. */
  ghost predicate Reads(read: Got, log: Bytes, from: nat, max: nat) {
    read.Took? ==> |read.bytes| <= max && from + |read.bytes| <= |log| && read.bytes == log[from..from + |read.bytes|]
  }

  /** The pass saw the log as it is: no more than there is, and all of it once the writing is over. */
  ghost predicate Honest(seen: Seen, over: bool, log: Bytes, from: nat, max: nat) {
    seen.Layout? ==> seen.total <= |log| && (over ==> seen.total == |log|) && Reads(seen.read, log, from, max)
  }

  /** The pieces are the log's bytes from `from` to `to`, each piece after the one before; an end is at `to`. */
  ghost predicate Exact(pieces: seq<Piece>, log: Bytes, from: nat, to: nat)
    requires from <= to <= |log|
    decreases |pieces|
  {
    if pieces == [] then from == to
    else
      match pieces[0].what
      case Chunk(start, end, text) =>
        start == from && from < end <= to && text == log[from..end] && Exact(pieces[1..], log, end, to)
      case Ended(end, _) => end == from == to && Exact(pieces[1..], log, from, to)
      case Began(_) => false
  }

  /** Every text is whole characters. */
  ghost predicate WholeCharacters(pieces: seq<Piece>) {
    forall p <- pieces :: p.what.Chunk? ==> Valid(p.what.text)
  }

  /** How much may be kept back: less than a line too long, or a character unfinished. */
  ghost predicate Bounded(carry: Bytes, s: Settings) {
    |carry| <= s.lineMax || |carry| <= 3
  }

  lemma SentSomeIsExact(f: Following, n: nat, finished: bool, complete: bool, now: nat, log: Bytes)
    requires Follows(f, log) && n <= |f.carry|
    ensures var (g, pieces) := SentSome(f, n, finished, complete, now);
            && Follows(g, log) && g.sent == f.sent + n && g.Read() == f.Read()
            && Exact(pieces, log, f.sent, g.sent)
  {
    var g := Drained(f, n, now);
    ExactConcat(TextOf(f, n), EndOf(g, finished, complete), log, f.sent, g.sent, g.sent);
  }

  lemma SentIsExact(f: Following, s: Settings, finished: bool, complete: bool, now: nat, log: Bytes)
    requires Follows(f, log)
    ensures var (g, pieces) := Sent(f, s, finished, complete, now);
            && Follows(g, log) && f.sent <= g.sent && g.Read() == f.Read()
            && Exact(pieces, log, f.sent, g.sent)
            && Bounded(g.carry, s)
  {
    SentSomeIsExact(f, HowMuch(f.carry, f.since, s, finished, now), finished, complete, now, log);
  }

  /** What goes of a carry that starts on a character ends on one; forced out, all of what is whole goes. */
  lemma HowMuchIsWhole(carry: Bytes, since: Option<nat>, s: Settings, finished: bool, now: nat)
    requires Text(carry)
    ensures var n := HowMuch(carry, since, s, finished, now);
            Valid(carry[..n]) && (finished && Valid(carry) ==> n == |carry|)
  {
    var n := HowMuch(carry, since, s, finished, now);
    ScannedIsValid(carry);
    assert carry[..|carry|] == carry;
    if n > 0 && n == LastLine(carry) {
      NewlineEndsCharacter(carry, n - 1);
    }
  }

  lemma CarryIsText(f: Following, log: Bytes)
    requires Follows(f, log) && Text(log) && AtCharacter(f, log)
    ensures Text(f.carry)
    ensures f.Read() == |log| && Valid(log) ==> Valid(f.carry)
  {
    SliceIsText(log, f.sent, f.Read());
  }

  /** An end is at `to`, and only of a writing that is finished. */
  ghost predicate EndsAt(pieces: seq<Piece>, to: nat, finished: bool) {
    forall p <- pieces :: p.what.Ended? ==> p.what.end == to && finished
  }

  lemma SentSomeIsWhole(f: Following, n: nat, finished: bool, complete: bool, now: nat, log: Bytes)
    requires Follows(f, log) && AtCharacter(f, log) && n <= |f.carry| && Valid(f.carry[..n])
    ensures var (g, pieces) := SentSome(f, n, finished, complete, now);
            && g.sent == f.sent + n <= |log| && AtCharacter(g, log) && WholeCharacters(pieces)
            && EndsAt(pieces, g.sent, finished)
  {
    CutAtCharacter(f, n, log);
  }

  /** Text that starts on a character is sent in whole characters. */
  lemma SentIsWhole(f: Following, s: Settings, finished: bool, complete: bool, now: nat, log: Bytes)
    requires Follows(f, log) && Text(log) && AtCharacter(f, log)
    ensures var (g, pieces) := Sent(f, s, finished, complete, now);
            && g.sent <= |log| && AtCharacter(g, log) && WholeCharacters(pieces)
            && EndsAt(pieces, g.sent, finished)
            && (finished && f.Read() == |log| && Valid(log) ==> g.sent == |log|)
  {
    CarryIsText(f, log);
    HowMuchIsWhole(f.carry, f.since, s, finished, now);
    SentSomeIsWhole(f, HowMuch(f.carry, f.since, s, finished, now), finished, complete, now, log);
  }

  lemma CutAtCharacter(f: Following, n: nat, log: Bytes)
    requires Follows(f, log) && AtCharacter(f, log) && n <= |f.carry| && Valid(f.carry[..n])
    ensures Valid(log[..f.sent + n])
  {
    ValidUpTo(f.carry, f.sent, log, n);
  }

  /** Text not forced out ends at a line's end. */
  lemma UnforcedEndsLine(f: Following, s: Settings, complete: bool, now: nat)
    requires |f.carry| - LastLine(f.carry) < s.lineMax
    requires f.since.Some? ==> now < f.since.value + s.carryWait
    ensures var (g, pieces) := Sent(f, s, false, complete, now);
            && (forall p <- pieces :: p.what.Chunk? && p.what.text != [] && p.what.text[|p.what.text| - 1] == NEWLINE)
            && NEWLINE !in g.carry
  {
  }

  /** What was read continues the carry, and all was read where there is no more. */
  lemma TakeFollows(f: Following, over: bool, seen: Seen, now: nat, log: Bytes, max: nat)
    requires Follows(f, log) && Honest(seen, over, log, f.Read(), max)
    ensures var t := Take(f, seen, now);
            t.Go? ==>
              && Follows(t.f, log) && t.f.sent == f.sent && t.f.fence == f.fence && t.f.gen == f.gen && !t.f.ended
              && |t.f.carry| <= |f.carry| + max
              && (over && !t.more && !t.gone ==> t.f.Read() == |log|)
  {
    var t := Take(f, seen, now);
    if t.Go? && t.f != f {
      var b := seen.read.bytes;
      assert log[f.sent..f.Read()] + log[f.Read()..f.Read() + |b|] == log[f.sent..f.Read() + |b|];
    }
  }

  /** One pass over an append-only writing: exact, in order, in bounds. */
  lemma AdvanceIsExact(f: Following, s: Settings, over: bool, seen: Seen, now: nat, log: Bytes)
    requires Follows(f, log) && Bounded(f.carry, s) && Honest(seen, over, log, f.Read(), s.step)
    ensures var (g, pieces, _) := Advanced(f, s, over, seen, now);
            && Follows(g, log) && Bounded(g.carry, s)
            && f.sent <= g.sent && Exact(pieces, log, f.sent, g.sent)
            && g.fence == f.fence && g.gen == f.gen
  {
    TakeFollows(f, over, seen, now, log, s.step);
    var t := Take(f, seen, now);
    if t.Go? {
      SentIsExact(t.f, s, over && (t.gone || !t.more), !t.gone, now, log);
    }
  }

  /** And in whole characters, where it began on one; a complete end is the whole log's. */
  lemma AdvanceIsWhole(f: Following, s: Settings, over: bool, seen: Seen, now: nat, log: Bytes)
    requires Follows(f, log) && Honest(seen, over, log, f.Read(), s.step)
    requires Text(log) && AtCharacter(f, log)
    ensures var (g, pieces, _) := Advanced(f, s, over, seen, now);
            && g.sent <= |log| && AtCharacter(g, log) && WholeCharacters(pieces)
            && (Valid(log) ==> forall p <- pieces :: p.what.Ended? && p.what.complete ==> p.what.end == |log|)
  {
    TakeFollows(f, over, seen, now, log, s.step);
    var t := Take(f, seen, now);
    if t.Go? {
      SentIsWhole(t.f, s, over && (t.gone || !t.more), !t.gone, now, log);
    }
  }

  // ── how a stream begins ────────────────────────────────────────────────────

  /** A stream begins with the log's bytes past where it says it began. */
  lemma StartFollows(was: Option<Following>, s: Settings, row: Row, seen: Seen, now: nat, log: Bytes)
    requires seen.Layout? && (row.over || seen.read.Took?)
    requires Honest(seen, row.over, log, WindowStart(seen.total, s), seen.total - WindowStart(seen.total, s))
    ensures var (f, pieces, _) := Started(was, s, row, seen, now);
            && f.Some? && Follows(f.value, log) && |f.value.carry| <= s.lineMax
            && f.value.fence == row.fence && f.value.gen == row.gen
            && Piece(row.fence, row.gen, Began(f.value.sent)) in pieces
  {
    var (f, pieces, _) := Started(was, s, row, seen, now);
    var k := |Abandoned(was, row)|;
    assert pieces[k] == Piece(row.fence, row.gen, Began(f.value.sent));
    if !row.over {
      var from := WindowStart(seen.total, s);
      var b := seen.read.bytes;
      var at := BeginAt(b, from);
      assert b[at..] == log[from + at..from + |b|];
    }
  }

  /** Inside a character no byte begins one. */
  lemma {:induction false} InsideBegins(b: Bytes, k: nat)
    requires Text(b) && k < |b| && !Valid(b[..k])
    ensures Width(b[k]) == 0
    decreases |b|
  {
    assert k > 0;
    if First(b).Whole? && First(b).n <= k {
      var n := First(b).n;
      assert First(b[..k]) == Whole(n);
      assert b[..k][n..] == b[n..][..k - n];
      InsideBegins(b[n..], k - n);
    }
  }

  lemma CutIsWhole(b: Bytes)
    requires Text(b)
    ensures Valid(b[..Cut(b, true)])
  {
    ScannedIsValid(b);
    assert b[..|b|] == b;
  }

  lemma ValidUpTo(b: Bytes, from: nat, log: Bytes, at: nat)
    requires from + |b| <= |log| && b == log[from..from + |b|] && at <= |b|
    requires Valid(log[..from]) && Valid(b[..at])
    ensures Valid(log[..from + at])
  {
    assert b[..at] == log[from..from + at];
    ValidOnward(log, from, from + at);
  }

  lemma BeginsPastNewline(b: Bytes, from: nat, log: Bytes)
    requires Text(log) && from + |b| <= |log| && b == log[from..from + |b|]
    requires NEWLINE in b
    ensures Valid(log[..from + BeginAt(b, from)])
  {
    var at := BeginAt(b, from);
    assert b[0..] == b;
    assert log[from + at - 1] == b[at - 1];
    NewlineEndsCharacter(log, from + at - 1);
  }

  lemma BeginsWhereWindowDoes(b: Bytes, from: nat, log: Bytes)
    requires Text(log) && from + |b| <= |log| && b == log[from..from + |b|]
    requires NEWLINE !in b && Valid(log[..from])
    ensures Valid(log[..from + BeginAt(b, from)])
  {
    SliceIsText(log, from, from + |b|);
    if from > 0 {
      CutIsWhole(b);
      ValidUpTo(b, from, log, Cut(b, true));
    }
  }

  lemma BeginsAfterWindow(b: Bytes, from: nat, log: Bytes)
    requires Text(log) && from + |b| <= |log| && b == log[from..from + |b|]
    requires NEWLINE !in b && !Valid(log[..from])
    ensures BeginAt(b, from) == |b|
  {
    assert from > 0 by {
      assert log[..0] == [];
    }
    if b != [] {
      InsideBegins(log, from);
      assert log[from] == b[0];
    }
  }

  /**
   A stream of text begins on a character exactly when its window holds a
   newline, or starts or ends on a character.
   */
  lemma BeginsOnCharacterIff(b: Bytes, from: nat, log: Bytes)
    requires Text(log) && from + |b| <= |log| && b == log[from..from + |b|]
    ensures Valid(log[..from + BeginAt(b, from)])
       <==> NEWLINE in b || Valid(log[..from]) || Valid(log[..from + |b|])
  {
    if NEWLINE in b {
      BeginsPastNewline(b, from, log);
    } else if Valid(log[..from]) {
      BeginsWhereWindowDoes(b, from, log);
    } else {
      BeginsAfterWindow(b, from, log);
    }
  }

  /** `n` characters of three bytes each. */
  function Euros(n: nat): (b: Bytes)
    ensures |b| == 3 * n
  {
    if n == 0 then [] else [0xE2, 0x82, 0xAC] + Euros(n - 1)
  }

  /** A part of them is whole characters only where it ends on one; a newline there is none. */
  lemma {:induction false} EurosCut(n: nat, k: nat)
    requires k <= 3 * n
    ensures Text(Euros(n)[..k]) && (Valid(Euros(n)[..k]) <==> k % 3 == 0) && NEWLINE !in Euros(n)
    decreases n
  {
    if n > 0 {
      var one: Bytes, rest, b := [0xE2, 0x82, 0xAC], Euros(n - 1), Euros(n);
      EurosCut(n - 1, if k >= 3 then k - 3 else 0);
      if k >= 3 {
        assert b[..k] == one + rest[..k - 3];
        assert First(one) == Whole(3) && one[3..] == [];
        ScanAfter(one, rest[..k - 3]);
      } else {
        assert b[..k] == one[..k];
        assert k > 0 ==> First(one[..k]) == Short;
      }
    }
  }

  lemma EurosWindow(n: nat, from: nat, end: nat)
    requires from <= end <= 3 * n && from % 3 != 0 && end % 3 != 0
    ensures !Valid(Euros(n)[..from + BeginAt(Euros(n)[from..end], from)])
  {
    EurosAreText(n);
    EurosCut(n, from);
    EurosCut(n, end);
    var b := Euros(n)[from..end];
    assert NEWLINE !in b;
    BeginsOnCharacterIff(b, from, Euros(n));
  }

  lemma EurosAreText(n: nat)
    ensures Valid(Euros(n)) && Text(Euros(n))
  {
    EurosCut(n, 3 * n);
    assert Euros(n)[..3 * n] == Euros(n);
  }

  /** The most of a line a relay keeps back. */
  const LINE_MAX := 65536

  lemma WindowInside(end: nat, s: Settings)
    requires s.lineMax == LINE_MAX && LINE_MAX < end && end % 3 == 2
    ensures WindowStart(end, s) % 3 == 1
  {
  }

  /**
   It need not: a log of such characters seen inside its last one, too long for
   the window, begins inside a character where the window does not start on one.
   */
  lemma BeginsInsideCharacter(n: nat, end: nat, s: Settings, log: Bytes, from: nat, b: Bytes)
    requires s.lineMax == LINE_MAX && LINE_MAX < end <= 3 * n && end % 3 == 2
    requires log == Euros(n) && from == WindowStart(end, s) && b == log[from..end]
    ensures Valid(log) && Reads(Took(b), log, from, end - from) && !Valid(log[..from + BeginAt(b, from)])
  {
    WindowInside(end, s);
    EurosAreText(n);
    EurosWindow(n, from, end);
  }

  /** A log seen at a character's end begins on one. */
  lemma SeenWholeBeginsOnCharacter(b: Bytes, from: nat, log: Bytes)
    requires Text(log) && from + |b| <= |log| && b == log[from..from + |b|] && Valid(log[..from + |b|])
    ensures Valid(log[..from + BeginAt(b, from)])
  {
    BeginsOnCharacterIff(b, from, log);
  }

  // ── any number of passes over one writing ──────────────────────────────────

  /** What one pass meets, and the log as it then is. */
  datatype Look = Look(over: bool, seen: Seen, now: nat, log: Bytes)

  function Run(f: Following, s: Settings, looks: seq<Look>): (r: (Following, seq<Piece>))
    decreases |looks|
  {
    if looks == [] then (f, [])
    else
      var l := looks[0];
      var (g, first, _) := Advanced(f, s, l.over, l.seen, l.now);
      var (h, rest) := Run(g, s, looks[1..]);
      (h, first + rest)
  }

  /** Each pass sees its log as it is, and the log only grows, up to `last`. */
  ghost predicate HonestRun(f: Following, s: Settings, looks: seq<Look>, last: Bytes)
    decreases |looks|
  {
    looks != [] ==>
      var l := looks[0];
      && Honest(l.seen, l.over, l.log, f.Read(), s.step)
      && l.log <= last
      && (l.over ==> l.log == last)
      && HonestRun(Advanced(f, s, l.over, l.seen, l.now).0, s, looks[1..], last)
      && (looks[1..] != [] ==> l.log <= looks[1].log)
  }

  lemma FollowsLonger(f: Following, log: Bytes, longer: Bytes)
    requires Follows(f, log) && log <= longer
    ensures Follows(f, longer)
  {
  }

  lemma {:induction false} ExactLonger(pieces: seq<Piece>, log: Bytes, longer: Bytes, from: nat, to: nat)
    requires from <= to <= |log| && log <= longer && Exact(pieces, log, from, to)
    ensures Exact(pieces, longer, from, to)
    decreases |pieces|
  {
    if pieces != [] {
      match pieces[0].what
      case Chunk(start, end, text) =>
        assert longer[from..end] == log[from..end];
        ExactLonger(pieces[1..], log, longer, end, to);
      case Ended(end, _) => ExactLonger(pieces[1..], log, longer, from, to);
      case Began(_) =>
    }
  }

  lemma {:induction false} ExactConcat(a: seq<Piece>, b: seq<Piece>, log: Bytes, from: nat, mid: nat, to: nat)
    requires from <= mid <= to <= |log|
    requires Exact(a, log, from, mid) && Exact(b, log, mid, to)
    requires b != [] ==> forall p <- a :: !p.what.Ended?
    ensures Exact(a + b, log, from, to)
    decreases |a|
  {
    if a == [] {
      assert a + b == b;
    } else if b == [] {
      assert a + b == a;
      assert mid == to;
    } else {
      assert (a + b)[1..] == a[1..] + b;
      assert (a + b)[0] == a[0] && a[0] in a;
      match a[0].what
      case Chunk(start, end, text) =>
        assert mid >= end;
        ExactConcat(a[1..], b, log, end, mid, to);
      case _ =>
    }
  }

  /** Once a pass has ended a writing, no pass sends more of it. */
  lemma {:induction false} EndedIsSilent(f: Following, s: Settings, looks: seq<Look>)
    requires f.ended
    ensures Run(f, s, looks) == (f, [])
    decreases |looks|
  {
    if looks != [] {
      var l := looks[0];
      var nothing: seq<Piece> := [];
      assert nothing + nothing == nothing;
      EndedIsSilent(f, s, looks[1..]);
    }
  }

  /**
   Following a log is exact: whatever the passes met, what they sent is the log
   from where they started to where they got to, in order and without a gap,
   and what is kept back is the bytes after that.
   */
  lemma {:induction false} RunIsExact(f: Following, s: Settings, looks: seq<Look>, log: Bytes)
    requires HonestRun(f, s, looks, log)
    requires f.Read() <= |log| && (looks != [] ==> Follows(f, looks[0].log)) && Follows(f, log) && Bounded(f.carry, s)
    ensures var (g, pieces) := Run(f, s, looks);
            && Follows(g, log) && Bounded(g.carry, s)
            && f.sent <= g.sent && Exact(pieces, log, f.sent, g.sent)
    decreases |looks|
  {
    if looks != [] {
      var l := looks[0];
      AdvanceIsExact(f, s, l.over, l.seen, l.now, l.log);
      var (g, first, more) := Advanced(f, s, l.over, l.seen, l.now);
      FollowsLonger(g, l.log, log);
      ExactLonger(first, l.log, log, f.sent, g.sent);
      if looks[1..] != [] {
        FollowsLonger(g, l.log, looks[1..][0].log);
      }
      RunIsExact(g, s, looks[1..], log);
      var (h, rest) := Run(g, s, looks[1..]);
      if g.ended {
        EndedIsSilent(g, s, looks[1..]);
      }
      ExactConcat(first, rest, log, f.sent, g.sent, h.sent);
    }
  }

  /** A stream of text begun on a character never splits one, and a complete end is at the log's. */
  lemma {:induction false} RunIsWhole(f: Following, s: Settings, looks: seq<Look>, log: Bytes)
    requires HonestRun(f, s, looks, log)
    requires f.Read() <= |log| && (looks != [] ==> Follows(f, looks[0].log)) && Follows(f, log) && Bounded(f.carry, s)
    requires Text(log) && AtCharacter(f, log)
    ensures var (g, pieces) := Run(f, s, looks);
            && g.sent <= |log| && AtCharacter(g, log) && WholeCharacters(pieces)
            && (Valid(log) ==> forall p <- pieces :: p.what.Ended? && p.what.complete ==> p.what.end == |log|)
    decreases |looks|
  {
    if looks != [] {
      var l := looks[0];
      assert l.log[..f.sent] == log[..f.sent];
      TextPrefix(log, |l.log|);
      assert log[..|l.log|] == l.log;
      AdvanceIsExact(f, s, l.over, l.seen, l.now, l.log);
      AdvanceIsWhole(f, s, l.over, l.seen, l.now, l.log);
      var (g, first, more) := Advanced(f, s, l.over, l.seen, l.now);
      assert l.log[..g.sent] == log[..g.sent];
      FollowsLonger(g, l.log, log);
      if looks[1..] != [] {
        FollowsLonger(g, l.log, looks[1..][0].log);
      }
      RunIsWhole(g, s, looks[1..], log);
    }
  }

  /**
   From the pass that starts on a writing: it says where it began, and what the
   passes after it send is the log from there.
   */
  lemma StreamIsTheLog(was: Option<Following>, s: Settings, row: Row, seen: Seen, now: nat, begun: Bytes,
                       looks: seq<Look>, log: Bytes)
    requires seen.Layout? && (row.over || seen.read.Took?)
    requires Honest(seen, row.over, begun, WindowStart(seen.total, s), seen.total - WindowStart(seen.total, s))
    requires begun <= log && (looks != [] ==> begun <= looks[0].log)
    requires HonestRun(Started(was, s, row, seen, now).0.value, s, looks, log)
    ensures var (f, first, _) := Started(was, s, row, seen, now);
            var (g, pieces) := Run(f.value, s, looks);
            && Piece(row.fence, row.gen, Began(f.value.sent)) in first
            && f.value.sent <= g.sent <= |log| && Exact(pieces, log, f.value.sent, g.sent)
            && Follows(g, log) && Bounded(g.carry, s)
  {
    StartFollows(was, s, row, seen, now, begun);
    var f := Started(was, s, row, seen, now).0.value;
    FollowsLonger(f, begun, log);
    if looks != [] {
      FollowsLonger(f, begun, looks[0].log);
    }
    RunIsExact(f, s, looks, log);
  }
}
