/**
 The ledger's file (crates/dagron-artifact/src/tiered.rs): one record a line,
 appended as they are made and rewritten now and then, and what replaying it
 after a crash brings back.
 */
module LedgerFile {
  import opened Common
  import opened Ledger

  // ── records as lines ───────────────────────────────────────────────────────

  /** How records are written and read; what else a line may be is blank or malformed. */
  datatype Codec = Codec(enc: Record -> Bytes, dec: Bytes -> Option<Record>, blank: Bytes -> bool)

  /** A line that is not blank, and no record. */
  predicate Malformed(c: Codec, line: Bytes) {
    !c.blank(line) && c.dec(line).None?
  }

  /** A record is one line, read back as written; a part of it is no record, nor is one with more after it. */
  ghost predicate Faithful(c: Codec) {
    && c.blank([])
    && (forall r :: c.dec(c.enc(r)) == Some(r) && NEWLINE !in c.enc(r) && !c.blank(c.enc(r)))
    && (forall r, k :: 0 < k < |c.enc(r)| ==> Malformed(c, c.enc(r)[..k]))
    && (forall r, more, k :: 0 < k <= |c.enc(more)| ==> Malformed(c, c.enc(r) + c.enc(more)[..k]))
  }

  function Encode(c: Codec, recs: seq<Record>): Bytes
    decreases |recs|
  {
    if recs == [] then [] else Encode(c, recs[..|recs| - 1]) + c.enc(recs[|recs| - 1]) + [NEWLINE]
  }

  // ── replay ─────────────────────────────────────────────────────────────────

  /** What replaying makes, and whether a line of it was malformed. */
  datatype Loaded = Loaded(mem: Mem, damaged: bool)

  const START := Loaded(EMPTY, false)

  function LineRead(c: Codec, line: Bytes, got: Loaded): Loaded {
    if c.blank(line) then got
    else
      match c.dec(line)
      case Some(rec) => got.(mem := Applied(got.mem, rec))
      case None => got.(damaged := true)
  }

  function LineEnd(text: Bytes): (i: nat)
    ensures i <= |text|
  {
    if text == [] || text[0] == NEWLINE then 0 else 1 + LineEnd(text[1..])
  }

  lemma {:induction false} EndIsFirst(text: Bytes)
    ensures var i := LineEnd(text);
            NEWLINE !in text[..i] && (i < |text| ==> text[i] == NEWLINE)
    decreases |text|
  {
    if text != [] && text[0] != NEWLINE {
      EndIsFirst(text[1..]);
      var i := LineEnd(text[1..]);
      assert text[..i + 1] == [text[0]] + text[1..][..i];
    }
  }

  /** The lines of a file; the last may lack its end. */
  function Lines(text: Bytes): seq<Bytes>
    decreases |text|
  {
    if text == [] then []
    else
      var i := LineEnd(text);
      [text[..i]] + if i < |text| then Lines(text[i + 1..]) else []
  }

  function Read(c: Codec, lines: seq<Bytes>, got: Loaded): Loaded
    decreases |lines|
  {
    if lines == [] then got else LineRead(c, lines[|lines| - 1], Read(c, lines[..|lines| - 1], got))
  }

  function Replay(c: Codec, text: Bytes, got: Loaded): Loaded {
    Read(c, Lines(text), got)
  }

  lemma EndsThere(text: Bytes, line: Bytes, rest: Bytes)
    requires NEWLINE !in line && text == line + [NEWLINE] + rest
    ensures LineEnd(text) == |line|
  {
    EndIsFirst(text);
    var i := LineEnd(text);
    assert text[|line|] == NEWLINE;
    assert forall k :: 0 <= k < |line| ==> text[k] == line[k] && line[k] in line;
    assert forall k :: 0 <= k < i ==> text[k] == text[..i][k] && text[k] in text[..i];
  }

  lemma LinesOfLine(line: Bytes, rest: Bytes)
    requires NEWLINE !in line
    ensures Lines(line + [NEWLINE] + rest) == [line] + Lines(rest)
  {
    var text := line + [NEWLINE] + rest;
    EndsThere(text, line, rest);
    assert text[..|line|] == line && text[|line| + 1..] == rest;
  }

  lemma LinesOfPart(line: Bytes)
    requires NEWLINE !in line && line != []
    ensures Lines(line) == [line]
  {
    EndIsFirst(line);
    assert forall k :: 0 <= k < |line| ==> line[k] in line;
    assert line[..|line|] == line;
  }

  lemma {:induction false} ReadInTurn(c: Codec, a: seq<Bytes>, b: seq<Bytes>, got: Loaded)
    ensures Read(c, a + b, got) == Read(c, b, Read(c, a, got))
    decreases |b|
  {
    if b == [] {
      assert a + b == a;
    } else {
      var n := |b| - 1;
      ReadInTurn(c, a, b[..n], got);
      assert (a + b)[..|a + b| - 1] == a + b[..n] && (a + b)[|a + b| - 1] == b[n];
    }
  }

  /** A file that ends with its line's end. */
  predicate Clean(text: Bytes) {
    text == [] || text[|text| - 1] == NEWLINE
  }

  /** The first line of a clean file, and what is after it. */
  lemma SplitLine(text: Bytes) returns (line: Bytes, rest: Bytes)
    requires Clean(text) && text != []
    ensures NEWLINE !in line && text == line + [NEWLINE] + rest && Clean(rest) && |rest| < |text|
  {
    EndIsFirst(text);
    var i := LineEnd(text);
    assert forall k :: 0 <= k < i ==> text[k] == text[..i][k] && text[k] in text[..i];
    line, rest := text[..i], text[i + 1..];
  }

  lemma LinesJoin(text: Bytes, line: Bytes, rest: Bytes, more: Bytes)
    requires NEWLINE !in line && text == line + [NEWLINE] + rest
    ensures Lines(text + more) == [line] + Lines(rest + more)
    ensures Lines(text) == [line] + Lines(rest)
  {
    assert line + [NEWLINE] + rest + more == line + [NEWLINE] + (rest + more);
    LinesOfLine(line, rest + more);
    LinesOfLine(line, rest);
  }

  lemma {:induction false} LinesInTurn(text: Bytes, more: Bytes)
    requires Clean(text)
    ensures Lines(text + more) == Lines(text) + Lines(more)
    decreases |text|
  {
    if text == [] {
      assert text + more == more;
    } else {
      var line, rest := SplitLine(text);
      LinesInTurn(rest, more);
      LinesJoin(text, line, rest, more);
    }
  }

  /** What is appended to a clean file is replayed after it. */
  lemma ReplayInTurn(c: Codec, text: Bytes, more: Bytes, got: Loaded)
    requires Clean(text)
    ensures Replay(c, text + more, got) == Replay(c, more, Replay(c, text, got))
  {
    LinesInTurn(text, more);
    ReadInTurn(c, Lines(text), Lines(more), got);
  }

  lemma ReadOne(c: Codec, line: Bytes, got: Loaded)
    ensures Read(c, [line], got) == LineRead(c, line, got)
  {
    assert [line][..0] == [];
  }

  lemma ReplayLine(c: Codec, line: Bytes, got: Loaded)
    requires NEWLINE !in line
    ensures Replay(c, line + [NEWLINE], got) == LineRead(c, line, got)
  {
    LinesOfLine(line, []);
    assert line + [NEWLINE] + [] == line + [NEWLINE];
    assert [line] + Lines([]) == [line];
    ReadOne(c, line, got);
  }

  lemma {:induction false} ReplayEncoded(c: Codec, recs: seq<Record>, got: Loaded)
    requires Faithful(c)
    ensures Replay(c, Encode(c, recs), got) == got.(mem := AppliedAll(got.mem, recs))
    decreases |recs|
  {
    if recs != [] {
      var n := |recs| - 1;
      var (init, line) := (recs[..n], c.enc(recs[n]));
      ReplayEncoded(c, init, got);
      ReplayInTurn(c, Encode(c, init), line + [NEWLINE], got);
      ReplayLine(c, line, Replay(c, Encode(c, init), got));
      assert Encode(c, recs) == Encode(c, init) + (line + [NEWLINE]);
    }
  }

  lemma {:induction false} ReadWf(c: Codec, lines: seq<Bytes>, got: Loaded)
    requires Wf(got.mem)
    ensures Wf(Read(c, lines, got).mem)
    decreases |lines|
  {
    if lines != [] {
      var n := |lines| - 1;
      ReadWf(c, lines[..n], got);
      if c.dec(lines[n]).Some? {
        AppliedWf(Read(c, lines[..n], got).mem, c.dec(lines[n]).value);
      }
    }
  }

  // ── what is on disk ────────────────────────────────────────────────────────

  /** Replaying the file rebuilds memory, and the next append starts a line. */
  ghost predicate Holds(c: Codec, file: Bytes, m: Mem) {
    Clean(file) && !Replay(c, file, START).damaged && Equiv(m, Replay(c, file, START).mem)
  }

  lemma AppendHolds(c: Codec, file: Bytes, m: Mem, recs: seq<Record>)
    requires Faithful(c) && Wf(m) && Holds(c, file, m)
    ensures Holds(c, file + Encode(c, recs), AppliedAll(m, recs))
  {
    var got := Replay(c, file, START);
    ReplayInTurn(c, file, Encode(c, recs), START);
    ReplayEncoded(c, recs, got);
    ReadWf(c, Lines(file), START);
    AppliedAllEquiv(m, got.mem, recs);
  }

  lemma RewriteHolds(c: Codec, m: Mem)
    requires Faithful(c) && Wf(m)
    ensures Holds(c, Encode(c, Snapshot(m)), m)
  {
    ReplayEncoded(c, Snapshot(m), START);
    SnapshotReplays(m);
  }

  // ── a torn write ───────────────────────────────────────────────────────────

  lemma {:induction false} EncodedPrefix(c: Codec, recs: seq<Record>, n: nat)
    requires n <= |recs|
    ensures |Encode(c, recs[..n])| <= |Encode(c, recs)|
    ensures Encode(c, recs)[..|Encode(c, recs[..n])|] == Encode(c, recs[..n])
    decreases |recs|
  {
    if n == |recs| {
      assert recs[..n] == recs;
    } else {
      var init := recs[..|recs| - 1];
      EncodedPrefix(c, init, n);
      assert init[..n] == recs[..n];
    }
  }

  /** How many records the first `k` bytes hold whole. */
  lemma {:induction false} WholeRecords(c: Codec, recs: seq<Record>, k: nat) returns (n: nat)
    requires k <= |Encode(c, recs)|
    ensures n <= |recs| && |Encode(c, recs[..n])| <= k
    ensures n < |recs| ==> k < |Encode(c, recs[..n + 1])|
    decreases |recs|
  {
    assert recs[..|recs|] == recs;
    if recs == [] || k == |Encode(c, recs)| {
      return |recs|;
    }
    var init := recs[..|recs| - 1];
    if |Encode(c, init)| <= k {
      return |recs| - 1;
    }
    assert init[..|init|] == init;
    n := WholeRecords(c, init, k);
    assert init[..n] == recs[..n] && init[..n + 1] == recs[..n + 1];
  }

  /** One byte short of the end of a record: the record is whole, its newline is not there. */
  ghost predicate BeforeNewline(c: Codec, recs: seq<Record>, k: nat) {
    exists n :: 0 < n <= |recs| && k + 1 == |Encode(c, recs[..n])|
  }

  lemma EncodedNext(c: Codec, recs: seq<Record>, n: nat)
    requires n < |recs|
    ensures Encode(c, recs[..n + 1]) == Encode(c, recs[..n]) + c.enc(recs[n]) + [NEWLINE]
  {
    assert recs[..n + 1][..n] == recs[..n];
  }

  lemma {:induction false} EncodedGrows(c: Codec, recs: seq<Record>, n: nat, i: nat)
    requires n <= i <= |recs|
    ensures |Encode(c, recs[..i])| >= |Encode(c, recs[..n])|
    decreases i
  {
    if n < i {
      EncodedGrows(c, recs, n, i - 1);
      EncodedNext(c, recs, i - 1);
    }
  }

  /** With `n` records whole, only the next can be one byte short. */
  lemma OneShortIff(c: Codec, recs: seq<Record>, k: nat, n: nat)
    requires n <= |recs| && |Encode(c, recs[..n])| <= k
    requires n < |recs| ==> k < |Encode(c, recs[..n + 1])|
    ensures BeforeNewline(c, recs, k) <==> n < |recs| && k + 1 == |Encode(c, recs[..n + 1])|
  {
    if BeforeNewline(c, recs, k) {
      var i :| 0 < i <= |recs| && k + 1 == |Encode(c, recs[..i])|;
      if i <= n {
        EncodedGrows(c, recs, i, n);
      } else if n + 1 < i {
        EncodedGrows(c, recs, n + 1, i - 1);
        EncodedNext(c, recs, i - 1);
      }
    }
  }

  /** Part of a record's line: not enough of it, none of it, or all but its newline. */
  lemma PartReplays(c: Codec, rec: Record, k: nat, got: Loaded)
    requires Faithful(c) && k <= |c.enc(rec)|
    ensures var part := c.enc(rec)[..k];
            Replay(c, part, got) == if k == 0 then got
                                    else if k == |c.enc(rec)| then got.(mem := Applied(got.mem, rec))
                                    else got.(damaged := true)
    ensures NEWLINE !in c.enc(rec)[..k] && |c.enc(rec)| > 0
  {
    if k > 0 {
      LinesOfPart(c.enc(rec)[..k]);
      ReadOne(c, c.enc(rec)[..k], got);
    }
    assert c.enc(rec)[..|c.enc(rec)|] == c.enc(rec);
    assert c.enc(rec) != [];
  }

  /** The file after a crash in the middle of an append: the first `k` of its bytes got there. */
  function Torn(c: Codec, file: Bytes, recs: seq<Record>, k: nat): Bytes
    requires k <= |Encode(c, recs)|
  {
    file + Encode(c, recs)[..k]
  }

  lemma AppendReplays(c: Codec, base: Bytes, recs: seq<Record>)
    requires Faithful(c) && Clean(base)
    ensures Clean(base + Encode(c, recs))
    ensures Replay(c, base + Encode(c, recs), START)
         == Replay(c, base, START).(mem := AppliedAll(Replay(c, base, START).mem, recs))
  {
    ReplayInTurn(c, base, Encode(c, recs), START);
    ReplayEncoded(c, recs, Replay(c, base, START));
  }

  lemma TornAt(c: Codec, file: Bytes, recs: seq<Record>, k: nat, n: nat)
    requires n < |recs| && k <= |Encode(c, recs)|
    requires |Encode(c, recs[..n])| <= k < |Encode(c, recs[..n + 1])|
    ensures var at := k - |Encode(c, recs[..n])|;
            && at <= |c.enc(recs[n])|
            && Torn(c, file, recs, k) == file + Encode(c, recs[..n]) + c.enc(recs[n])[..at]
  {
    EncodedNext(c, recs, n);
    EncodedPrefix(c, recs, n + 1);
    var e := Encode(c, recs[..n + 1]);
    assert Encode(c, recs)[..k] == Encode(c, recs)[..|e|][..k] == e[..k];
  }

  /** How a reload finds a torn file: what it brings back, and whether it then knows of the tear. */
  ghost predicate Reloads(c: Codec, torn: Bytes, m: Mem, short: bool) {
    var got := Replay(c, torn, START);
    Equiv(m, got.mem) && ((got.damaged || Holds(c, torn, m)) <==> !short)
  }

  lemma TornInside(c: Codec, file: Bytes, m: Mem, rec: Record, k: nat)
    requires Faithful(c) && Wf(m) && Holds(c, file, m) && k <= |c.enc(rec)|
    ensures Reloads(c, file + c.enc(rec)[..k], if k == |c.enc(rec)| then Applied(m, rec) else m, k == |c.enc(rec)|)
  {
    var part := c.enc(rec)[..k];
    var got := Replay(c, file, START);
    ReplayInTurn(c, file, part, START);
    PartReplays(c, rec, k, got);
    ReadWf(c, Lines(file), START);
    if k == |c.enc(rec)| {
      AppliedEquiv(m, got.mem, rec);
      assert (file + part)[|file + part| - 1] == part[k - 1] && part[k - 1] in part;
    } else if k == 0 {
      assert file + part == file;
    }
  }

  lemma TornWithin(c: Codec, file: Bytes, m: Mem, recs: seq<Record>, k: nat, n: nat) returns (whole: nat)
    requires Faithful(c) && Wf(m) && Holds(c, file, m) && k <= |Encode(c, recs)|
    requires n < |recs| && |Encode(c, recs[..n])| <= k < |Encode(c, recs[..n + 1])|
    ensures whole <= |recs|
    ensures Reloads(c, Torn(c, file, recs, k), AppliedAll(m, recs[..whole]), k + 1 == |Encode(c, recs[..n + 1])|)
    ensures whole == |recs| <==> k + 1 >= |Encode(c, recs)|
  {
    TornAt(c, file, recs, k, n);
    EncodedNext(c, recs, n);
    AppendHolds(c, file, m, recs[..n]);
    AppliedAllWf(m, recs[..n]);
    var at := k - |Encode(c, recs[..n])|;
    TornInside(c, file + Encode(c, recs[..n]), AppliedAll(m, recs[..n]), recs[n], at);
    assert recs[..n + 1][..n] == recs[..n];
    EncodedGrows(c, recs, n + 1, |recs|);
    assert recs[..|recs|] == recs;
    if n + 1 < |recs| {
      EncodedGrows(c, recs, n + 2, |recs|);
      EncodedNext(c, recs, n + 1);
    }
    whole := if at == |c.enc(recs[n])| then n + 1 else n;
  }

  /**
   A crash in the middle of an append: some of its records, in turn, are there.
   The next write knows of the tear unless it came exactly before a newline.
   */
  lemma TornReloads(c: Codec, file: Bytes, m: Mem, recs: seq<Record>, k: nat) returns (n: nat)
    requires Faithful(c) && Wf(m) && Holds(c, file, m) && k <= |Encode(c, recs)|
    ensures n <= |recs| && Reloads(c, Torn(c, file, recs, k), AppliedAll(m, recs[..n]), BeforeNewline(c, recs, k))
    ensures n == |recs| <==> k + 1 >= |Encode(c, recs)|
  {
    n := WholeRecords(c, recs, k);
    OneShortIff(c, recs, k, n);
    if n < |recs| {
      n := TornWithin(c, file, m, recs, k, n);
    } else {
      assert recs[..n] == recs;
      assert Encode(c, recs)[..k] == Encode(c, recs);
      AppendHolds(c, file, m, recs);
    }
  }

  // ── a file that may lack its last newline ──────────────────────────────────

  /** All of a clean file, and a record after it without its newline. */
  predicate Unended(c: Codec, file: Bytes, base: Bytes, r: Record) {
    Clean(base) && file == base + c.enc(r)
  }

  lemma {:induction false} EncodedFirst(c: Codec, recs: seq<Record>)
    requires recs != []
    ensures Encode(c, recs) == c.enc(recs[0]) + [NEWLINE] + Encode(c, recs[1..])
    decreases |recs|
  {
    var n := |recs| - 1;
    if n == 0 {
      assert recs[..0] == [] && recs[1..] == [];
      assert [] + c.enc(recs[0]) == c.enc(recs[0]);
    } else {
      EncodedFirst(c, recs[..n]);
      assert recs[..n][1..] == recs[1..][..n - 1];
    }
  }

  /** Part of a record's line after a clean file. */
  lemma PartAppended(c: Codec, base: Bytes, rec: Record, at: nat)
    requires Faithful(c) && Clean(base) && at <= |c.enc(rec)|
    ensures var (file, got) := (base + c.enc(rec)[..at], Replay(c, base, START));
            if at == |c.enc(rec)| then Replay(c, file, START).mem == Applied(got.mem, rec) && Unended(c, file, base, rec)
            else Replay(c, file, START).mem == got.mem && (Replay(c, file, START).damaged || Clean(file))
  {
    ReplayInTurn(c, base, c.enc(rec)[..at], START);
    PartReplays(c, rec, at, Replay(c, base, START));
    if at == |c.enc(rec)| {
      assert c.enc(rec)[..at] == c.enc(rec);
    } else if at == 0 {
      assert base + c.enc(rec)[..at] == base;
    }
  }

  /** What is found after a clean file `base` and some of `recs`. */
  ghost predicate Tailed(c: Codec, base: Bytes, recs: seq<Record>, file: Bytes, n: nat) {
    && n <= |recs|
    && Replay(c, file, START).mem == AppliedAll(Replay(c, base, START).mem, recs[..n])
    && (|| Replay(c, file, START).damaged
        || Clean(file)
        || (n > 0 && Unended(c, file, base + Encode(c, recs[..n - 1]), recs[n - 1])))
  }

  lemma TailedBy(c: Codec, base: Bytes, recs: seq<Record>, n: nat, at: nat)
    requires Faithful(c) && Clean(base) && n < |recs| && at <= |c.enc(recs[n])|
    ensures Tailed(c, base, recs, base + Encode(c, recs[..n]) + c.enc(recs[n])[..at],
                   if at == |c.enc(recs[n])| then n + 1 else n)
  {
    AppendReplays(c, base, recs[..n]);
    PartAppended(c, base + Encode(c, recs[..n]), recs[n], at);
    assert recs[..n + 1][..n] == recs[..n];
  }

  /** A clean file torn in an append has some of its records, in turn. */
  lemma TornTail(c: Codec, base: Bytes, recs: seq<Record>, k: nat) returns (n: nat)
    requires Faithful(c) && Clean(base) && k <= |Encode(c, recs)|
    ensures Tailed(c, base, recs, Torn(c, base, recs, k), n)
    ensures k == |Encode(c, recs)| ==> Clean(Torn(c, base, recs, k))
  {
    n := WholeRecords(c, recs, k);
    assert recs[..|recs|] == recs;
    if n == |recs| {
      AppendReplays(c, base, recs);
      assert Encode(c, recs)[..k] == Encode(c, recs);
    } else {
      TornAt(c, base, recs, k, n);
      EncodedGrows(c, recs, n + 1, |recs|);
      var at := k - |Encode(c, recs[..n])|;
      TailedBy(c, base, recs, n, at);
      n := if at == |c.enc(recs[n])| then n + 1 else n;
    }
  }

  /** A line malformed, ended or not, leaves what is before it. */
  lemma MalformedLine(c: Codec, base: Bytes, line: Bytes)
    requires Clean(base) && NEWLINE !in line && line != [] && Malformed(c, line)
    ensures Replay(c, base + line, START) == Replay(c, base, START).(damaged := true)
    ensures Replay(c, base + (line + [NEWLINE]), START) == Replay(c, base, START).(damaged := true)
  {
    var got := Replay(c, base, START);
    ReplayInTurn(c, base, line, START);
    LinesOfPart(line);
    ReadOne(c, line, got);
    ReplayInTurn(c, base, line + [NEWLINE], START);
    ReplayLine(c, line, got);
  }

  lemma CutAcross(base: Bytes, line: Bytes, first: Bytes, rest: Bytes, k: nat)
    requires k <= |first| + 1 + |rest|
    ensures var torn := base + line + (first + [NEWLINE] + rest)[..k];
            if k <= |first| then torn == base + (line + first[..k])
            else torn == base + (line + first + [NEWLINE]) + rest[..k - |first| - 1]
  {
    if k <= |first| {
      assert (first + [NEWLINE] + rest)[..k] == first[..k];
    } else {
      assert (first + [NEWLINE] + rest)[..k] == first + [NEWLINE] + rest[..k - |first| - 1];
    }
  }

  /** An append to a file without its last newline: its first record and the one before it are one line. */
  lemma TornGlued(c: Codec, base: Bytes, r: Record, recs: seq<Record>, k: nat)
    requires Faithful(c) && recs != [] && 0 < k <= |Encode(c, recs)|
    ensures var (line, first) := (c.enc(r), c.enc(recs[0]));
            if k <= |first| then Torn(c, base + line, recs, k) == base + (line + first[..k])
            else && k - |first| - 1 <= |Encode(c, recs[1..])|
                 && Torn(c, base + line, recs, k)
                 == Torn(c, base + (line + first + [NEWLINE]), recs[1..], k - |first| - 1)
  {
    EncodedFirst(c, recs);
    CutAcross(base, c.enc(r), c.enc(recs[0]), Encode(c, recs[1..]), k);
  }

  lemma NotEmpty(c: Codec, r: Record)
    requires Faithful(c)
    ensures c.enc(r) != []
  {
    assert !c.blank(c.enc(r));
  }

  /** Such a line is no record. */
  lemma GluedLine(c: Codec, r: Record, more: Record, k: nat)
    requires Faithful(c) && 0 < k <= |c.enc(more)|
    ensures var line := c.enc(r) + c.enc(more)[..k];
            line != [] && Malformed(c, line) && NEWLINE !in line
  {
    assert forall b <- c.enc(more)[..k] :: b in c.enc(more);
  }
}
