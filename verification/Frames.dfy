/**
 Artifacts encrypted as a stream (crates/dagron-artifact/src/lib.rs over
 crates/dagron-crypto/src/lib.rs): chunks sealed as they are read, each in a
 frame of its own, the last one marked.
 */
module Frames {
  import opened Common
  import opened Crypto

  // ── frames ─────────────────────────────────────────────────────────────────

  const MAX_FRAME_LEN: nat := 8 * 1024 * 1024
  const READ_SIZE: nat := 64 * 1024

  /** A length of four bytes, and as many bytes. */
  function Frame(data: Bytes): Bytes {
    Le32(|data|) + data
  }

  datatype FrameRead = End | Next(body: Bytes, rest: Bytes) | Bad

  /** The next frame; nothing more; or one cut short, or longer than any is. */
  function ReadFrame(b: Bytes): FrameRead {
    if b == [] then End
    else if |b| < 4 then Bad
    else
      var n := FromLe32(b[..4]);
      if n > MAX_FRAME_LEN || |b| - 4 < n then Bad else Next(b[4..4 + n], b[4 + n..])
  }

  lemma FrameReads(data: Bytes, rest: Bytes)
    requires |data| <= MAX_FRAME_LEN
    ensures ReadFrame(Frame(data) + rest) == Next(data, rest)
  {
    var b := Frame(data) + rest;
    Le32Reads(|data|);
    assert b[..4] == Le32(|data|);
    assert b[4..4 + |data|] == data && b[4 + |data|..] == rest;
  }

  /** A frame cut anywhere is no frame. */
  lemma CutFrame(data: Bytes, k: nat)
    requires |data| <= MAX_FRAME_LEN && k < |Frame(data)|
    ensures !ReadFrame(Frame(data)[..k]).Next?
  {
    var b := Frame(data)[..k];
    if k >= 4 {
      Le32Reads(|data|);
      assert b[..4] == Le32(|data|);
    }
  }

  // ── chunks ─────────────────────────────────────────────────────────────────

  type Nonce = b: Bytes | |b| == 12 witness [0, 0, 0, 0, 0, 0, 0, 0, 0, 0, 0, 0]

  const NONCE_LEN := 12
  const SEAL_LEN := 16

  /** An authenticated cipher: key, nonce and associated data, and what is sealed. */
  datatype Cipher = Cipher(seal: (Dek, Bytes, Bytes, Bytes) -> Bytes, open: (Dek, Bytes, Bytes, Bytes) -> Option<Bytes>)

  ghost predicate Opens(c: Cipher) {
    forall dek, nonce, aad, text ::
      c.open(dek, nonce, aad, c.seal(dek, nonce, aad, text)) == Some(text)
      && |c.seal(dek, nonce, aad, text)| == |text| + SEAL_LEN
  }

  function Flag(final: bool): Byte {
    if final then 1 else 0
  }

  /** What a chunk is bound to: where it stands, and whether it is the last. */
  function ChunkAad(index: nat, final: bool): Bytes {
    Le32(index) + [Flag(final)]
  }

  function SealChunk(c: Cipher, dek: Dek, index: nat, nonce: Nonce, text: Bytes, final: bool): Bytes {
    [Flag(final)] + nonce + c.seal(dek, nonce, ChunkAad(index, final), text)
  }

  /** A chunk's text, and whether it is the last. */
  function OpenChunk(c: Cipher, dek: Dek, index: nat, frame: Bytes): Option<(Bytes, bool)> {
    if |frame| < 1 + NONCE_LEN then None
    else
      match c.open(dek, frame[1..1 + NONCE_LEN], ChunkAad(index, frame[0] != 0), frame[1 + NONCE_LEN..])
      case None => None
      case Some(text) => Some((text, frame[0] != 0))
  }

  lemma ChunkOpens(c: Cipher, dek: Dek, index: nat, nonce: Nonce, text: Bytes, final: bool)
    requires Opens(c)
    ensures var frame := SealChunk(c, dek, index, nonce, text, final);
            && OpenChunk(c, dek, index, frame) == Some((text, final))
            && |frame| == 1 + NONCE_LEN + |text| + SEAL_LEN && frame[0] == Flag(final)
  {
    var sealed := c.seal(dek, nonce, ChunkAad(index, final), text);
    var frame := [Flag(final)] + nonce + sealed;
    assert frame[1..1 + NONCE_LEN] == nonce && frame[1 + NONCE_LEN..] == sealed;
  }

  // ── a stream sealed ────────────────────────────────────────────────────────

  const STREAM_TAG: Byte := 3

  datatype Keys = Keys(provider: Provider, cipher: Cipher)

  /** What is drawn at random for one artifact. */
  datatype Draw = Draw(dek: Dek, salt: Salt, nonces: nat -> Nonce)

  function Header(p: Provider, d: Draw): Bytes
    requires |p.id| <= MAX_ID
  {
    KeyBlock(STREAM_TAG, p.id, p.wrap(d.dek, d.salt))
  }

  /** What each read brought, or the one empty chunk of an empty stream. */
  function Chunks(pieces: seq<Bytes>): (chunks: seq<Bytes>)
    ensures chunks != []
  {
    if pieces == [] then [[]] else pieces
  }

  /** Chunk `i`, sealed; the last is marked. */
  function Sealing(c: Cipher, d: Draw, chunks: seq<Bytes>, i: nat): Bytes
    requires i < |chunks|
  {
    SealChunk(c, d.dek, i, d.nonces(i), chunks[i], i == |chunks| - 1)
  }

  function Bodies(c: Cipher, d: Draw, chunks: seq<Bytes>): (bodies: seq<Bytes>)
    ensures |bodies| == |chunks|
  {
    seq(|chunks|, i requires 0 <= i < |chunks| => Sealing(c, d, chunks, i))
  }

  /** One frame after another. */
  function Wire(bodies: seq<Bytes>): Bytes
    decreases |bodies|
  {
    if bodies == [] then [] else Wire(bodies[..|bodies| - 1]) + Frame(bodies[|bodies| - 1])
  }

  function Blob(k: Keys, d: Draw, chunks: seq<Bytes>): Bytes
    requires |k.provider.id| <= MAX_ID
  {
    [STREAM_TAG] + Frame(Header(k.provider, d)) + Wire(Bodies(k.cipher, d, chunks))
  }

  /** The first `n` chunks, with more to come. */
  ghost predicate Unmarked(c: Cipher, d: Draw, pieces: seq<Bytes>, bodies: seq<Bytes>) {
    && |bodies| <= |pieces|
    && forall i :: 0 <= i < |bodies| ==> bodies[i] == SealChunk(c, d.dek, i, d.nonces(i), pieces[i], false)
  }

  lemma WireNext(bodies: seq<Bytes>, body: Bytes)
    ensures Wire(bodies + [body]) == Wire(bodies) + Frame(body)
  {
    assert (bodies + [body])[..|bodies|] == bodies;
  }

  lemma UnmarkedNext(c: Cipher, d: Draw, pieces: seq<Bytes>, bodies: seq<Bytes>)
    requires Unmarked(c, d, pieces, bodies) && |bodies| < |pieces|
    ensures Unmarked(c, d, pieces, bodies + [SealChunk(c, d.dek, |bodies|, d.nonces(|bodies|), pieces[|bodies|], false)])
  {
  }

  /** After `i` reads all but the last is sealed, and the last waits. */
  predicate Waiting(pieces: seq<Bytes>, i: nat, pending: Option<Bytes>, sealed: nat) {
    && i <= |pieces|
    && if i == 0 then pending == None && sealed == 0 else pending == Some(pieces[i - 1]) && sealed == i - 1
  }

  lemma LastMarked(c: Cipher, d: Draw, pieces: seq<Bytes>, bodies: seq<Bytes>, pending: Option<Bytes>)
    requires Unmarked(c, d, pieces, bodies) && Waiting(pieces, |pieces|, pending, |bodies|)
    ensures var last := if pending.Some? then pending.value else [];
            bodies + [SealChunk(c, d.dek, |bodies|, d.nonces(|bodies|), last, true)] == Bodies(c, d, Chunks(pieces))
  {
    var (n, chunks) := (|bodies|, Chunks(pieces));
    forall i | 0 <= i < n ensures bodies[i] == Sealing(c, d, chunks, i) {
      assert chunks[i] == pieces[i];
    }
  }

  /** A frame written. */
  method WriteFrame(out: Bytes, ghost start: Bytes, ghost bodies: seq<Bytes>, data: Bytes) returns (r: Bytes)
    requires out == start + Wire(bodies)
    ensures r == start + Wire(bodies + [data])
  {
    r := out + Frame(data);
    WireNext(bodies, data);
  }

  /** Each chunk is sealed once the next has come, so that the last is known for the last. */
  method PutStream(k: Keys, d: Draw, pieces: seq<Bytes>) returns (blob: Option<Bytes>)
    requires forall r <- pieces :: 0 < |r| <= READ_SIZE
    ensures blob == if |k.provider.id| > MAX_ID then None else Some(Blob(k, d, Chunks(pieces)))
  {
    if |k.provider.id| > MAX_ID {
      return None;
    }
    var out: Bytes := [STREAM_TAG] + Frame(Header(k.provider, d));
    ghost var start := out;
    out := PutChunks(k, d, pieces, out);
    blob := Some(out);
  }

  method PutChunks(k: Keys, d: Draw, pieces: seq<Bytes>, start: Bytes) returns (out: Bytes)
    requires forall r <- pieces :: 0 < |r| <= READ_SIZE
    ensures out == start + Wire(Bodies(k.cipher, d, Chunks(pieces)))
  {
    out := start;
    var pending: Option<Bytes> := None;
    var index := 0;
    ghost var bodies: seq<Bytes> := [];
    assert start + Wire(bodies) == start;
    for i := 0 to |pieces|
      invariant |bodies| == index && Unmarked(k.cipher, d, pieces, bodies)
      invariant Waiting(pieces, i, pending, index)
      invariant out == start + Wire(bodies)
    {
      if pending.Some? {
        var body := SealChunk(k.cipher, d.dek, index, d.nonces(index), pending.value, false);
        UnmarkedNext(k.cipher, d, pieces, bodies);
        out := WriteFrame(out, start, bodies, body);
        bodies, index := bodies + [body], index + 1;
      }
      pending := Some(pieces[i]);
    }
    LastMarked(k.cipher, d, pieces, bodies, pending);
    var last: Bytes := if pending.Some? then pending.value else [];
    out := WriteFrame(out, start, bodies, SealChunk(k.cipher, d.dek, index, d.nonces(index), last, true));
  }

  // ── and opened ─────────────────────────────────────────────────────────────

  /** The text of the frames up to the last chunk; none without it, or with one that does not open. */
  function OpenAll(c: Cipher, dek: Dek, index: nat, b: Bytes): Option<Bytes>
    decreases |b|
  {
    match ReadFrame(b)
    case End => None
    case Bad => None
    case Next(frame, rest) =>
      match OpenChunk(c, dek, index, frame)
      case None => None
      case Some((text, final)) =>
        if final then Some(text) else After(text, OpenAll(c, dek, index + 1, rest))
  }

  function After(text: Bytes, more: Option<Bytes>): Option<Bytes> {
    if more.Some? then Some(text + more.value) else None
  }

  lemma AfterInTurn(a: Bytes, b: Bytes, more: Option<Bytes>)
    ensures After(a, After(b, more)) == After(a + b, more)
    ensures After([], more) == more
  {
    if more.Some? {
      assert a + (b + more.value) == a + b + more.value;
      assert [] + more.value == more.value;
    }
  }

  function Decrypted(k: Keys, raw: Bytes): Option<Bytes> {
    if raw == [] || raw[0] != STREAM_TAG then None
    else
      match ReadFrame(raw[1..])
      case End => None
      case Bad => None
      case Next(header, rest) =>
        match Unlock(STREAM_TAG, k.provider, header)
        case None => None
        case Some((dek, _)) => OpenAll(k.cipher, dek, 0, rest)
  }

  method OpenChunks(c: Cipher, dek: Dek, b: Bytes) returns (text: Option<Bytes>)
    ensures text == OpenAll(c, dek, 0, b)
  {
    var cur, index := b, 0;
    var out: Bytes := [];
    AfterInTurn([], [], OpenAll(c, dek, 0, b));
    while true
      invariant OpenAll(c, dek, 0, b) == After(out, OpenAll(c, dek, index, cur))
      decreases |cur|
    {
      var read := ReadFrame(cur);
      if !read.Next? {
        return None;
      }
      var chunk := OpenChunk(c, dek, index, read.body);
      if chunk.None? {
        return None;
      }
      AfterInTurn(out, chunk.value.0, OpenAll(c, dek, index + 1, read.rest));
      out := out + chunk.value.0;
      if chunk.value.1 {
        return Some(out);
      }
      cur, index := read.rest, index + 1;
    }
  }

  method DecryptStreamBlob(k: Keys, raw: Bytes) returns (text: Option<Bytes>)
    ensures text == Decrypted(k, raw)
  {
    if raw == [] || raw[0] != STREAM_TAG {
      return None;
    }
    var first := ReadFrame(raw[1..]);
    if !first.Next? {
      return None;
    }
    var unlocked := Unlock(STREAM_TAG, k.provider, first.body);
    if unlocked.None? {
      return None;
    }
    text := OpenChunks(k.cipher, unlocked.value.0, first.rest);
  }

  // ── what comes back ────────────────────────────────────────────────────────

  ghost predicate Small(chunks: seq<Bytes>) {
    forall chunk <- chunks :: |chunk| <= READ_SIZE
  }

  ghost predicate Framable(bodies: seq<Bytes>) {
    forall body <- bodies :: |body| <= MAX_FRAME_LEN
  }

  lemma {:induction false} WireFromFront(body: Bytes, rest: seq<Bytes>)
    ensures Wire([body] + rest) == Frame(body) + Wire(rest)
    decreases |rest|
  {
    if rest == [] {
      assert [body] + rest == [] + [body];
      WireNext([], body);
    } else {
      var n := |rest| - 1;
      WireFromFront(body, rest[..n]);
      assert [body] + rest == ([body] + rest[..n]) + [rest[n]];
      WireNext([body] + rest[..n], rest[n]);
      WireNext(rest[..n], rest[n]);
      assert rest == rest[..n] + [rest[n]];
    }
  }

  lemma WireSplits(bodies: seq<Bytes>, i: nat)
    requires i < |bodies|
    ensures Wire(bodies[i..]) == Frame(bodies[i]) + Wire(bodies[i + 1..])
  {
    assert bodies[i..] == [bodies[i]] + bodies[i + 1..];
    WireFromFront(bodies[i], bodies[i + 1..]);
  }

  /** What a chunk's frame reads and opens to, with what follows it. */
  ghost predicate OpensNext(c: Cipher, dek: Dek, i: nat, b: Bytes, text: Bytes, final: bool, rest: Bytes) {
    var read := ReadFrame(b);
    read.Next? && read.rest == rest && OpenChunk(c, dek, i, read.body) == Some((text, final))
  }

  lemma SealingOpens(c: Cipher, d: Draw, chunks: seq<Bytes>, i: nat, rest: Bytes)
    requires Opens(c) && Small(chunks) && i < |chunks|
    ensures OpensNext(c, d.dek, i, Frame(Sealing(c, d, chunks, i)) + rest, chunks[i], i == |chunks| - 1, rest)
    ensures 0 < |Sealing(c, d, chunks, i)| <= MAX_FRAME_LEN && Sealing(c, d, chunks, i)[0] == Flag(i == |chunks| - 1)
  {
    assert chunks[i] in chunks;
    ChunkOpens(c, d.dek, i, d.nonces(i), chunks[i], i == |chunks| - 1);
    FrameReads(Sealing(c, d, chunks, i), rest);
  }

  lemma OpenedNext(c: Cipher, dek: Dek, i: nat, b: Bytes, text: Bytes, final: bool, rest: Bytes)
    requires OpensNext(c, dek, i, b, text, final, rest)
    ensures OpenAll(c, dek, i, b) == if final then Some(text) else After(text, OpenAll(c, dek, i + 1, rest))
  {
  }

  lemma {:induction false} SealedOpens(c: Cipher, d: Draw, chunks: seq<Bytes>, i: nat)
    requires Opens(c) && Small(chunks) && i < |chunks|
    ensures OpenAll(c, d.dek, i, Wire(Bodies(c, d, chunks)[i..])) == Some(Flat(chunks[i..]))
    decreases |chunks| - i
  {
    var bodies := Bodies(c, d, chunks);
    var rest := Wire(bodies[i + 1..]);
    var final := i == |chunks| - 1;
    WireSplits(bodies, i);
    SealingOpens(c, d, chunks, i, rest);
    OpenedNext(c, d.dek, i, Wire(bodies[i..]), chunks[i], final, rest);
    assert chunks[i..][1..] == chunks[i + 1..];
    if final {
      assert Flat(chunks[i + 1..]) == [] && chunks[i] + [] == chunks[i];
    } else {
      SealedOpens(c, d, chunks, i + 1);
    }
  }

  lemma CutAfter(a: Bytes, b: Bytes, k: nat)
    requires k < |a| + |b|
    ensures (a + b)[..k] == if k < |a| then a[..k] else a + b[..k - |a|]
  {
  }

  lemma UnreadIsNone(c: Cipher, dek: Dek, i: nat, b: Bytes)
    requires !ReadFrame(b).Next?
    ensures OpenAll(c, dek, i, b) == None
  {
  }

  lemma {:induction false} CutSealed(c: Cipher, d: Draw, chunks: seq<Bytes>, i: nat, k: nat)
    requires Opens(c) && Small(chunks) && i < |chunks| && k < |Wire(Bodies(c, d, chunks)[i..])|
    ensures OpenAll(c, d.dek, i, Wire(Bodies(c, d, chunks)[i..])[..k]) == None
    decreases |chunks| - i
  {
    var bodies := Bodies(c, d, chunks);
    var (body, rest) := (bodies[i], Wire(bodies[i + 1..]));
    var final := i == |chunks| - 1;
    WireSplits(bodies, i);
    var (framed, cut) := (Frame(body), Wire(bodies[i..])[..k]);
    CutAfter(framed, rest, k);
    SealingOpens(c, d, chunks, i, []);
    if k < |framed| {
      CutFrame(body, k);
      UnreadIsNone(c, d.dek, i, cut);
    } else {
      SealingOpens(c, d, chunks, i, rest[..k - |framed|]);
      OpenedNext(c, d.dek, i, cut, chunks[i], final, rest[..k - |framed|]);
      if !final {
        CutSealed(c, d, chunks, i + 1, k - |framed|);
      }
    }
  }

  lemma HeaderReads(k: Keys, d: Draw, rest: Bytes)
    requires Works(k.provider) && |k.provider.id| <= MAX_ID
    ensures var header := Header(k.provider, d);
            && |header| <= MAX_FRAME_LEN
            && ReadFrame(Frame(header) + rest) == Next(header, rest)
            && Unlock(STREAM_TAG, k.provider, header) == Some((d.dek, []))
  {
    var header := Header(k.provider, d);
    FrameReads(header, rest);
    BlockUnlocks(STREAM_TAG, k.provider, d.dek, d.salt, []);
    assert header + [] == header;
  }

  /** The header first: what decrypts is the frames after it. */
  lemma PastHeader(k: Keys, d: Draw, raw: Bytes, rest: Bytes)
    requires Works(k.provider) && |k.provider.id| <= MAX_ID
    requires raw == [STREAM_TAG] + (Frame(Header(k.provider, d)) + rest)
    ensures Decrypted(k, raw) == OpenAll(k.cipher, d.dek, 0, rest)
  {
    HeaderReads(k, d, rest);
    assert raw[1..] == Frame(Header(k.provider, d)) + rest;
  }

  /** Whatever is read, however it is split, comes back. */
  lemma RoundTrip(k: Keys, d: Draw, pieces: seq<Bytes>)
    requires Works(k.provider) && Opens(k.cipher) && |k.provider.id| <= MAX_ID
    requires forall r <- pieces :: 0 < |r| <= READ_SIZE
    ensures Decrypted(k, Blob(k, d, Chunks(pieces))) == Some(Flat(pieces))
  {
    var chunks := Chunks(pieces);
    var bodies := Bodies(k.cipher, d, chunks);
    SealedOpens(k.cipher, d, chunks, 0);
    assert bodies[0..] == bodies && chunks[0..] == chunks;
    PastHeader(k, d, Blob(k, d, chunks), Wire(bodies));
    FlatOfChunks(pieces);
  }

  lemma FlatOfChunks(pieces: seq<Bytes>)
    ensures Flat(Chunks(pieces)) == Flat(pieces)
  {
    if pieces == [] {
      assert Chunks(pieces)[1..] == [];
    }
  }

  lemma CutInHeader(k: Keys, d: Draw, cut: Bytes, n: nat)
    requires Works(k.provider) && |k.provider.id| <= MAX_ID && n < |Frame(Header(k.provider, d))|
    requires cut == [STREAM_TAG] + Frame(Header(k.provider, d))[..n]
    ensures Decrypted(k, cut) == None
  {
    HeaderReads(k, d, []);
    CutFrame(Header(k.provider, d), n);
    assert cut[1..] == Frame(Header(k.provider, d))[..n];
  }

  /** Where a cut of tag, header and frames falls. */
  lemma CutWhere(tag: Bytes, header: Bytes, sealed: Bytes, n: nat)
    requires |tag| == 1 && 0 < n < 1 + |header| + |sealed|
    ensures (tag + header + sealed)[..n]
         == if n - 1 < |header| then tag + header[..n - 1] else tag + (header + sealed[..n - 1 - |header|])
  {
    assert tag + header + sealed == tag + (header + sealed);
    CutAfter(tag, header + sealed, n);
    CutAfter(header, sealed, n - 1);
  }

  /** Cut short anywhere, it is an error, and never a shorter text. */
  lemma CutShortFails(k: Keys, d: Draw, pieces: seq<Bytes>, n: nat)
    requires Works(k.provider) && Opens(k.cipher) && |k.provider.id| <= MAX_ID
    requires forall r <- pieces :: 0 < |r| <= READ_SIZE
    requires n < |Blob(k, d, Chunks(pieces))|
    ensures Decrypted(k, Blob(k, d, Chunks(pieces))[..n]) == None
  {
    var chunks := Chunks(pieces);
    var bodies := Bodies(k.cipher, d, chunks);
    var (header, sealed) := (Frame(Header(k.provider, d)), Wire(bodies));
    var cut := Blob(k, d, chunks)[..n];
    if n > 0 {
      CutWhere([STREAM_TAG], header, sealed, n);
      if n - 1 < |header| {
        CutInHeader(k, d, cut, n - 1);
      } else {
        var m := n - 1 - |header|;
        PastHeader(k, d, cut, sealed[..m]);
        assert bodies[0..] == bodies;
        CutSealed(k.cipher, d, chunks, 0, m);
      }
    }
  }

  // ── its frames ─────────────────────────────────────────────────────────────

  /** All the frames, where nothing else is there. */
  function FramesOf(b: Bytes): Option<seq<Bytes>>
    decreases |b|
  {
    match ReadFrame(b)
    case End => Some([])
    case Bad => None
    case Next(body, rest) =>
      match FramesOf(rest)
      case None => None
      case Some(more) => Some([body] + more)
  }

  /** One frame for each chunk, none too long to read back, and the last alone marked as the last. */
  ghost predicate WellFramed(frames: seq<Bytes>, chunks: nat) {
    && |frames| == chunks
    && forall i :: 0 <= i < |frames| ==>
         0 < |frames[i]| <= MAX_FRAME_LEN && frames[i][0] == Flag(i == |frames| - 1)
  }

  lemma WireReads(bodies: seq<Bytes>, i: nat)
    requires i < |bodies| && Framable(bodies)
    ensures ReadFrame(Wire(bodies[i..])) == Next(bodies[i], Wire(bodies[i + 1..]))
  {
    WireSplits(bodies, i);
    assert bodies[i] in bodies;
    FrameReads(bodies[i], Wire(bodies[i + 1..]));
  }

  lemma FramesNext(b: Bytes, body: Bytes, rest: Bytes, more: seq<Bytes>)
    requires ReadFrame(b) == Next(body, rest) && FramesOf(rest) == Some(more)
    ensures FramesOf(b) == Some([body] + more)
  {
  }

  lemma {:induction false} WireFrames(bodies: seq<Bytes>, i: nat)
    requires i <= |bodies| && Framable(bodies)
    ensures FramesOf(Wire(bodies[i..])) == Some(bodies[i..])
    decreases |bodies| - i
  {
    if i < |bodies| {
      WireReads(bodies, i);
      WireFrames(bodies, i + 1);
      FramesNext(Wire(bodies[i..]), bodies[i], Wire(bodies[i + 1..]), bodies[i + 1..]);
      assert [bodies[i]] + bodies[i + 1..] == bodies[i..];
    }
  }

  lemma SealedIsWellFramed(c: Cipher, d: Draw, chunks: seq<Bytes>)
    requires Opens(c) && Small(chunks)
    ensures var frames := FramesOf(Wire(Bodies(c, d, chunks)));
            frames.Some? && WellFramed(frames.value, |chunks|)
  {
    var bodies := Bodies(c, d, chunks);
    forall i | 0 <= i < |bodies|
      ensures 0 < |bodies[i]| <= MAX_FRAME_LEN && bodies[i][0] == Flag(i == |bodies| - 1)
    {
      SealingOpens(c, d, chunks, i, []);
    }
    WireFrames(bodies, 0);
    assert bodies[0..] == bodies;
  }

  // ── reading as it comes ────────────────────────────────────────────────────

  datatype Streamed = Streamed(text: Bytes, ok: bool)

  /** The reader that hands on each chunk as it opens: an artifact with nothing in it is an empty one. */
  function GetStream(k: Keys, raw: Bytes): Streamed
    requires raw == [] || raw[0] == STREAM_TAG
  {
    if raw == [] then Streamed([], true)
    else
      match ReadFrame(raw[1..])
      case End => Streamed([], false)
      case Bad => Streamed([], false)
      case Next(header, rest) =>
        match Unlock(STREAM_TAG, k.provider, header)
        case None => Streamed([], false)
        case Some((dek, _)) => Streaming(k.cipher, dek, 0, rest)
  }

  function Streaming(c: Cipher, dek: Dek, index: nat, b: Bytes): Streamed
    decreases |b|
  {
    match ReadFrame(b)
    case End => Streamed([], false)
    case Bad => Streamed([], false)
    case Next(frame, rest) =>
      match OpenChunk(c, dek, index, frame)
      case None => Streamed([], false)
      case Some((text, final)) =>
        if final then Streamed(text, true)
        else
          var more := Streaming(c, dek, index + 1, rest);
          Streamed(text + more.text, more.ok)
  }

  lemma {:induction false} StreamingIsOpening(c: Cipher, dek: Dek, index: nat, b: Bytes)
    ensures var s := Streaming(c, dek, index, b);
            if s.ok then OpenAll(c, dek, index, b) == Some(s.text) else OpenAll(c, dek, index, b) == None
    decreases |b|
  {
    var read := ReadFrame(b);
    if read.Next? {
      StreamingIsOpening(c, dek, index + 1, read.rest);
    }
  }

  /** It ends well exactly where the whole decrypts, with the same text, but for an artifact cut to nothing. */
  lemma StreamIsWholeIff(k: Keys, raw: Bytes)
    requires raw == [] || raw[0] == STREAM_TAG
    ensures GetStream(k, raw).ok <==> raw == [] || Decrypted(k, raw).Some?
    ensures raw != [] && GetStream(k, raw).ok ==> Decrypted(k, raw) == Some(GetStream(k, raw).text)
  {
    if raw != [] && ReadFrame(raw[1..]).Next? {
      var read := ReadFrame(raw[1..]);
      match Unlock(STREAM_TAG, k.provider, read.body)
      case None =>
      case Some((dek, _)) => StreamingIsOpening(k.cipher, dek, 0, read.rest);
    }
  }
}
