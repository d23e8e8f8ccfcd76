/**
 The envelope's outside (crates/dagron-crypto/src/lib.rs): a data key wrapped
 under a provider's key, in front of what it seals, and how it is wrapped again.
 */
module Crypto {
  import opened Common

  // ── numbers ────────────────────────────────────────────────────────────────

  const U32: nat := 0x1_0000_0000

  /** Four bytes, the lowest first; what does not fit is dropped. */
  function Le32(n: nat): (b: Bytes)
    ensures |b| == 4
  {
    [n % 256, n / 256 % 256, n / 256 / 256 % 256, n / 256 / 256 / 256 % 256]
  }

  function FromLe32(b: Bytes): nat
    requires |b| == 4
  {
    var p: int := b[0];
    var q: int := b[1];
    var r: int := b[2];
    var s: int := b[3];
    p + 256 * (q + 256 * (r + 256 * s))
  }

  lemma Le32Reads(n: nat)
    ensures FromLe32(Le32(n)) == n % U32
  {
    var q0 := n / 256;
    var q1 := q0 / 256;
    var q2 := q1 / 256;
    var q3 := q2 / 256;
    assert n == FromLe32(Le32(n)) + U32 * q3;
  }

  // ── keys ───────────────────────────────────────────────────────────────────

  type Dek(==, !new)

  /** What a wrap draws at random. */
  type Salt(==, !new)

  /** A key provider: its name, and how it wraps data keys and unwraps its own. */
  datatype Provider = Provider(id: Bytes, wrap: (Dek, Salt) -> Bytes, unwrap: Bytes -> Option<Dek>)

  const MAX_ID := 255
  const MAX_WRAPPED := 0x1_0000

  /** It unwraps what it wrapped, into what a frame may hold. */
  ghost predicate Works(p: Provider) {
    forall dek, salt :: p.unwrap(p.wrap(dek, salt)) == Some(dek) && |p.wrap(dek, salt)| <= MAX_WRAPPED
  }

  /** The first `n` bytes, and the rest. */
  function Take(b: Bytes, n: nat): Option<(Bytes, Bytes)> {
    if |b| < n then None else Some((b[..n], b[n..]))
  }

  /** Tag, name, wrapped key: what stands before the sealed bytes. */
  function KeyBlock(tag: Byte, id: Bytes, wrapped: Bytes): Bytes
    requires |id| <= MAX_ID
  {
    [tag, |id|] + id + Le32(|wrapped|) + wrapped
  }

  /** The wrapped key of a block under `id`, and what follows it. */
  function ParseBlock(tag: Byte, id: Bytes, b: Bytes): Option<(Bytes, Bytes)> {
    if |b| < 2 || b[0] != tag then None
    else
      match Take(b[2..], b[1])
      case None => None
      case Some((name, rest)) =>
        if name != id || |rest| < 4 then None else Take(rest[4..], FromLe32(rest[..4]))
  }

  /** The data key, and what it seals. */
  function Unlock(tag: Byte, p: Provider, b: Bytes): Option<(Dek, Bytes)> {
    match ParseBlock(tag, p.id, b)
    case None => None
    case Some((wrapped, rest)) =>
      match p.unwrap(wrapped)
      case None => None
      case Some(dek) => Some((dek, rest))
  }

  /** The key wrapped again, under `new`'s key; what it seals is left as it is. */
  function Rewrapped(tag: Byte, from: Provider, to: Provider, salt: Salt, b: Bytes): Option<Bytes> {
    if |to.id| > MAX_ID then None
    else
      match Unlock(tag, from, b)
      case None => None
      case Some((dek, rest)) => Some(KeyBlock(tag, to.id, to.wrap(dek, salt)) + rest)
  }

  lemma TakeSplits(a: Bytes, b: Bytes)
    ensures Take(a + b, |a|) == Some((a, b))
  {
    assert (a + b)[..|a|] == a && (a + b)[|a|..] == b;
  }

  lemma BlockParses(tag: Byte, id: Bytes, wrapped: Bytes, rest: Bytes)
    requires |id| <= MAX_ID && |wrapped| < U32
    ensures ParseBlock(tag, id, KeyBlock(tag, id, wrapped) + rest) == Some((wrapped, rest))
  {
    var b := KeyBlock(tag, id, wrapped) + rest;
    var len := Le32(|wrapped|);
    var tail := len + (wrapped + rest);
    assert b == [tag, |id|] + (id + tail);
    TakeSplits([tag, |id|], id + tail);
    TakeSplits(id, tail);
    TakeSplits(len, wrapped + rest);
    TakeSplits(wrapped, rest);
    Le32Reads(|wrapped|);
  }

  lemma BlockUnlocks(tag: Byte, p: Provider, dek: Dek, salt: Salt, rest: Bytes)
    requires Works(p) && |p.id| <= MAX_ID
    ensures Unlock(tag, p, KeyBlock(tag, p.id, p.wrap(dek, salt)) + rest) == Some((dek, rest))
  {
    BlockParses(tag, p.id, p.wrap(dek, salt), rest);
  }

  /** Wrapped again, it unlocks under the new key to the same key and the same sealed bytes. */
  lemma RewrappedUnlocks(tag: Byte, from: Provider, to: Provider, salt: Salt, b: Bytes)
    requires Works(to) && |to.id| <= MAX_ID
    ensures match Rewrapped(tag, from, to, salt, b)
            case None => Unlock(tag, from, b).None?
            case Some(again) => Unlock(tag, to, again) == Unlock(tag, from, b) && Unlock(tag, from, b).Some?
  {
    var got := Unlock(tag, from, b);
    if got.Some? {
      BlockUnlocks(tag, to, got.value.0, salt, got.value.1);
    }
  }

  /** No bytes unwrap to different keys under two providers' keys. */
  ghost predicate Agree(from: Provider, to: Provider) {
    forall w :: from.unwrap(w).Some? && to.unwrap(w).Some? ==> from.unwrap(w) == to.unwrap(w)
  }
}
