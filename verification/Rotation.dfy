/**
 Rotating a store onto another key (crates/dagron-artifact/src/lib.rs): a sweep
 that may be cut short anywhere and made again.
 */
module Rotation {
  import opened Common
  import opened Crypto
  import opened Frames

  const ENVELOPE_TAG: Byte := 2

  // ── one object ─────────────────────────────────────────────────────────────

  predicate IsStream(raw: Bytes) {
    raw != [] && raw[0] == STREAM_TAG
  }

  /** The data key of an object, and what it seals: chunk frames, or one payload. */
  function Opened(p: Provider, raw: Bytes): Option<(Dek, Bytes)> {
    if IsStream(raw) then
      match ReadFrame(raw[1..])
      case End => None
      case Bad => None
      case Next(header, rest) =>
        match Unlock(STREAM_TAG, p, header)
        case None => None
        case Some((dek, _)) => Some((dek, rest))
    else Unlock(ENVELOPE_TAG, p, raw)
  }

  function OpenPayload(c: Cipher, dek: Dek, payload: Bytes): Option<Bytes> {
    if |payload| < NONCE_LEN then None else c.open(dek, payload[..NONCE_LEN], [], payload[NONCE_LEN..])
  }

  /** What a read returns. */
  function Plain(k: Keys, raw: Bytes): Option<Bytes> {
    if IsStream(raw) then Decrypted(k, raw)
    else
      match Unlock(ENVELOPE_TAG, k.provider, raw)
      case None => None
      case Some((dek, payload)) => OpenPayload(k.cipher, dek, payload)
  }

  function TextOf(c: Cipher, stream: bool, dek: Dek, sealed: Bytes): Option<Bytes> {
    if stream then OpenAll(c, dek, 0, sealed) else OpenPayload(c, dek, sealed)
  }

  lemma PlainIs(k: Keys, raw: Bytes)
    ensures Plain(k, raw) == match Opened(k.provider, raw)
                             case None => None
                             case Some((dek, sealed)) => TextOf(k.cipher, IsStream(raw), dek, sealed)
  {
  }

  /** The object with its data key wrapped again; the rest as it was. */
  function Rotated(from: Provider, to: Provider, salt: Salt, raw: Bytes): Option<Bytes> {
    if !IsStream(raw) then Rewrapped(ENVELOPE_TAG, from, to, salt, raw)
    else
      match ReadFrame(raw[1..])
      case End => None
      case Bad => None
      case Next(header, rest) =>
        match Unlock(STREAM_TAG, from, header)
        case None => None
        case Some((dek, _)) =>
          if |to.id| > MAX_ID then None
          else Some([STREAM_TAG] + Frame(KeyBlock(STREAM_TAG, to.id, to.wrap(dek, salt))) + rest)
  }

  lemma StreamOpens(p: Provider, header: Bytes, rest: Bytes, dek: Dek)
    requires |header| <= MAX_FRAME_LEN && Unlock(STREAM_TAG, p, header) == Some((dek, []))
    ensures var raw := [STREAM_TAG] + Frame(header) + rest;
            IsStream(raw) && Opened(p, raw) == Some((dek, rest))
  {
    var raw := [STREAM_TAG] + Frame(header) + rest;
    FrameReads(header, rest);
    assert raw[1..] == Frame(header) + rest;
  }

  lemma StreamRotates(from: Provider, to: Provider, salt: Salt, raw: Bytes)
    requires Works(to) && |to.id| <= MAX_ID && IsStream(raw) && Opened(from, raw).Some?
    ensures var r := Rotated(from, to, salt, raw);
            r.Some? && IsStream(r.value) && Opened(to, r.value) == Opened(from, raw)
  {
    var (dek, rest) := Opened(from, raw).value;
    var header := KeyBlock(STREAM_TAG, to.id, to.wrap(dek, salt));
    BlockUnlocks(STREAM_TAG, to, dek, salt, []);
    assert header + [] == header;
    StreamOpens(to, header, rest, dek);
  }

  /** Rotated, an object opens under the new key to the same data key and the same sealed bytes. */
  lemma RotatedOpens(from: Provider, to: Provider, salt: Salt, raw: Bytes)
    requires Works(to) && |to.id| <= MAX_ID
    ensures match Rotated(from, to, salt, raw)
            case None => Opened(from, raw).None?
            case Some(r) => IsStream(r) == IsStream(raw) && Opened(to, r) == Opened(from, raw) && Opened(from, raw).Some?
  {
    if IsStream(raw) {
      if Opened(from, raw).Some? {
        StreamRotates(from, to, salt, raw);
      }
    } else {
      RewrappedUnlocks(ENVELOPE_TAG, from, to, salt, raw);
      if Rotated(from, to, salt, raw).Some? {
        assert Rotated(from, to, salt, raw).value[0] == ENVELOPE_TAG;
      }
    }
  }

  /** What an object is turned into: rotated; or left, where an earlier sweep rotated it. */
  function Turned(from: Provider, to: Provider, salt: Salt, raw: Bytes): Option<Bytes> {
    match Rotated(from, to, salt, raw)
    case Some(r) => Some(r)
    case None => if Rotated(to, to, salt, raw).None? then None else Some(raw)
  }

  /** What an object holds, whichever of the two keys it is under. */
  function Held(from: Provider, to: Provider, raw: Bytes): Option<(bool, Dek, Bytes)> {
    match if Opened(to, raw).Some? then Opened(to, raw) else Opened(from, raw)
    case None => None
    case Some((dek, sealed)) => Some((IsStream(raw), dek, sealed))
  }

  /** Turned, it holds what it held, under the new key; it cannot be only where neither key opens it. */
  lemma TurnedHolds(from: Provider, to: Provider, salt: Salt, raw: Bytes)
    requires Works(to) && |to.id| <= MAX_ID && Agree(from, to)
    ensures match Turned(from, to, salt, raw)
            case None => Held(from, to, raw).None?
            case Some(r) => Opened(to, r).Some? && Held(from, to, r) == Held(from, to, raw)
  {
    RotatedOpens(from, to, salt, raw);
    RotatedOpens(to, to, salt, raw);
    if Opened(from, raw).Some? && Opened(to, raw).Some? {
    }
  }

  // ── a sweep ────────────────────────────────────────────────────────────────

  type Name(==, !new)

  type Objects<V> = map<Name, V>

  /** The objects in the order they are listed, and how many are turned before the sweep is cut short. */
  datatype Sweep = Sweep(keys: seq<Name>, salts: nat -> Salt, upto: nat)

  /** What is made of one object: its new bytes, or none where it fails. */
  type Turn<!V> = (Salt, V) -> Option<V>

  /** After the first `n` objects: what the store holds, and whether none failed. */
  function Swept<V>(turn: Turn<V>, objects: Objects<V>, s: Sweep, n: nat): (r: (Objects<V>, bool))
    requires n <= |s.keys| && forall key <- s.keys :: key in objects
    ensures r.0.Keys == objects.Keys
  {
    if n == 0 then (objects, true)
    else
      var (before, ok) := Swept(turn, objects, s, n - 1);
      var key := s.keys[n - 1];
      assert key in s.keys;
      if !ok then (before, false)
      else
        match turn(s.salts(n - 1), before[key])
        case None => (before, false)
        case Some(raw) => (before[key := raw], true)
  }

  function Turning(from: Provider, to: Provider): Turn<Bytes> {
    (salt, raw) => Turned(from, to, salt, raw)
  }

  ghost predicate Turns(turn: Turn<Bytes>, from: Provider, to: Provider, salt: Salt, raw: Bytes) {
    turn(salt, raw) == Turned(from, to, salt, raw)
  }

  ghost predicate IsTurning(turn: Turn<Bytes>, from: Provider, to: Provider) {
    forall salt, raw {:trigger Turns(turn, from, to, salt, raw)} :: Turns(turn, from, to, salt, raw)
  }

  class EncryptedStore {
    const to: Provider
    var objects: Objects<Bytes>

    constructor (to: Provider, objects: Objects<Bytes>)
      ensures this.to == to && this.objects == objects
    {
      this.to, this.objects := to, objects;
    }

    /** Every object onto this store's key; `s.upto` says where the sweep is cut short, if it is. */
    method RotateFrom(from: Provider, s: Sweep) returns (ok: bool)
      requires s.upto <= |s.keys| && forall key <- s.keys :: key in objects
      modifies this`objects
      ensures (objects, ok) == Swept(Turning(from, to), old(objects), s, s.upto)
    {
      ok := RotateEach(from, s, Turning(from, to));
    }

    method RotateEach(from: Provider, s: Sweep, ghost turn: Turn<Bytes>) returns (ok: bool)
      requires IsTurning(turn, from, to)
      requires s.upto <= |s.keys| && forall key <- s.keys :: key in objects
      modifies this`objects
      ensures (objects, ok) == Swept(turn, old(objects), s, s.upto)
    {
      ghost var before := objects;
      for i := 0 to s.upto
        invariant (objects, true) == Swept(turn, before, s, i)
      {
        ok := RotateNext(from, s, i, turn, before);
        if !ok {
          SweepStaysFailed(turn, before, s, i + 1, s.upto);
          return;
        }
      }
      ok := true;
    }

    method RotateNext(from: Provider, s: Sweep, i: nat, ghost turn: Turn<Bytes>, ghost before: Objects<Bytes>)
      returns (ok: bool)
      requires IsTurning(turn, from, to)
      requires i < |s.keys| && forall key <- s.keys :: key in before
      requires (objects, true) == Swept(turn, before, s, i)
      modifies this`objects
      ensures (objects, ok) == Swept(turn, before, s, i + 1)
    {
      var key := s.keys[i];
      assert key in s.keys;
      var turned := RotateOne(from, s.salts(i), objects[key], turn);
      ok := turned.Some?;
      if ok {
        objects := objects[key := turned.value];
      }
    }

    method RotateOne(from: Provider, salt: Salt, raw: Bytes, ghost turn: Turn<Bytes>) returns (turned: Option<Bytes>)
      requires IsTurning(turn, from, to)
      ensures turned == turn(salt, raw)
    {
      assert Turns(turn, from, to, salt, raw);
      var rotated := Rotated(from, to, salt, raw);
      if rotated.Some? {
        return rotated;
      }
      var again := Rotated(to, to, salt, raw);
      turned := if again.None? then None else Some(raw);
    }
  }

  lemma {:induction false} SweepStaysFailed<V>(turn: Turn<V>, objects: Objects<V>, s: Sweep, i: nat, n: nat)
    requires i <= n <= |s.keys| && (forall key <- s.keys :: key in objects) && !Swept(turn, objects, s, i).1
    ensures Swept(turn, objects, s, n) == Swept(turn, objects, s, i)
    decreases n
  {
    if i < n {
      SweepStaysFailed(turn, objects, s, i, n - 1);
    }
  }

  /** Whatever a turn makes, it holds what it held, and is where it should be; it fails on what holds nothing. */
  ghost predicate Keeps<V(!new), H>(turn: Turn<V>, held: V -> Option<H>, there: V -> bool) {
    forall salt, raw ::
      match turn(salt, raw)
      case None => held(raw).None?
      case Some(r) => there(r) && held(r) == held(raw)
  }

  /** Each object holds what it held. */
  ghost predicate HoldsOn<V, H>(held: V -> Option<H>, before: Objects<V>, after: Objects<V>) {
    before.Keys == after.Keys && forall key <- before :: held(after[key]) == held(before[key])
  }

  ghost predicate AllThere<V>(there: V -> bool, keys: seq<Name>, objects: Objects<V>, n: nat)
    requires n <= |keys|
  {
    forall i :: 0 <= i < n ==> keys[i] in objects && there(objects[keys[i]])
  }

  lemma {:induction false} SweptHolds<V(!new), H>(turn: Turn<V>, held: V -> Option<H>, there: V -> bool,
                                         objects: Objects<V>, s: Sweep, n: nat)
    requires Keeps(turn, held, there)
    requires n <= |s.keys| && forall key <- s.keys :: key in objects
    ensures var (after, ok) := Swept(turn, objects, s, n);
            && HoldsOn(held, objects, after)
            && (ok ==> AllThere(there, s.keys, after, n))
            && (!ok ==> exists key :: key in objects && held(objects[key]).None?)
    decreases n
  {
    if n > 0 {
      SweptHolds(turn, held, there, objects, s, n - 1);
      var (before, ok) := Swept(turn, objects, s, n - 1);
      var key := s.keys[n - 1];
      assert key in s.keys;
      var turned := turn(s.salts(n - 1), before[key]);
      assert turned.None? ==> held(before[key]).None?;
    }
  }

  // ── any number of sweeps ───────────────────────────────────────────────────

  ghost predicate Listed<V>(objects: Objects<V>, sweeps: seq<Sweep>) {
    forall s <- sweeps :: s.upto <= |s.keys| && forall key <- s.keys :: key in objects
  }

  function SweptAll<V>(turn: Turn<V>, objects: Objects<V>, sweeps: seq<Sweep>): (after: Objects<V>)
    requires Listed(objects, sweeps)
    ensures after.Keys == objects.Keys
    decreases |sweeps|
  {
    if sweeps == [] then objects
    else
      var n := |sweeps| - 1;
      var before := SweptAll(turn, objects, sweeps[..n]);
      assert sweeps[n] in sweeps;
      Swept(turn, before, sweeps[n], sweeps[n].upto).0
  }

  lemma {:induction false} SweepsHold<V(!new), H>(turn: Turn<V>, held: V -> Option<H>, there: V -> bool,
                                         objects: Objects<V>, sweeps: seq<Sweep>)
    requires Keeps(turn, held, there) && Listed(objects, sweeps)
    ensures HoldsOn(held, objects, SweptAll(turn, objects, sweeps))
    decreases |sweeps|
  {
    if sweeps != [] {
      var n := |sweeps| - 1;
      assert sweeps[n] in sweeps;
      SweepsHold(turn, held, there, objects, sweeps[..n]);
      SweptHolds(turn, held, there, SweptAll(turn, objects, sweeps[..n]), sweeps[n], sweeps[n].upto);
    }
  }

  lemma LastSweep<V(!new), H>(turn: Turn<V>, held: V -> Option<H>, there: V -> bool,
                     objects: Objects<V>, sweeps: seq<Sweep>, last: Sweep)
    requires Keeps(turn, held, there) && Listed(objects, sweeps)
    requires (forall raw :: there(raw) ==> held(raw).Some?)
    requires last.upto == |last.keys| && (forall key :: key in last.keys <==> key in objects)
    ensures var (after, ok) := Swept(turn, SweptAll(turn, objects, sweeps), last, last.upto);
            && (ok <==> forall key <- objects :: held(objects[key]).Some?)
            && (ok ==> forall key <- objects :: there(after[key]) && held(after[key]) == held(objects[key]))
  {
    var before := SweptAll(turn, objects, sweeps);
    SweepsHold(turn, held, there, objects, sweeps);
    SweptHolds(turn, held, there, before, last, last.upto);
    var (after, ok) := Swept(turn, before, last, last.upto);
    if ok {
      forall key | key in objects ensures there(after[key]) && held(after[key]) == held(objects[key]) {
        var i :| 0 <= i < |last.keys| && last.keys[i] == key;
        assert there(after[last.keys[i]]);
        assert held(after[key]) == held(before[key]);
      }
    }
  }

  /**
   However many sweeps were cut short before, one that is not leaves every
   object under the new key, with the sealed bytes it had and the text they
   had; and it fails only on an object neither key opens.
   */
  lemma SweepFinishes(c: Cipher, from: Provider, to: Provider, objects: Objects<Bytes>, sweeps: seq<Sweep>, last: Sweep, name: Name)
    requires Works(to) && |to.id| <= MAX_ID && Agree(from, to) && Listed(objects, sweeps)
    requires last.upto == |last.keys| && (forall key :: key in last.keys <==> key in objects)
    ensures var (after, ok) := Swept(Turning(from, to), SweptAll(Turning(from, to), objects, sweeps), last, last.upto);
            && (ok <==> forall key <- objects :: Held(from, to, objects[key]).Some?)
            && (ok && name in objects ==>
                  && Held(from, to, objects[name]).Some?
                  && var (stream, dek, sealed) := Held(from, to, objects[name]).value;
                  && IsStream(after[name]) == stream && Opened(to, after[name]) == Some((dek, sealed))
                  && Plain(Keys(to, c), after[name]) == TextOf(c, stream, dek, sealed))
  {
    var turn := Turning(from, to);
    var held := (raw: Bytes) => Held(from, to, raw);
    var there := (raw: Bytes) => Opened(to, raw).Some?;
    forall salt, raw
      ensures match turn(salt, raw)
              case None => held(raw).None?
              case Some(r) => there(r) && held(r) == held(raw)
    {
      TurnedHolds(from, to, salt, raw);
    }
    LastSweep(turn, held, there, objects, sweeps, last);
    var (after, ok) := Swept(turn, SweptAll(turn, objects, sweeps), last, last.upto);
    assert (forall key <- objects :: held(objects[key]).Some?) <==> (forall key <- objects :: Held(from, to, objects[key]).Some?);
    if ok && name in objects {
      assert there(after[name]) && held(after[name]) == held(objects[name]);
      PlainIs(Keys(to, c), after[name]);
    }
  }
}
