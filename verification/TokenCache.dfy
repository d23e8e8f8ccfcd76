/**
 The cache of service tokens (crates/dagron-api/src/auth.rs): lookups that read
 the database and keep what they read, around revokes that write it and then
 empty the cache.
 */
module TokenCache {
  import opened Common

  type Hash(==, !new)

  type Group(==, !new)

  datatype Claims = Claims(subject: string, groups: seq<Group>)

  /** Times in nanoseconds, on one clock. */
  const SERVICE_TOKEN_CACHE: nat := 10_000_000_000
  const SERVICE_TOKEN_CACHE_MAX := 1024

  // ── the cache ──────────────────────────────────────────────────────────────

  datatype Entry = Entry(claims: Claims, until: int)

  datatype Seen = Seen(tokens: map<Hash, Entry>, generation: nat)

  function Got(seen: Seen, hash: Hash, now: int): Option<Claims> {
    if hash in seen.tokens && now < seen.tokens[hash].until then Some(seen.tokens[hash].claims) else None
  }

  /** What is left after a look: a token past its time is dropped. */
  function Looked(seen: Seen, hash: Hash, now: int): Seen {
    if hash in seen.tokens && now >= seen.tokens[hash].until then seen.(tokens := seen.tokens - {hash}) else seen
  }

  /** How long from `read` a token may be kept; none where its own time has passed. */
  function Lasts(expires: Option<int>, read: int): Option<nat> {
    if expires.None? then Some(SERVICE_TOKEN_CACHE)
    else if expires.value < read then None
    else Some(Min(SERVICE_TOKEN_CACHE, expires.value - read))
  }

  /** Kept from `now`, unless a token was revoked since `generation`. */
  function Kept(seen: Seen, hash: Hash, claims: Claims, expires: Option<int>, generation: nat, read: int, now: int): Seen {
    var lasts := Lasts(expires, read);
    if lasts.None? || seen.generation != generation then seen
    else
      var tokens := if |seen.tokens| >= SERVICE_TOKEN_CACHE_MAX then map[] else seen.tokens;
      seen.(tokens := tokens[hash := Entry(claims, now + lasts.value)])
  }

  function Cleared(seen: Seen): Seen {
    Seen(map[], seen.generation + 1)
  }

  class TokenCache {
    var tokens: map<Hash, Entry>
    var generation: nat

    function Value(): Seen
      reads this
    {
      Seen(tokens, generation)
    }

    constructor ()
      ensures Value() == Seen(map[], 0)
    {
      tokens, generation := map[], 0;
    }

    method Get(hash: Hash, now: int) returns (claims: Option<Claims>)
      modifies this`tokens
      ensures claims == Got(old(Value()), hash, now) && Value() == Looked(old(Value()), hash, now)
    {
      if hash !in tokens {
        return None;
      }
      if now < tokens[hash].until {
        return Some(tokens[hash].claims);
      }
      tokens := tokens - {hash};
      claims := None;
    }

    /** `read` is when the time left is worked out, `now` when the cache is at last written. */
    method Put(hash: Hash, claims: Claims, expires: Option<int>, generation: nat, read: int, now: int)
      modifies this`tokens
      ensures Value() == Kept(old(Value()), hash, claims, expires, generation, read, now)
    {
      var lasts := SERVICE_TOKEN_CACHE;
      if expires.Some? {
        if expires.value < read {
          return;
        }
        lasts := Min(lasts, expires.value - read);
      }
      if this.generation != generation {
        return;
      }
      if |tokens| >= SERVICE_TOKEN_CACHE_MAX {
        tokens := map[];
      }
      tokens := tokens[hash := Entry(claims, now + lasts)];
    }

    method Clear()
      modifies this
      ensures Value() == Cleared(old(Value()))
    {
      tokens, generation := map[], generation + 1;
    }
  }

  // ── how long a token is kept ───────────────────────────────────────────────

  /** Ten seconds at most; and past its own expiry by no more than the wait for the cache. */
  lemma KeptFor(seen: Seen, hash: Hash, claims: Claims, expires: Option<int>, generation: nat, read: int, now: int)
    requires read <= now
    ensures var after := Kept(seen, hash, claims, expires, generation, read, now);
            after != seen ==>
              && hash in after.tokens
              && after.tokens[hash].until <= now + SERVICE_TOKEN_CACHE
              && (expires.Some? ==> after.tokens[hash].until <= expires.value + (now - read))
  {
  }

  /** It is kept past its expiry exactly when the cache was waited for, to within its ten seconds of it. */
  lemma OutlivesIff(expires: int, read: int, now: int)
    requires read <= now && Lasts(Some(expires), read).Some?
    ensures now + Lasts(Some(expires), read).value > expires <==> now > read && now + SERVICE_TOKEN_CACHE > expires
  {
  }

  /** A token that lasts to 5, read at 0: kept at 2 it is still got at 6; kept at once, it is not got at 5. */
  lemma OutlivesByWaiting(claims: Claims, hash: Hash)
    ensures var kept := Kept(Seen(map[], 0), hash, claims, Some(5), 0, 0, 2);
            Got(kept, hash, 6) == Some(claims)
    ensures var kept := Kept(Seen(map[], 0), hash, claims, Some(5), 0, 0, 0);
            Got(kept, hash, 5) == None
  {
  }

  lemma KeptIsBounded(seen: Seen, hash: Hash, claims: Claims, expires: Option<int>, generation: nat, read: int, now: int)
    requires |seen.tokens| <= SERVICE_TOKEN_CACHE_MAX
    ensures |Kept(seen, hash, claims, expires, generation, read, now).tokens| <= SERVICE_TOKEN_CACHE_MAX
  {
    var tokens := if |seen.tokens| >= SERVICE_TOKEN_CACHE_MAX then map[] else seen.tokens;
    var after := Kept(seen, hash, claims, expires, generation, read, now);
    if after != seen {
      assert after.tokens.Keys == tokens.Keys + {hash};
      assert |after.tokens| == |after.tokens.Keys| && |tokens| == |tokens.Keys|;
    }
  }

  // ── a token read from the database ─────────────────────────────────────────

  datatype Expiry = Never | At(time: int) | Corrupt

  /** A token's row, by its hash, and its owner's, read live. */
  datatype Row = Row(owner: Option<Claims>, expiry: Expiry, revoked: bool, agent: bool)

  datatype Who = Nobody | Person(claims: Claims) | Service(claims: Claims, expires: Option<int>)

  /** Who a token is; a service's may be kept. An agent presents as itself, and is never kept. */
  function Resolve(row: Row, now: int, trigger: Group): Who {
    if row.revoked || row.expiry.Corrupt? || (row.expiry.At? && now >= row.expiry.time) || row.owner.None? then Nobody
    else if row.agent || trigger !in row.owner.value.groups then Person(row.owner.value)
    else Service(row.owner.value, if row.expiry.At? then Some(row.expiry.time) else None)
  }

  // ── lookups around revokes ─────────────────────────────────────────────────

  /** A lookup that missed: it takes the generation, reads the row, and then may keep what it read. */
  datatype Lookup = Asked(hash: Hash, generation: nat) | Read(hash: Hash, generation: nat, who: Who)

  /** `gone` are the tokens whose revoke has emptied the cache; a revoke that found no row to write empties it too. */
  datatype World = World(seen: Seen, rows: map<Hash, Row>, lookups: map<nat, Lookup>, gone: set<Hash>)

  datatype Action =
    | Look(hash: Hash, now: int)
    | Ask(id: nat, hash: Hash)
    | ReadRow(id: nat, now: int)
    | Keep(id: nat, read: int, now: int)
    | GiveUp(id: nat)
    | WriteRow(hash: Hash, row: Row)
    | Revoke(hash: Hash)
    | Clear(of: Option<Hash>)

  ghost predicate Step(w: World, a: Action, trigger: Group, w': World) {
    match a
    case Look(hash, now) => w' == w.(seen := Looked(w.seen, hash, now))
    case Ask(id, hash) =>
      id !in w.lookups && w' == w.(lookups := w.lookups[id := Asked(hash, w.seen.generation)])
    case ReadRow(id, now) =>
      && id in w.lookups && w.lookups[id].Asked?
      && var l := w.lookups[id];
      && l.hash in w.rows
      && w' == w.(lookups := w.lookups[id := Read(l.hash, l.generation, Resolve(w.rows[l.hash], now, trigger))])
    case Keep(id, read, now) =>
      && id in w.lookups && w.lookups[id].Read? && w.lookups[id].who.Service?
      && var l := w.lookups[id];
      && w' == w.(seen := Kept(w.seen, l.hash, l.who.claims, l.who.expires, l.generation, read, now),
                  lookups := w.lookups - {id})
    case GiveUp(id) => w' == w.(lookups := w.lookups - {id})
    case WriteRow(hash, row) =>
      && (hash in w.rows && w.rows[hash].revoked ==> row.revoked)
      && w' == w.(rows := w.rows[hash := row])
    case Revoke(hash) => hash in w.rows && w' == w.(rows := w.rows[hash := w.rows[hash].(revoked := true)])
    case Clear(of) =>
      && (of.Some? ==> of.value in w.rows && w.rows[of.value].revoked)
      && w' == w.(seen := Cleared(w.seen), gone := if of.Some? then w.gone + {of.value} else w.gone)
  }

  /** Of a token that is gone: its row says so, the cache has not got it, and no lookup that could keep it is in time. */
  ghost predicate Inv(w: World) {
    && (forall hash <- w.gone :: hash in w.rows && w.rows[hash].revoked && hash !in w.seen.tokens)
    && (forall id <- w.lookups ::
          && w.lookups[id].generation <= w.seen.generation
          && (w.lookups[id].Read? && w.lookups[id].who.Service? && w.lookups[id].hash in w.gone ==>
                w.lookups[id].generation < w.seen.generation))
  }

  /** Whatever is interleaved, what a revoke removed is not brought back. */
  lemma StepKeeps(w: World, a: Action, trigger: Group, w': World)
    requires Inv(w) && Step(w, a, trigger, w')
    ensures Inv(w')
  {
  }

  /** All kept are services' tokens, as they were read. */
  ghost predicate OnlyServices(w: World, trigger: Group) {
    && (forall hash <- w.seen.tokens :: trigger in w.seen.tokens[hash].claims.groups)
    && (forall id <- w.lookups :: w.lookups[id].Read? && w.lookups[id].who.Service? ==>
          trigger in w.lookups[id].who.claims.groups)
  }

  lemma StepServices(w: World, a: Action, trigger: Group, w': World)
    requires OnlyServices(w, trigger) && Step(w, a, trigger, w')
    ensures OnlyServices(w', trigger)
  {
  }

  ghost predicate Ran(worlds: seq<World>, actions: seq<Action>, trigger: Group) {
    && |worlds| == |actions| + 1
    && worlds[0].seen == Seen(map[], 0) && worlds[0].lookups == map[] && worlds[0].gone == {}
    && forall i :: 0 <= i < |actions| ==> Moves(worlds, actions[i], trigger, i)
  }

  ghost predicate Moves(worlds: seq<World>, a: Action, trigger: Group, i: nat)
    requires i + 1 < |worlds|
  {
    Step(worlds[i], a, trigger, worlds[i + 1])
  }

  lemma {:induction false} RunKeeps(worlds: seq<World>, actions: seq<Action>, trigger: Group, i: nat)
    requires Ran(worlds, actions, trigger) && i < |worlds|
    ensures Inv(worlds[i]) && OnlyServices(worlds[i], trigger)
    decreases i
  {
    if i > 0 {
      RunKeeps(worlds, actions, trigger, i - 1);
      assert Moves(worlds, actions[i - 1], trigger, i - 1);
      StepKeeps(worlds[i - 1], actions[i - 1], trigger, worlds[i]);
      StepServices(worlds[i - 1], actions[i - 1], trigger, worlds[i]);
    }
  }

  lemma {:induction false} StaysGone(worlds: seq<World>, actions: seq<Action>, trigger: Group, i: nat, j: nat, hash: Hash)
    requires Ran(worlds, actions, trigger) && i <= j < |worlds| && hash in worlds[i].gone
    ensures hash in worlds[j].gone
    decreases j
  {
    if i < j {
      StaysGone(worlds, actions, trigger, i, j - 1, hash);
      assert Moves(worlds, actions[j - 1], trigger, j - 1);
    }
  }

  /** Once a revoke has emptied the cache, no look at it ever finds the token it revoked. */
  lemma RevokedIsNeverGot(worlds: seq<World>, actions: seq<Action>, trigger: Group, i: nat, j: nat, hash: Hash, now: int)
    requires Ran(worlds, actions, trigger) && i < |actions| && actions[i] == Clear(Some(hash)) && i < j < |worlds|
    ensures Got(worlds[j].seen, hash, now) == None
  {
    assert Moves(worlds, actions[i], trigger, i);
    StaysGone(worlds, actions, trigger, i + 1, j, hash);
    RunKeeps(worlds, actions, trigger, j);
  }
}
