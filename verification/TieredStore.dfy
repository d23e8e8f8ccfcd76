/** The tiered store (crates/dagron-artifact/src/tiered.rs), one call at a time. */
module TieredStore {
  import opened Common
  import opened Ledger
  import opened LedgerFile
  import opened LedgerStore
  import opened LedgerTruth
  import opened Uplink
  import opened DrainQueue

  class Store {
    const ledger: TierLedger
    const config: Config
    const at: Rel -> Locator
    var local: map<Rel, Bytes>
    var remote: map<Rel, Bytes>

    ghost predicate Valid()
      reads this, ledger
    {
      ledger.Valid() && ledger.codec == config.codec && Truthful(config, ledger.Value(), remote)
    }

    function Now(): Shelf
      reads this, ledger
    {
      Shelf(ledger.Value(), remote)
    }

    constructor (ledger: TierLedger, config: Config, at: Rel -> Locator, local: map<Rel, Bytes>, remote: map<Rel, Bytes>)
      requires ledger.Valid() && ledger.codec == config.codec && Truthful(config, ledger.Value(), remote)
      ensures Valid() && this.ledger == ledger && this.config == config && this.at == at
      ensures this.local == local && this.remote == remote
    {
      this.ledger, this.config, this.at := ledger, config, at;
      this.local, this.remote := local, remote;
    }

    /** The bytes land in the local tier, and wait for the remote one unless the ledger has them already. */
    method Put(key: Rel, bytes: Bytes, now: nat, fault: Fault) returns (ok: bool)
      requires Valid()
      modifies this`local, ledger
      ensures Valid() && local == old(local)[key := bytes]
      ensures ledger.Now() == if IsSettled(old(ledger.Value()), key, config.hash(bytes)) then old(ledger.Now())
                              else Persisted(config.codec, old(ledger.Now()),
                                             [Record.Pending(key, config.hash(bytes), |bytes|, now)], fault)
    {
      local := local[key := bytes];
      if IsSettled(ledger.Value(), key, config.hash(bytes)) {
        return true;
      }
      var rec := Record.Pending(key, config.hash(bytes), |bytes|, now);
      OneApplied(ledger.Value(), rec);
      HonestApplied(config, ledger.Value(), rec, remote, {});
      ok := ledger.Persist([rec], fault);
    }

    method Get(key: Rel) returns (bytes: Option<Bytes>)
      requires Valid()
      ensures bytes == Served(ledger.Value(), local, remote, key)
      ensures key !in local && key in ledger.entries && !ledger.entries[key].state.Pending? && bytes.Some? ==>
                config.hash(bytes.value) == ledger.entries[key].sha
    {
      if key in local {
        return Some(local[key]);
      }
      match RemoteKeyFor(ledger.Value(), key) {
        case None => bytes := None;
        case Some(there) => bytes := if there in remote then Some(remote[there]) else None;
      }
    }

    /** Every file the ledger does not know, to be ledgered as it is now. */
    method Scan(now: nat, listed: seq<Rel>, kept: set<Rel>) returns (recs: seq<Record>)
      ensures recs == ScanRecords(config, now, ledger.Value(), local, listed, kept)
    {
      recs := [];
      for i := 0 to |listed|
        invariant recs == ScanRecords(config, now, ledger.Value(), local, listed[..i], kept)
      {
        assert listed[..i + 1][..i] == listed[..i];
        var rel := listed[i];
        if rel in local && rel !in ledger.entries && rel !in kept {
          recs := recs + [Record.Pending(rel, config.hash(local[rel]), |local[rel]|, now)];
        }
      }
      assert listed[..|listed|] == listed;
    }

    /** Every alias whose target moved on: queued again while its file is here, dropped otherwise. */
    method Requeue(now: nat, stale: seq<Rel>) returns (recs: seq<Record>)
      requires Known(ledger.Value(), stale)
      ensures recs == StaleRecords(now, ledger.Value(), local, stale)
    {
      recs := [];
      for i := 0 to |stale|
        invariant recs == StaleRecords(now, ledger.Value(), local, stale[..i])
      {
        assert stale[..i + 1][..i] == stale[..i];
        assert stale[i] in stale;
        recs := recs + [StaleRecord(now, ledger.Value(), local, stale[i])];
      }
      assert stale[..|stale|] == stale;
    }

    method Note(rec: Record)
      requires Valid() && !rec.Done?
      modifies ledger
      ensures Valid() && ledger.Value() == Applied(old(ledger.Value()), rec)
    {
      OneApplied(ledger.Value(), rec);
      HonestApplied(config, ledger.Value(), rec, remote, {});
      var ok := ledger.Persist([rec], Fine);
    }

    /** The file goes up, and the ledger says so and counts it. */
    method Upload(now: nat, key: Rel)
      requires Valid() && key in local && NotDone(ledger.Value(), key)
      modifies this`remote, ledger
      ensures Valid() && remote == old(remote)[key := local[key]]
      ensures ledger.Value()
           == AppliedAll(old(ledger.Value()), Uploaded(config, now, old(ledger.Value()), key, local[key], at(key)))
    {
      var recs := Uploaded(config, now, ledger.Value(), key, local[key], at(key));
      UploadTruthful(config, now, Now(), key, local[key], at(key));
      remote := remote[key := local[key]];
      var ok := ledger.Persist(recs, Fine);
    }

    /** One entry of the queue; `link` is how many uploads the link will still carry, if not all. */
    method Move(now: nat, want: Entry, link: Link) returns (rest: Link, end: Option<End>)
      requires Valid()
      modifies this`remote, ledger
      ensures Valid()
      ensures (Now(), rest, end) == MoveOne(config, at, now, local, link, want, old(Now()))
    {
      rest, end := link, None;
      var mem := ledger.Value();
      match Choose(mem, config.cap, want) {
        case Skip =>
        case TooBig =>
        case Stop =>
          end := Some(Deferred);
        case AliasTo(of) =>
          Note(AliasRecord(mem, want, now, of));
        case Upload =>
          if want.key !in local {
            Note(Record.Forget(want.key));
          } else if link == Some(0) {
            end := Some(LinkDown);
          } else {
            Upload(now, want.key);
            rest := if link.Some? then Some(link.value - 1) else None;
          }
      }
    }

    /** A drain, with the ledger's writes all made; `link` says when the link goes down, if it does. */
    method DrainAt(now: nat, listed: seq<Rel>, kept: set<Rel>, link: Link) returns (end: End, ghost v: Visit)
      requires Valid()
      modifies this`remote, ledger
      ensures Valid()
      ensures v == Visit(now, local, listed, kept, v.stale, link)
      ensures Known(old(ledger.Value()), v.stale) && forall rel :: rel in v.stale <==> rel in StaleRels(old(ledger.Value()))
      ensures (Now(), end) == DrainAll(config, at, v, old(Now()))
    {
      var mem := ledger.Value();
      var stale := InOrder(mem, StaleRels(mem));
      v := Visit(now, local, listed, kept, stale, link);
      var recs := Scan(now, listed, kept);
      var again := Requeue(now, stale);
      var found := recs + again + NewDay(mem, now / SECS_PER_DAY);
      assert found == Found(config, v, mem);
      FoundIsModest(config, now, mem, local, listed, kept);
      StaleIsModest(now, mem, local, stale);
      HonestAppliedAll(config, mem, found, remote, {});
      var ok := ledger.Persist(found, Fine);
      assert ledger.Value() == AppliedAll(mem, found);
      end := MoveQueue(now, PendingInOrder(ledger.Value()), link);
    }

    method MoveQueue(now: nat, order: seq<Entry>, link: Link) returns (end: End)
      requires Valid()
      modifies this`remote, ledger
      ensures Valid() && (Now(), end) == MoveAll(config, at, now, local, link, order, old(Now()))
    {
      var left := link;
      for i := 0 to |order|
        invariant Valid()
        invariant MoveAll(config, at, now, local, link, order, old(Now()))
               == MoveAll(config, at, now, local, left, order[i..], Now())
      {
        assert order[i..][0] == order[i] && order[i..][1..] == order[i + 1..];
        var stop: Option<End>;
        left, stop := Move(now, order[i], left);
        if stop.Some? {
          return stop.value;
        }
      }
      end := Drained;
    }
  }
}
