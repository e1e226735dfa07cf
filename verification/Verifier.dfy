/** The token verifier's key cache as the code has it: fields behind a lock, and the sections that use them. */
module Verifier {
  import opened KeyCache
  import opened Results

  /** Each method that takes the lock once is one section of `KeyCache`; what any interleaving of
      sections does is proved there, over the same functions on the same contents. */
  class Verifier {
    const cfg: Config
    var keys: KeySet
    var loadedAt: Option<Time>
    var lastUnknownKIDFetch: Option<Time>

    ghost var clock: Time
    ghost var grants: seq<Time>
    ghost var refreshes: seq<Time>

    function Contents(): Cache
      reads this
    {
      Cache(keys, loadedAt, lastUnknownKIDFetch)
    }

    // Unknown-kid reloads are granted one interval apart; without a source nothing is ever loaded.
    ghost predicate Valid()
      reads this
    {
      && Spaced(grants, UNKNOWN_KID_REFETCH_INTERVAL)
      && lastUnknownKIDFetch == (if grants == [] then None else Some(grants[|grants| - 1]))
      && (lastUnknownKIDFetch.Some? ==> lastUnknownKIDFetch.value <= clock)
      && (loadedAt.Some? ==> loadedAt.value <= clock)
      && (cfg.source == NoSource ==> loadedAt == None)
    }

    // Between whole requests: TTL reloads began one TTL apart, and the cache is no older than the last.
    ghost predicate Settled()
      reads this
    {
      && Spaced(refreshes, cfg.ttl)
      && (refreshes != [] ==> loadedAt.Some? && refreshes[|refreshes| - 1] <= loadedAt.value)
    }

    // Start-up: a file must load; a URL that does not answer leaves an empty set, aged from now.
    constructor (cfg: Config, initial: Option<KeySet>, now: Time)
      requires cfg.source == File ==> initial.Some?
      ensures Valid() && Settled() && grants == [] && refreshes == [] && clock == now
      ensures this.cfg == cfg && Contents() == Opened(cfg, initial, now)
      ensures keys == if cfg.source != NoSource && initial.Some? then initial.value else map[]
      ensures loadedAt == if cfg.source == NoSource then None else Some(now)
    {
      this.cfg := cfg;
      keys := if cfg.source != NoSource && initial.Some? then initial.value else map[];
      loadedAt := if cfg.source == NoSource then None else Some(now);
      lastUnknownKIDFetch := None;
      clock, grants, refreshes := now, [], [];
    }

    // Section: the age of the keys, under the read lock.
    method CheckAge(now: Time) returns (aged: bool)
      ensures aged <==> Aged(cfg, Contents(), now)
      ensures aged <==> 0 < cfg.ttl && loadedAt.Some? && now - loadedAt.value >= cfg.ttl
    {
      return 0 < cfg.ttl && loadedAt.Some? && now - loadedAt.value >= cfg.ttl;
    }

    // Section: the one slot per interval, process-wide. A granted slot counts even if its fetch fails.
    method TakeUnknownKIDSlot(checkedAt: Time, stampedAt: Time) returns (granted: bool)
      requires Valid() && clock <= checkedAt <= stampedAt
      modifies this`lastUnknownKIDFetch, this`clock, this`grants
      ensures Valid() && clock == stampedAt
      ensures granted <==> old(lastUnknownKIDFetch) == None
                           || checkedAt - old(lastUnknownKIDFetch).value >= 60_000_000_000
      ensures Contents() == if SlotFree(old(Contents()), checkedAt) then SlotTaken(old(Contents()), stampedAt) else old(Contents())
      ensures grants == if granted then old(grants) + [stampedAt] else old(grants)
    {
      clock := stampedAt;
      if lastUnknownKIDFetch.Some? && checkedAt - lastUnknownKIDFetch.value < UNKNOWN_KID_REFETCH_INTERVAL {
        return false;
      }
      lastUnknownKIDFetch := Some(stampedAt);
      grants := grants + [stampedAt];
      return true;
    }

    // Section: the outcome of a fetch. A failure leaves the key set and its age alone.
    method Reload(fetched: Option<KeySet>, at: Time) returns (ok: bool)
      requires Valid() && clock <= at
      modifies this`keys, this`loadedAt, this`clock
      ensures Valid() && clock == at
      ensures ok <==> cfg.source == NoSource || fetched.Some?
      ensures Contents() == if fetched.Some? then Loaded(cfg, old(Contents()), fetched.value, at) else old(Contents())
      ensures keys == if cfg.source != NoSource && fetched.Some? then fetched.value else old(keys)
      ensures loadedAt == if cfg.source != NoSource && fetched.Some? then Some(at) else old(loadedAt)
    {
      clock := at;
      if cfg.source == NoSource {
        return true;
      }
      if fetched.None? {
        return false;
      }
      keys := fetched.value;
      loadedAt := Some(at);
      return true;
    }

    // Section: after a failed refresh, the next attempt waits a whole TTL.
    method Postpone(at: Time)
      requires Valid() && clock <= at && cfg.source != NoSource
      modifies this`loadedAt, this`clock
      ensures Valid() && clock == at && Contents() == Postponed(old(Contents()), at)
      ensures loadedAt == Some(at)
    {
      clock := at;
      loadedAt := Some(at);
    }

    method RefetchUnknownKID(checkedAt: Time, stampedAt: Time, fetched: Option<KeySet>, at: Time) returns (granted: bool)
      requires Valid() && Settled() && clock <= checkedAt <= stampedAt <= at
      modifies this
      ensures Valid() && Settled() && refreshes == old(refreshes)
      ensures granted <==> old(lastUnknownKIDFetch) == None
                           || checkedAt - old(lastUnknownKIDFetch).value >= 60_000_000_000
      ensures lastUnknownKIDFetch == if granted then Some(stampedAt) else old(lastUnknownKIDFetch)
      ensures loadedAt == if granted && cfg.source != NoSource && fetched.Some? then Some(at) else old(loadedAt)
      ensures grants == if granted then old(grants) + [stampedAt] else old(grants)
      ensures keys == if granted && cfg.source != NoSource && fetched.Some? then fetched.value else old(keys)
    {
      granted := TakeUnknownKIDSlot(checkedAt, stampedAt);
      if granted {
        var _ := Reload(fetched, at);
      }
    }

    /** Requests one after another reload for age at least one TTL apart, even if every fetch fails. */
    method RefreshIfStale(now: Time, fetched: Option<KeySet>, at: Time, postponedAt: Time) returns (reloaded: bool)
      requires Valid() && Settled() && clock <= now <= at <= postponedAt
      modifies this
      ensures Valid() && Settled() && grants == old(grants)
      ensures reloaded <==> 0 < cfg.ttl && old(loadedAt).Some? && now - old(loadedAt).value >= cfg.ttl
      ensures loadedAt == if !reloaded then old(loadedAt) else if fetched.Some? then Some(at) else Some(postponedAt)
      ensures lastUnknownKIDFetch == old(lastUnknownKIDFetch)
      ensures refreshes == if reloaded then old(refreshes) + [now] else old(refreshes)
      ensures keys == if reloaded && fetched.Some? then fetched.value else old(keys)
    {
      var aged := CheckAge(now);
      if !aged {
        return false;
      }
      refreshes := refreshes + [now];
      var ok := Reload(fetched, at);
      if !ok {
        Postpone(postponedAt);
      }
      return true;
    }
  }
}
