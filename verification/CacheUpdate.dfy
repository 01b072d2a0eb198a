/** CacheUpdateTrait::Impl: which update comes next, and what succeeding, failing and skipping do. */
module CacheUpdate {
  import opened Wrappers
  import opened CacheHandshake

  datatype UpdateType = Full | Incremental

  datatype Allowed = OnlyFull | OnlyIncremental | FullAndIncremental

  /** The configuration an update reads; it may change between updates. */
  datatype Config = Config(updatesEnabled: bool, allowed: Allowed, fullInterval: int, fullJitter: nat, alertTimes: nat)

  datatype StaticConfig = StaticConfig(allowed: Allowed, allowFirstFailure: bool, failedBeforeExpiration: nat)

  /** lastUpdate is 0 before the first update; expirations counts the calls of MarkAsExpired. */
  datatype Cache = Cache(
    firstAttempted: bool, lastUpdate: int, lastFull: int, jitter: Option<int>, failed: nat,
    dumpFirst: Option<UpdateType>, forceFull: bool, expirations: nat, alert: bool)

  /** A value RandRange can give. */
  predicate InJitter(config: Config, draw: int) {
    0 - config.fullJitter <= draw <= config.fullJitter
  }

  predicate JitterOk(c: Cache, config: Config) {
    c.jitter.Some? ==> InJitter(config, c.jitter.value)
  }

  /** The clock decides only when nothing else does. */
  predicate ClockDecides(c: Cache, config: Config) {
    c.dumpFirst.None? && c.lastUpdate != 0 && !c.forceFull && config.allowed == FullAndIncremental
  }

  predicate Draws(c: Cache, config: Config, now: int) {
    ClockDecides(c, config) && c.jitter.None? && now >= c.lastFull + config.fullInterval - config.fullJitter
  }

  function Drawn(c: Cache, config: Config, now: int, draw: int): Cache {
    if Draws(c, config, now) then c.(jitter := Some(draw)) else c
  }

  /** The type chosen once the jitter has been drawn if it is time to. */
  function Chosen(c: Cache, config: Config, now: int): UpdateType {
    if c.dumpFirst.Some? then c.dumpFirst.value
    else if c.lastUpdate == 0 || c.forceFull || config.allowed == OnlyFull then Full
    else if config.allowed == OnlyIncremental then Incremental
    else if c.jitter.Some? && now >= c.lastFull + config.fullInterval + c.jitter.value then Full
    else Incremental
  }

  function Skipped(c: Cache, fixed: StaticConfig): Cache {
    var failed := c.failed + 1;
    c.(failed := failed, expirations := if failed == fixed.failedBeforeExpiration then c.expirations + 1 else c.expirations)
  }

  function Failed(c: Cache, fixed: StaticConfig, config: Config): Cache {
    var s := Skipped(c, fixed);
    if config.alertTimes != 0 && s.failed >= config.alertTimes then s.(alert := true) else s
  }

  function Succeeded(c: Cache, update: UpdateType, start: int, wall: int): Cache {
    var s := if update.Full? then c.(forceFull := false, jitter := None, lastFull := start) else c;
    s.(dumpFirst := None, failed := 0, lastUpdate := wall, alert := false)
  }

  function Forced(c: Cache, update: UpdateType): Cache {
    if update.Full? then c.(forceFull := true) else c
  }

  /** An incremental request where only full updates are allowed becomes a full one. */
  function Requested(fixed: StaticConfig, update: UpdateType): UpdateType {
    if fixed.allowed == OnlyFull then Full else update
  }

  predicate SkipsUpdate(c: Cache, fixed: StaticConfig, config: Config) {
    !config.updatesEnabled && (c.firstAttempted || fixed.allowFirstFailure)
  }

  datatype Round = SkippedUpdate | FailedUpdate(update: UpdateType) | Updated(update: UpdateType)

  class Impl {
    const fixed: StaticConfig
    var cache: Cache
    var invalidation: Flag   // first_update_invalidation_

    constructor (fixed: StaticConfig)
      ensures this.fixed == fixed && invalidation == No && cache == Cache(false, 0, 0, None, 0, None, false, 0, false)
    {
      this.fixed, this.invalidation := fixed, No;
      cache := Cache(false, 0, 0, None, 0, None, false, 0, false);
    }

    /** Whether the caller goes on to DoInvalidateAsync. */
    method InvalidateAsync(update: UpdateType) returns (invalidates: bool)
      modifies this
      ensures cache == Forced(old(cache), Requested(fixed, update))
      ensures invalidation == Marked(old(invalidation)) && (invalidates <==> old(invalidation).Finished?)
      ensures invalidation == (if old(invalidation).Finished? then Finished else Yes)
    {
      var asked := if fixed.allowed == OnlyFull && update == Incremental then Full else update;
      if asked == Full {
        cache := cache.(forceFull := true);
      }
      var actual := invalidation;
      if actual == No {
        invalidation := Yes;
      }
      return actual == Finished;
    }

    method NextUpdateType(config: Config, now: int, draw: int) returns (update: UpdateType)
      requires InJitter(config, draw)
      modifies `cache
      ensures cache == Drawn(old(cache), config, now, draw) && update == Chosen(cache, config, now)
      ensures cache == old(cache).(jitter := cache.jitter) && (old(cache).jitter.Some? ==> cache == old(cache))
      ensures cache.dumpFirst.None? && update.Full? && JitterOk(old(cache), config) ==>
                || cache.lastUpdate == 0 || cache.forceFull || config.allowed == OnlyFull
                || now >= cache.lastFull + config.fullInterval - config.fullJitter
      ensures cache.dumpFirst.None? && update.Incremental? && JitterOk(old(cache), config) ==>
                && cache.lastUpdate != 0 && !cache.forceFull
                && (config.allowed == OnlyIncremental || now < cache.lastFull + config.fullInterval + config.fullJitter)
    {
      if cache.dumpFirst.Some? { return cache.dumpFirst.value; }
      if cache.lastUpdate == 0 { return Full; }
      if cache.forceFull { return Full; }
      match config.allowed
      case OnlyFull => return Full;
      case OnlyIncremental => return Incremental;
      case FullAndIncremental =>
        if cache.jitter.None? && now >= cache.lastFull + config.fullInterval - config.fullJitter {
          cache := cache.(jitter := Some(draw));
        }
        if cache.jitter.Some? && now >= cache.lastFull + config.fullInterval + cache.jitter.value { return Full; }
        return Incremental;
    }

    method OnUpdateSkipped()
      modifies `cache
      ensures cache == Skipped(old(cache), fixed)
      ensures cache == old(cache).(failed := cache.failed, expirations := cache.expirations)
      ensures cache.failed == old(cache.failed) + 1
      ensures cache.expirations > old(cache.expirations) <==> cache.failed == fixed.failedBeforeExpiration
    {
      cache := cache.(failed := cache.failed + 1);
      if cache.failed == fixed.failedBeforeExpiration {
        cache := cache.(expirations := cache.expirations + 1);
      }
    }

    method OnUpdateFailure(config: Config)
      modifies `cache
      ensures cache == Failed(old(cache), fixed, config)
      ensures cache.failed == old(cache.failed) + 1
      ensures cache.alert <==> old(cache.alert) || 1 <= config.alertTimes <= cache.failed
    {
      OnUpdateSkipped();
      if config.alertTimes != 0 && cache.failed >= config.alertTimes {
        cache := cache.(alert := true);
      }
    }

    /** requests: the invalidations that arrive while the derived class updates; success: how that ends. */
    method DoUpdate(update: UpdateType, config: Config, start: int, wall: int, requests: seq<UpdateType>, success: bool)
      modifies `cache
      ensures var during := ForcedBy(old(cache), fixed, requests);
              cache == if success then Succeeded(during, update, start, wall) else Failed(during, fixed, config)
    {
      for i := 0 to |requests|
        invariant ForcedBy(cache, fixed, requests[i..]) == ForcedBy(old(cache), fixed, requests)
      {
        assert requests[i..][1..] == requests[i + 1..];
        cache := Forced(cache, Requested(fixed, requests[i]));
      }
      assert requests[|requests|..] == [];
      if !success {
        OnUpdateFailure(config);
        return;
      }
      if update == Full {
        cache := cache.(forceFull := false, jitter := None, lastFull := start);
      }
      cache := cache.(dumpFirst := None, failed := 0, lastUpdate := wall, alert := false);
    }

    method DoPeriodicUpdate(config: Config, now: int, draw: int, start: int, wall: int,
                            requests: seq<UpdateType>, success: bool) returns (round: Round)
      requires InJitter(config, draw)
      modifies `cache
      ensures var (c, r) := Periodic(old(cache), fixed, config, now, draw, start, wall, requests, success);
              cache == c && round == r
      ensures config.updatesEnabled ==> !round.SkippedUpdate?
      ensures !config.updatesEnabled ==> (round.SkippedUpdate? <==> old(cache).firstAttempted || fixed.allowFirstFailure)
      ensures round.SkippedUpdate? ==> cache.failed == old(cache).failed + 1
      ensures cache.firstAttempted && (round.Updated? ==> success) && (round.FailedUpdate? ==> !success)
    {
      var isFirst := !cache.firstAttempted;
      cache := cache.(firstAttempted := true);
      if !config.updatesEnabled && (!isFirst || fixed.allowFirstFailure) {
        OnUpdateSkipped();
        return SkippedUpdate;
      }
      var update := NextUpdateType(config, now, draw);
      ForcedByIs(cache, fixed, requests);
      DoUpdate(update, config, start, wall, requests, success);
      return if success then Updated(update) else FailedUpdate(update);
    }
  }

  function ForcedBy(c: Cache, fixed: StaticConfig, requests: seq<UpdateType>): Cache
    decreases |requests|
  {
    if requests == [] then c else ForcedBy(Forced(c, Requested(fixed, requests[0])), fixed, requests[1..])
  }

  /** Requests that amount to full raise the flag; nothing else changes. */
  lemma {:induction false} ForcedByIs(c: Cache, fixed: StaticConfig, requests: seq<UpdateType>)
    ensures ForcedBy(c, fixed, requests)
            == c.(forceFull := c.forceFull || (requests != [] && fixed.allowed == OnlyFull) || Full in requests)
    decreases |requests|
  {
    if requests != [] {
      ForcedByIs(Forced(c, Requested(fixed, requests[0])), fixed, requests[1..]);
      assert Full in requests <==> requests[0] == Full || Full in requests[1..];
    }
  }

  /** A whole round of DoPeriodicUpdate. */
  function Periodic(c: Cache, fixed: StaticConfig, config: Config, now: int, draw: int, start: int, wall: int,
                    requests: seq<UpdateType>, success: bool): (Cache, Round)
  {
    var attempted := c.(firstAttempted := true);
    if SkipsUpdate(c, fixed, config) then (Skipped(attempted, fixed), SkippedUpdate)
    else
      var ready := Drawn(attempted, config, now, draw);
      var update := Chosen(ready, config, now);
      var during := ForcedBy(ready, fixed, requests);
      if success then (Succeeded(during, update, start, wall), Updated(update))
      else (Failed(during, fixed, config), FailedUpdate(update))
  }
}
