/** Cache updates over whole runs: invalidations arrive at any time, periodic and forced updates one at a time. */
module CacheRuns {
  import opened Wrappers
  import opened CacheUpdate

  /**
   Load: StartPeriodicUpdates reads the dump, if there is one, and its time; Start: the first update is over;
   Begin: a periodic round up to the call of Update; Request: UpdateSyncDebug; Finish: how Update ended.
   */
  datatype Event =
    | Load(dump: Option<int>)
    | Start
    | Invalidate(update: UpdateType)
    | Begin(now: int, draw: int, start: int, wall: int)
    | Request(asked: UpdateType, start: int, wall: int)
    | Finish(success: bool)

  datatype Running = Running(update: UpdateType, start: int, wall: int)

  /** How far StartPeriodicUpdates is, and whether it found a dump. */
  datatype Phase = Created | Starting(dumped: bool) | Started(dumped: bool)

  /** clock: the latest steady time read. */
  datatype System = System(phase: Phase, cache: Cache, running: Option<Running>, clock: int)

  datatype FirstType = FirstFull | FirstIncremental | IncrementalThenAsyncFull

  /** A configuration that stays the same during the run. */
  datatype Setup = Setup(fixed: StaticConfig, config: Config, first: FirstType)

  /** update_mutex_ lets one update run at a time; the steady clock does not go back. */
  predicate Enabled(setup: Setup, s: System, e: Event) {
    match e
    case Load(dump) => s.phase.Created? && dump != Some(0)
    case Start => s.phase.Starting? && s.running.None?
    case Invalidate(_) => true
    case Begin(now, draw, start, wall) =>
      !s.phase.Created? && s.running.None? && InJitter(setup.config, draw) && s.clock <= now <= start && wall != 0
    case Request(_, start, wall) => s.running.None? && s.clock <= start && wall != 0
    case Finish(_) => s.running.Some?
  }

  function Apply(setup: Setup, s: System, e: Event): System
    requires Enabled(setup, s, e)
  {
    match e
    case Load(dump) =>
      var loaded := if dump.None? then s.cache
                    else s.cache.(lastUpdate := dump.value, dumpFirst := Some(if setup.first.FirstFull? then Full else Incremental));
      s.(phase := Starting(dump.Some?), cache := loaded)
    case Start =>
      var asyncFull := s.phase.dumped && setup.first.IncrementalThenAsyncFull?;
      s.(phase := Started(s.phase.dumped), cache := if asyncFull then s.cache.(dumpFirst := Some(Full)) else s.cache)
    case Invalidate(update) => s.(cache := Forced(s.cache, Requested(setup.fixed, update)))
    case Begin(now, draw, start, wall) =>
      var c := s.cache.(firstAttempted := true);
      if SkipsUpdate(s.cache, setup.fixed, setup.config) then System(s.phase, Skipped(c, setup.fixed), None, start)
      else
        var ready := Drawn(c, setup.config, now, draw);
        System(s.phase, ready, Some(Running(Chosen(ready, setup.config, now), start, wall)), start)
    case Request(asked, start, wall) =>
      if !setup.config.updatesEnabled then s.(clock := start)
      else System(s.phase, s.cache, Some(Running(Requested(setup.fixed, asked), start, wall)), start)
    case Finish(success) =>
      var r := s.running.value;
      s.(running := None, cache := if success then Succeeded(s.cache, r.update, r.start, r.wall)
                                   else Failed(s.cache, setup.fixed, setup.config))
  }

  predicate Valid(setup: Setup, s: System, run: seq<Event>)
    decreases |run|
  {
    run == [] || (Enabled(setup, s, run[0]) && Valid(setup, Apply(setup, s, run[0]), run[1..]))
  }

  function After(setup: Setup, s: System, run: seq<Event>): System
    requires Valid(setup, s, run)
    decreases |run|
  {
    if run == [] then s else After(setup, Apply(setup, s, run[0]), run[1..])
  }

  /** Event e in state s completes a full update. */
  predicate FullSuccess(s: System, e: Event) {
    e == Finish(true) && s.running.Some? && s.running.value.update.Full?
  }

  predicate NoFullSuccess(setup: Setup, s: System, run: seq<Event>)
    requires Valid(setup, s, run)
    decreases |run|
  {
    run == [] || (!FullSuccess(s, run[0]) && NoFullSuccess(setup, Apply(setup, s, run[0]), run[1..]))
  }

  /** The type a periodic round starting with e chooses. */
  function Choice(setup: Setup, s: System, e: Event): UpdateType
    requires e.Begin?
  {
    Chosen(Drawn(s.cache.(firstAttempted := true), setup.config, e.now, e.draw), setup.config, e.now)
  }

  // ----- Which rounds update -----

  predicate HasBegin(run: seq<Event>) {
    exists i :: 0 <= i < |run| && run[i].Begin?
  }

  lemma {:induction false} AttemptedIffBegun(setup: Setup, s: System, run: seq<Event>)
    requires Valid(setup, s, run)
    ensures After(setup, s, run).cache.firstAttempted <==> s.cache.firstAttempted || HasBegin(run)
    decreases |run|
  {
    if run != [] {
      AttemptedIffBegun(setup, Apply(setup, s, run[0]), run[1..]);
      assert HasBegin(run) <==> run[0].Begin? || HasBegin(run[1..]) by {
        if i :| 0 <= i < |run| && run[i].Begin? && i > 0 { assert run[1..][i - 1] == run[i]; }
        if i :| 0 <= i < |run| - 1 && run[1..][i].Begin? { assert run[i + 1] == run[1..][i]; }
      }
    }
  }

  /**
   A round is skipped, and counted as a failure, exactly when updates are disabled and it is not the first one or
   a first failure is allowed; any other round updates.
   */
  lemma SkippedIffDisabled(setup: Setup, s: System, run: seq<Event>, e: Event)
    requires !s.cache.firstAttempted && Valid(setup, s, run) && e.Begin? && Enabled(setup, After(setup, s, run), e)
    ensures var (t, u) := (After(setup, s, run), Apply(setup, After(setup, s, run), e));
            && (u.running.None? <==> !setup.config.updatesEnabled && (setup.fixed.allowFirstFailure || HasBegin(run)))
            && u.cache.failed == t.cache.failed + (if u.running.None? then 1 else 0)
            && Result(setup, t, e) == if u.running.None? then [false] else []
  {
    AttemptedIffBegun(setup, s, run);
  }

  // ----- The jitter window -----

  /** The start and a first update are over, and a drawn jitter is within bounds. */
  predicate Settled(setup: Setup, s: System) {
    s.phase.Started? && s.cache.dumpFirst.None? && s.cache.lastUpdate != 0
    && (s.cache.jitter.Some? ==> InJitter(setup.config, s.cache.jitter.value))
    && (s.running.Some? ==> s.running.value.wall != 0)
  }

  lemma {:induction false} StaysSettled(setup: Setup, s: System, run: seq<Event>)
    requires Settled(setup, s) && Valid(setup, s, run)
    ensures Settled(setup, After(setup, s, run))
    decreases |run|
  {
    if run != [] {
      StaysSettled(setup, Apply(setup, s, run[0]), run[1..]);
    }
  }

  /**
   After any run from a settled state, a round in which nothing forces a full update: it is never full before
   last full + interval - jitter bound, and always full from last full + interval + jitter bound on.
   */
  lemma FullUpdateWindow(setup: Setup, s: System, run: seq<Event>, e: Event)
    requires Settled(setup, s) && Valid(setup, s, run) && setup.config.allowed == FullAndIncremental
    requires var t := After(setup, s, run); e.Begin? && Enabled(setup, t, e) && !t.cache.forceFull
    ensures var c, j := After(setup, s, run).cache, setup.config.fullJitter;
            var due := c.lastFull + setup.config.fullInterval;
            && (Choice(setup, After(setup, s, run), e).Full? ==> e.now >= due - j)
            && (e.now >= due + j ==> Choice(setup, After(setup, s, run), e).Full?)
  {
    StaysSettled(setup, s, run);
  }

  /** A full update is due at time t whatever happens next, short of a full success. */
  predicate Due(setup: Setup, c: Cache, t: int) {
    || c.forceFull
    || setup.config.allowed == OnlyFull
    || (setup.config.allowed == FullAndIncremental && c.jitter.Some?
        && t >= c.lastFull + setup.config.fullInterval + c.jitter.value)
  }

  lemma {:induction false} DueUntilFullSuccess(setup: Setup, s: System, t: int, run: seq<Event>)
    requires Valid(setup, s, run) && NoFullSuccess(setup, s, run) && Due(setup, s.cache, t) && t <= s.clock
    ensures Due(setup, After(setup, s, run).cache, t) && t <= After(setup, s, run).clock
    decreases |run|
  {
    if run != [] {
      DueUntilFullSuccess(setup, Apply(setup, s, run[0]), t, run[1..]);
    }
  }

  /** Once a round has chosen a full update, every later round does until a full update succeeds. */
  lemma DueStaysDue(setup: Setup, s: System, first: Event, run: seq<Event>, later: Event)
    requires Settled(setup, s) && first.Begin? && Valid(setup, s, [first] + run) && NoFullSuccess(setup, s, [first] + run)
    requires later.Begin? && Enabled(setup, After(setup, s, [first] + run), later)
    requires Choice(setup, s, first).Full? && !SkipsUpdate(s.cache, setup.fixed, setup.config)
    ensures Choice(setup, After(setup, s, [first] + run), later).Full?
  {
    var all := [first] + run;
    assert all[0] == first && all[1..] == run;
    var next := Apply(setup, s, first);
    assert Due(setup, next.cache, first.now);
    DueUntilFullSuccess(setup, next, first.now, run);
    StaysSettled(setup, s, all);
  }

  function DrawCount(setup: Setup, s: System, run: seq<Event>): nat
    requires Valid(setup, s, run)
    decreases |run|
  {
    if run == [] then 0
    else
      var next := Apply(setup, s, run[0]);
      (if s.cache.jitter.None? && next.cache.jitter.Some? then 1 else 0) + DrawCount(setup, next, run[1..])
  }

  /** Until a full update succeeds the jitter is drawn at most once, and a drawn one does not change. */
  lemma {:induction false} JitterDrawnOnce(setup: Setup, s: System, run: seq<Event>)
    requires Valid(setup, s, run) && NoFullSuccess(setup, s, run)
    ensures DrawCount(setup, s, run) <= 1
    ensures s.cache.jitter.Some? ==> DrawCount(setup, s, run) == 0 && After(setup, s, run).cache.jitter == s.cache.jitter
    ensures After(setup, s, run).cache.lastFull == s.cache.lastFull
    decreases |run|
  {
    if run != [] {
      JitterDrawnOnce(setup, Apply(setup, s, run[0]), run[1..]);
    }
  }

  /** When the full updates that succeeded were started, in order. */
  function FullStarts(setup: Setup, s: System, run: seq<Event>): seq<int>
    requires Valid(setup, s, run)
    decreases |run|
  {
    if run == [] then []
    else (if FullSuccess(s, run[0]) then [s.running.value.start] else []) + FullStarts(setup, Apply(setup, s, run[0]), run[1..])
  }

  /** The window is counted from the start of the last full update that succeeded. */
  lemma {:induction false} LastFullIs(setup: Setup, s: System, run: seq<Event>)
    requires Valid(setup, s, run)
    ensures var starts := FullStarts(setup, s, run);
            After(setup, s, run).cache.lastFull == if starts == [] then s.cache.lastFull else starts[|starts| - 1]
    decreases |run|
  {
    if run != [] {
      LastFullIs(setup, Apply(setup, s, run[0]), run[1..]);
    }
  }

  // ----- Before the first success -----

  predicate NoSuccess(run: seq<Event>) {
    forall i :: 0 <= i < |run| ==> run[i] != Finish(true)
  }

  lemma NoSuccessLater(run: seq<Event>)
    requires NoSuccess(run) && run != []
    ensures run[0] != Finish(true) && NoSuccess(run[1..])
  {
    assert forall i :: 0 <= i < |run| - 1 ==> run[1..][i] == run[i + 1];
  }

  /**
   Once started, until some update succeeds, every periodic round takes the type the dump asked for, whatever was
   forced meanwhile, and a full update where there is neither a dump nor any data.
   */
  lemma {:induction false} TypeBeforeFirstSuccess(setup: Setup, s: System, run: seq<Event>, e: Event)
    requires s.phase.Started? && Valid(setup, s, run) && NoSuccess(run)
    requires e.Begin? && Enabled(setup, After(setup, s, run), e)
    ensures s.cache.dumpFirst.Some? ==> Choice(setup, After(setup, s, run), e) == s.cache.dumpFirst.value
    ensures s.cache.dumpFirst.None? && s.cache.lastUpdate == 0 ==> Choice(setup, After(setup, s, run), e).Full?
    decreases |run|
  {
    if run != [] {
      NoSuccessLater(run);
      TypeBeforeFirstSuccess(setup, Apply(setup, s, run[0]), run[1..], e);
    }
  }

  /** The first update is incremental, and a full one follows: whatever came of the first, every round is full until one succeeds. */
  lemma AsyncFullFollows(setup: Setup, s: System, run: seq<Event>, e: Event)
    requires s.phase == Starting(true) && setup.first.IncrementalThenAsyncFull?
    requires Valid(setup, s, [Start] + run) && NoSuccess(run)
    requires e.Begin? && Enabled(setup, After(setup, s, [Start] + run), e)
    ensures Choice(setup, After(setup, s, [Start] + run), e).Full?
  {
    var all := [Start] + run;
    assert all[0] == Start && all[1..] == run;
    TypeBeforeFirstSuccess(setup, Apply(setup, s, Start), run, e);
  }

  /** The type of the updates before the first success: incremental only with a dump, and only while the configuration says so. */
  predicate FirstIsIncremental(setup: Setup, phase: Phase) {
    !phase.Created? && phase.dumped
    && (setup.first.FirstIncremental? || (setup.first.IncrementalThenAsyncFull? && phase.Starting?))
  }

  /** What holds from the creation of the cache until its first success. */
  predicate Waiting(setup: Setup, s: System) {
    var dumped := !s.phase.Created? && s.phase.dumped;
    && s.cache.dumpFirst == (if dumped then Some(if FirstIsIncremental(setup, s.phase) then Incremental else Full) else None)
    && (s.cache.lastUpdate == 0 <==> !dumped)
  }

  lemma {:induction false} StaysWaiting(setup: Setup, s: System, run: seq<Event>)
    requires Waiting(setup, s) && Valid(setup, s, run) && NoSuccess(run)
    ensures Waiting(setup, After(setup, s, run))
    decreases |run|
  {
    if run != [] {
      NoSuccessLater(run);
      StaysWaiting(setup, Apply(setup, s, run[0]), run[1..]);
    }
  }

  /**
   From its creation until its first success the cache updates incrementally exactly when it has a dump and is set
   to update incrementally first, or to do so during the start only and the start is not over.
   */
  lemma FirstUpdateType(setup: Setup, s: System, run: seq<Event>, e: Event)
    requires s.phase.Created? && s.cache.dumpFirst.None? && s.cache.lastUpdate == 0
    requires Valid(setup, s, run) && NoSuccess(run) && e.Begin? && Enabled(setup, After(setup, s, run), e)
    ensures var t := After(setup, s, run); Choice(setup, t, e).Incremental? <==> FirstIsIncremental(setup, t.phase)
  {
    StaysWaiting(setup, s, run);
  }

  // ----- Failures and expiry -----

  /** How each update of the run ended, in order: a skipped round counts as not updated. */
  function Results(setup: Setup, s: System, run: seq<Event>): seq<bool>
    requires Valid(setup, s, run)
    decreases |run|
  {
    if run == [] then [] else Result(setup, s, run[0]) + Results(setup, Apply(setup, s, run[0]), run[1..])
  }

  function Result(setup: Setup, s: System, e: Event): seq<bool> {
    if e.Finish? then [e.success]
    else if e.Begin? && SkipsUpdate(s.cache, setup.fixed, setup.config) then [false]
    else []
  }

  /** How many results there are up to and including the last success. */
  function LastSuccess(results: seq<bool>): (n: nat)
    ensures n <= |results|
  {
    if results == [] then 0
    else if results[|results| - 1] then |results|
    else LastSuccess(results[..|results| - 1])
  }

  function Streak(results: seq<bool>): nat {
    |results| - LastSuccess(results)
  }

  /** The moments at which a streak reaches limit. */
  function Expiries(results: seq<bool>, limit: nat): nat {
    if results == [] then 0
    else Expiries(results[..|results| - 1], limit)
         + if !results[|results| - 1] && Streak(results) == limit then 1 else 0
  }

  ghost predicate Counts(setup: Setup, s: System, results: seq<bool>) {
    s.cache.failed == Streak(results) && s.cache.expirations == Expiries(results, setup.fixed.failedBeforeExpiration)
  }

  lemma OneMoreResult(results: seq<bool>, success: bool, limit: nat)
    ensures Streak(results + [success]) == if success then 0 else Streak(results) + 1
    ensures Expiries(results + [success], limit)
            == Expiries(results, limit) + if !success && Streak(results) + 1 == limit then 1 else 0
  {
    assert (results + [success])[..|results|] == results;
  }

  /** What one event does to the two counters. */
  lemma StepCounters(setup: Setup, s: System, e: Event)
    requires Enabled(setup, s, e)
    ensures var (c, d, here, limit) := (s.cache, Apply(setup, s, e).cache, Result(setup, s, e), setup.fixed.failedBeforeExpiration);
            if here == [] then d.failed == c.failed && d.expirations == c.expirations
            else && here == [here[0]] && d.failed == (if here[0] then 0 else c.failed + 1)
                 && d.expirations == c.expirations + if !here[0] && c.failed + 1 == limit then 1 else 0
  {}

  lemma StepCounts(setup: Setup, s: System, before: seq<bool>, e: Event)
    requires Enabled(setup, s, e) && Counts(setup, s, before)
    ensures Counts(setup, Apply(setup, s, e), before + Result(setup, s, e))
  {
    var here := Result(setup, s, e);
    StepCounters(setup, s, e);
    if here == [] {
      assert before + here == before;
    } else {
      OneMoreResult(before, here[0], setup.fixed.failedBeforeExpiration);
    }
  }

  lemma {:induction false} CountsFollow(setup: Setup, s: System, before: seq<bool>, run: seq<Event>)
    requires Valid(setup, s, run) && Counts(setup, s, before)
    ensures Counts(setup, After(setup, s, run), before + Results(setup, s, run))
    decreases |run|
  {
    if run == [] {
      assert before + [] == before;
    } else {
      var here, rest := Result(setup, s, run[0]), Results(setup, Apply(setup, s, run[0]), run[1..]);
      StepCounts(setup, s, before, run[0]);
      CountsFollow(setup, Apply(setup, s, run[0]), before + here, run[1..]);
      assert before + here + rest == before + (here + rest);
    }
  }

  /**
   Over any run from the start, the counter is the number of updates failed or skipped since the last success,
   and MarkAsExpired has been called once for each moment it reached the limit.
   */
  lemma FailureCounter(setup: Setup, s: System, run: seq<Event>)
    requires Valid(setup, s, run) && s.cache.failed == 0 && s.cache.expirations == 0
    ensures var c, results := After(setup, s, run).cache, Results(setup, s, run);
            c.failed == Streak(results) && c.expirations == Expiries(results, setup.fixed.failedBeforeExpiration)
  {
    CountsFollow(setup, s, [], run);
    assert [] + Results(setup, s, run) == Results(setup, s, run);
  }

  /** Since the last success the cache expired once if at least limit >= 1 updates failed, and otherwise not at all. */
  lemma {:induction false} ExpiresOncePerStreak(results: seq<bool>, limit: nat)
    ensures Expiries(results, limit) - Expiries(results[..LastSuccess(results)], limit)
            == if 1 <= limit <= Streak(results) then 1 else 0
    decreases |results|
  {
    if results != [] {
      var shorter := results[..|results| - 1];
      if results[|results| - 1] {
        assert results[..|results|] == results;
      } else {
        ExpiresOncePerStreak(shorter, limit);
        assert results[..LastSuccess(results)] == shorter[..LastSuccess(shorter)];
      }
    }
  }

  // ----- Forced full updates -----

  /** A full invalidation came at some point with no full update completed after it. */
  ghost predicate InvalidatedSince(setup: Setup, s: System, run: seq<Event>)
    requires Valid(setup, s, run)
    decreases |run|
  {
    run != [] &&
    (InvalidatedSince(setup, Apply(setup, s, run[0]), run[1..])
     || (run[0].Invalidate? && Requested(setup.fixed, run[0].update).Full?
         && NoFullSuccess(setup, Apply(setup, s, run[0]), run[1..])))
  }

  /** The flag is up exactly when a full invalidation came after the last completed full update. */
  lemma {:induction false} ForcedIffInvalidatedSince(setup: Setup, s: System, run: seq<Event>)
    requires Valid(setup, s, run)
    ensures After(setup, s, run).cache.forceFull
            <==> InvalidatedSince(setup, s, run) || (s.cache.forceFull && NoFullSuccess(setup, s, run))
    decreases |run|
  {
    if run != [] {
      ForcedIffInvalidatedSince(setup, Apply(setup, s, run[0]), run[1..]);
    }
  }

  /** A full invalidation makes the next round full as long as no full update completes in between. */
  lemma ForcedRoundIsFull(setup: Setup, s: System, run: seq<Event>, e: Event)
    requires Settled(setup, s) && Valid(setup, s, run)
    requires e.Begin? && Enabled(setup, After(setup, s, run), e) && InvalidatedSince(setup, s, run)
    ensures Choice(setup, After(setup, s, run), e).Full?
  {
    ForcedIffInvalidatedSince(setup, s, run);
    StaysSettled(setup, s, run);
  }

  /**
   A full invalidation that arrives while a full update runs is forgotten when that update succeeds: a round
   before the next window is incremental.
   */
  lemma InvalidationLost(setup: Setup, s: System, e: Event)
    requires Settled(setup, s) && setup.fixed.allowed == setup.config.allowed == FullAndIncremental
    requires s.running.Some? && s.running.value.update.Full?
    requires e.Begin? && InJitter(setup.config, e.draw) && e.start >= e.now && e.wall != 0
    requires s.clock <= e.now < s.running.value.start + setup.config.fullInterval - setup.config.fullJitter
    ensures var run := [Invalidate(Full), Finish(true)];
            && Valid(setup, s, run) && !After(setup, s, run).cache.forceFull
            && Enabled(setup, After(setup, s, run), e) && Choice(setup, After(setup, s, run), e).Incremental?
  {
    var run := [Invalidate(Full), Finish(true)];
    var s1 := Apply(setup, s, run[0]);
    var s2 := Apply(setup, s1, Finish(true));
    assert run[1..] == [Finish(true)] && run[1..][1..] == [];
    assert Valid(setup, s2, run[1..][1..]) && Valid(setup, s1, run[1..]);
    assert After(setup, s1, run[1..]) == s2;
  }

  // ----- The class against the runs -----

  /** A round of DoPeriodicUpdate is Begin, the invalidations that arrive during it, and Finish; a skipped one is over at once. */
  function RoundEvents(skips: bool, now: int, draw: int, start: int, wall: int, requests: seq<UpdateType>, success: bool): seq<Event> {
    [Begin(now, draw, start, wall)] + if skips then [] else Requests(requests) + [Finish(success)]
  }

  function Requests(requests: seq<UpdateType>): seq<Event> {
    if requests == [] then [] else [Invalidate(requests[0])] + Requests(requests[1..])
  }

  lemma {:induction false} RequestsApply(setup: Setup, s: System, requests: seq<UpdateType>, success: bool)
    requires s.running.Some?
    ensures var run := Requests(requests) + [Finish(success)];
            && Valid(setup, s, run)
            && After(setup, s, run) == Apply(setup, s.(cache := ForcedBy(s.cache, setup.fixed, requests)), Finish(success))
    decreases |requests|
  {
    var run := Requests(requests) + [Finish(success)];
    if requests == [] {
      assert run == [Finish(success)] && run[1..] == [];
    } else {
      var next := Apply(setup, s, Invalidate(requests[0]));
      RequestsApply(setup, next, requests[1..], success);
      assert run[0] == Invalidate(requests[0]) && run[1..] == Requests(requests[1..]) + [Finish(success)];
    }
  }

  /** What a round of DoPeriodicUpdate does to the cache is what its events do. */
  lemma RoundIsRun(setup: Setup, s: System, now: int, draw: int, start: int, wall: int, requests: seq<UpdateType>, success: bool)
    requires Enabled(setup, s, Begin(now, draw, start, wall))
    ensures var run := RoundEvents(SkipsUpdate(s.cache, setup.fixed, setup.config), now, draw, start, wall, requests, success);
            && Valid(setup, s, run)
            && After(setup, s, run).cache
               == Periodic(s.cache, setup.fixed, setup.config, now, draw, start, wall, requests, success).0
  {
    var e, skips := Begin(now, draw, start, wall), SkipsUpdate(s.cache, setup.fixed, setup.config);
    var run := RoundEvents(skips, now, draw, start, wall, requests, success);
    if skips {
      assert run[0] == e && run[1..] == [];
      assert Valid(setup, Apply(setup, s, e), run[1..]);
    } else {
      assert run[0] == e && run[1..] == Requests(requests) + [Finish(success)];
      RequestsApply(setup, Apply(setup, s, e), requests, success);
    }
  }
}
