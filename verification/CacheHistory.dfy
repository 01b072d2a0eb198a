/** The fields of the cache over whole runs: what each of them says about the events so far. */
module CacheHistory {
  import opened Wrappers
  import opened CacheUpdate
  import opened CacheRuns

  // ----- The type of a round -----

  predicate Calm(setup: Setup, s: System) {
    Settled(setup, s) && !s.cache.forceFull && setup.config.updatesEnabled
  }

  /**
   Where the clock decides, any draw within the bounds, both included, may be made, and it is made exactly from the
   start of the window on; the round is full exactly from last full + interval + draw on.
   */
  lemma DrawDecides(setup: Setup, s: System, e: Event)
    requires Calm(setup, s) && setup.config.allowed == FullAndIncremental && s.cache.jitter.None? && s.running.None?
    requires e.Begin? && e.draw <= setup.config.fullJitter && e.draw + setup.config.fullJitter >= 0
    requires s.clock <= e.now <= e.start && e.wall != 0
    ensures Enabled(setup, s, e)
    ensures var (u, due) := (Apply(setup, s, e), s.cache.lastFull + setup.config.fullInterval);
            && u.cache.jitter == (if e.now >= due - setup.config.fullJitter then Some(e.draw) else None)
            && u.running == Some(Running(if e.now >= due + e.draw then Full else Incremental, e.start, e.wall))
  {}

  /** A drawn jitter stays and decides. */
  lemma DrawnDecides(setup: Setup, s: System, e: Event)
    requires Calm(setup, s) && setup.config.allowed == FullAndIncremental && s.cache.jitter.Some?
    requires e.Begin? && Enabled(setup, s, e)
    ensures var (u, due) := (Apply(setup, s, e), s.cache.lastFull + setup.config.fullInterval);
            && u.cache.jitter == s.cache.jitter
            && u.running == Some(Running(if e.now >= due + s.cache.jitter.value then Full else Incremental, e.start, e.wall))
  {}

  /** Where something else decides nothing is drawn: the only allowed type, or a full one because it was forced. */
  lemma OtherwiseDecided(setup: Setup, s: System, e: Event)
    requires Settled(setup, s) && setup.config.updatesEnabled && e.Begin? && Enabled(setup, s, e)
    requires s.cache.forceFull || setup.config.allowed != FullAndIncremental
    ensures var u := Apply(setup, s, e);
            && u.cache.jitter == s.cache.jitter && u.cache.forceFull == s.cache.forceFull
            && u.running == Some(Running(if s.cache.forceFull || setup.config.allowed == OnlyFull then Full else Incremental,
                                         e.start, e.wall))
  {}

  /** Before the first success nothing is drawn either: the type is the dump's, or full without one. */
  lemma FirstDrawsNothing(setup: Setup, s: System, e: Event)
    requires setup.config.updatesEnabled && e.Begin? && Enabled(setup, s, e)
    requires s.cache.dumpFirst.Some? || s.cache.lastUpdate == 0
    ensures var u := Apply(setup, s, e);
            && u.cache.jitter == s.cache.jitter
            && u.running == Some(Running(if s.cache.dumpFirst.Some? then s.cache.dumpFirst.value else Full, e.start, e.wall))
  {}

  /** UpdateSyncDebug runs exactly if updates are enabled, with the type asked for where that is allowed. */
  lemma RequestRunsIff(setup: Setup, s: System, e: Event)
    requires e.Request? && s.running.None? && s.clock <= e.start && e.wall != 0
    ensures Enabled(setup, s, e)
    ensures var u := Apply(setup, s, e);
            && u.cache == s.cache && u.clock == e.start
            && (u.running.Some? <==> setup.config.updatesEnabled)
            && (u.running.Some? ==>
                  u.running.value.start == e.start && u.running.value.wall == e.wall
                  && (u.running.value.update.Full? <==> e.asked == Full || setup.fixed.allowed == OnlyFull))
  {}

  /** While an update runs no other begins, and the start is not over. */
  lemma OneUpdateAtATime(setup: Setup, s: System, e: Event)
    requires s.running.Some? && Enabled(setup, s, e)
    ensures e.Invalidate? || e.Finish? || e.Load?
  {}

  // ----- After a success -----

  /** Since the creation of the cache the jitter, if drawn, is within bounds, and no update runs without a time. */
  predicate InBounds(setup: Setup, s: System) {
    && (s.cache.jitter.Some? ==> InJitter(setup.config, s.cache.jitter.value))
    && (s.running.Some? ==> s.running.value.wall != 0)
  }

  lemma {:induction false} StaysInBounds(setup: Setup, s: System, run: seq<Event>)
    requires InBounds(setup, s) && Valid(setup, s, run)
    ensures InBounds(setup, After(setup, s, run))
    decreases |run|
  {
    if run != [] {
      StaysInBounds(setup, Apply(setup, s, run[0]), run[1..]);
    }
  }

  /** Once started, the first success settles the cache for good: the dump no longer decides. */
  lemma SuccessSettles(setup: Setup, s: System, run: seq<Event>)
    requires InBounds(setup, s) && s.phase.Started? && s.running.Some? && Valid(setup, s, [Finish(true)] + run)
    ensures Settled(setup, After(setup, s, [Finish(true)] + run))
  {
    var all := [Finish(true)] + run;
    assert all[0] == Finish(true) && all[1..] == run;
    StaysSettled(setup, Apply(setup, s, all[0]), run);
  }

  /** After a full success the next window has its own draw. */
  lemma FullSuccessForgetsDraw(setup: Setup, s: System)
    requires FullSuccess(s, Finish(true))
    ensures Apply(setup, s, Finish(true)).cache.jitter.None? && !Apply(setup, s, Finish(true)).cache.forceFull
  {}

  /** The times of the updates that succeeded, in order. */
  function Walls(setup: Setup, s: System, run: seq<Event>): seq<int>
    requires Valid(setup, s, run)
    decreases |run|
  {
    if run == [] then []
    else (if run[0] == Finish(true) then [s.running.value.wall] else []) + Walls(setup, Apply(setup, s, run[0]), run[1..])
  }

  /** The last update time is that of the last success, or of the dump. */
  lemma {:induction false} LastUpdateIs(setup: Setup, s: System, run: seq<Event>)
    requires Valid(setup, s, run) && !s.phase.Created?
    ensures var walls := Walls(setup, s, run);
            After(setup, s, run).cache.lastUpdate == if walls == [] then s.cache.lastUpdate else walls[|walls| - 1]
    decreases |run|
  {
    if run != [] {
      LastUpdateIs(setup, Apply(setup, s, run[0]), run[1..]);
    }
  }

  // ----- The alert -----

  /** Some update failed since the last success as the one that made the streak long enough, or later. */
  ghost predicate AlarmSince(setup: Setup, s: System, run: seq<Event>)
    requires Valid(setup, s, run)
    decreases |run|
  {
    run != [] &&
    (AlarmSince(setup, Apply(setup, s, run[0]), run[1..])
     || (run[0] == Finish(false) && 1 <= setup.config.alertTimes <= s.cache.failed + 1 && NoSuccess(run[1..])))
  }

  lemma NoSuccessCons(run: seq<Event>)
    requires run != []
    ensures NoSuccess(run) <==> run[0] != Finish(true) && NoSuccess(run[1..])
  {
    assert forall i :: 0 <= i < |run| - 1 ==> run[1..][i] == run[i + 1];
    assert forall i :: 1 <= i < |run| ==> run[i] == run[1..][i - 1];
  }

  /** The alert is up exactly if, since the last success, an update failed with at least alertTimes >= 1 in a row. */
  lemma {:induction false} AlertIff(setup: Setup, s: System, run: seq<Event>)
    requires Valid(setup, s, run)
    ensures After(setup, s, run).cache.alert <==> AlarmSince(setup, s, run) || (s.cache.alert && NoSuccess(run))
    decreases |run|
  {
    if run != [] {
      NoSuccessCons(run);
      AlertIff(setup, Apply(setup, s, run[0]), run[1..]);
    }
  }
}
