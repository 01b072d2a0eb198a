/**
 The lock-free handshake between InvalidateAsync and StartPeriodicUpdates over first_update_invalidation_:
 every interleaving of their atomic steps.
 */
module CacheHandshake {
  datatype Flag = No | Yes | Finished

  /** The compare-and-swap of InvalidateAsync. */
  function Marked(f: Flag): Flag {
    if f.No? then Yes else f
  }

  /**
   Invalidate: the compare-and-swap of call id; OwnDo: its DoInvalidateAsync, after it saw Finished.
   Reset, Exchange, StartDo: the steps of StartPeriodicUpdates; Reset comes only before a first update, and
   Abort is that update failing.
   */
  datatype Event = Invalidate(id: nat) | OwnDo(id: nat) | Reset | Abort | Exchange | StartDo

  datatype Start = Idle | Updating | Owing

  /**
   own: calls about to call DoInvalidateAsync themselves; waiting: calls that left the flag up for the start;
   promised: calls the running start has yet to serve.
   */
  datatype State = State(flag: Flag, start: Start, own: set<nat>, waiting: set<nat>, promised: set<nat>)

  function Init(): State {
    State(No, Idle, {}, {}, {})
  }

  predicate Enabled(s: State, e: Event) {
    match e
    case Invalidate(id) => id !in s.own + s.waiting + s.promised
    case OwnDo(id) => id in s.own
    case Reset => s.start.Idle?
    case Abort => s.start.Updating?
    case Exchange => !s.start.Owing?
    case StartDo => s.start.Owing?
  }

  function Apply(s: State, e: Event): State {
    match e
    case Invalidate(id) =>
      if s.flag.Finished? then s.(own := s.own + {id}) else s.(flag := Marked(s.flag), waiting := s.waiting + {id})
    case OwnDo(id) => s.(own := s.own - {id})
    case Reset => s.(flag := No, start := Updating, waiting := {})
    case Abort => s.(start := Idle)
    case Exchange =>
      s.(flag := Finished, start := if s.flag.Yes? then Owing else Idle, promised := s.promised + s.waiting, waiting := {})
    case StartDo => s.(start := Idle, promised := {})
  }

  predicate Valid(s: State, run: seq<Event>)
    decreases |run|
  {
    run == [] || (Enabled(s, run[0]) && Valid(Apply(s, run[0]), run[1..]))
  }

  function After(s: State, run: seq<Event>): State
    decreases |run|
  {
    if run == [] then s else After(Apply(s, run[0]), run[1..])
  }

  /** The flag is up exactly when a call relies on it; a start owes a call exactly when a call relies on that. */
  predicate Inv(s: State) {
    && (s.flag.Yes? <==> s.waiting != {})
    && (s.start.Owing? <==> s.promised != {})
  }

  lemma StepKeepsInv(s: State, e: Event)
    requires Inv(s) && Enabled(s, e)
    ensures Inv(Apply(s, e))
  {
    if e.Exchange? && s.flag.Yes? {
      var id :| id in s.waiting;
      assert id in Apply(s, e).promised;
    }
  }

  lemma {:induction false} RunKeepsInv(s: State, run: seq<Event>)
    requires Inv(s) && Valid(s, run)
    ensures Inv(After(s, run))
    decreases |run|
  {
    if run != [] {
      StepKeepsInv(s, run[0]);
      RunKeepsInv(Apply(s, run[0]), run[1..]);
    }
  }

  /** A call that saw the start finished is followed by its own DoInvalidateAsync. */
  lemma {:induction false} OwnCallFollowed(s: State, run: seq<Event>, id: nat)
    requires Valid(s, run) && id in s.own && id !in After(s, run).own
    ensures exists j :: 0 <= j < |run| && run[j] == OwnDo(id)
    decreases |run|
  {
    if run[0] == OwnDo(id) {
      assert run[0] == OwnDo(id);
    } else {
      OwnCallFollowed(Apply(s, run[0]), run[1..], id);
      var j :| 0 <= j < |run[1..]| && run[1..][j] == OwnDo(id);
      assert run[j + 1] == OwnDo(id);
    }
  }

  predicate Has(run: seq<Event>, e: Event) {
    exists j :: 0 <= j < |run| && run[j] == e
  }

  /** The exchange of a start, and later its DoInvalidateAsync. */
  predicate ServedByStart(run: seq<Event>) {
    exists j, k :: 0 <= j < k < |run| && run[j] == Exchange && run[k] == StartDo
  }

  lemma HasLater(run: seq<Event>, e: Event)
    requires run != [] && Has(run[1..], e)
    ensures Has(run, e)
  {
    var j :| 0 <= j < |run[1..]| && run[1..][j] == e;
    assert run[j + 1] == e;
  }

  lemma ServedLater(run: seq<Event>)
    requires run != [] && (ServedByStart(run[1..]) || (run[0] == Exchange && Has(run[1..], StartDo)))
    ensures ServedByStart(run)
  {
    if ServedByStart(run[1..]) {
      var j, k :| 0 <= j < k < |run[1..]| && run[1..][j] == Exchange && run[1..][k] == StartDo;
      assert run[j + 1] == Exchange && run[k + 1] == StartDo;
    } else {
      var k :| 0 <= k < |run[1..]| && run[1..][k] == StartDo;
      assert run[k + 1] == StartDo;
    }
  }

  lemma {:induction false} PromiseKept(s: State, run: seq<Event>, id: nat)
    requires Inv(s) && Valid(s, run) && id in s.promised && !After(s, run).start.Owing?
    ensures Has(run, StartDo)
    decreases |run|
  {
    if run[0] == StartDo {
      assert run[0] == StartDo;
    } else {
      StepKeepsInv(s, run[0]);
      PromiseKept(Apply(s, run[0]), run[1..], id);
      HasLater(run, StartDo);
    }
  }

  lemma {:induction false} WaitingFate(s: State, run: seq<Event>, id: nat)
    requires Inv(s) && Valid(s, run) && id in s.waiting && !After(s, run).start.Owing?
    ensures Has(run, Reset) || ServedByStart(run) || After(s, run).flag.Yes?
    decreases |run|
  {
    if run != [] {
      var next := Apply(s, run[0]);
      StepKeepsInv(s, run[0]);
      if run[0] == Reset {
        assert run[0] == Reset;
      } else if run[0] == Exchange {
        PromiseKept(next, run[1..], id);
        ServedLater(run);
      } else {
        WaitingFate(next, run[1..], id);
        if Has(run[1..], Reset) { HasLater(run, Reset); } else if ServedByStart(run[1..]) { ServedLater(run); }
      }
    }
  }

  /**
   Over every run, restarts and failed starts included: when no call and no start is in the middle of its steps,
   every call has been followed by a DoInvalidateAsync of its own, by the exchange and the DoInvalidateAsync of a
   start, or by a Reset, or the flag is still up for the next start.
   */
  lemma NoInvalidationLost(before: seq<Event>, id: nat, after: seq<Event>)
    requires Valid(Init(), before + [Invalidate(id)] + after)
    requires var s := After(Init(), before + [Invalidate(id)] + after); s.own == {} && !s.start.Owing?
    ensures || Has(after, OwnDo(id)) || ServedByStart(after) || Has(after, Reset)
            || After(Init(), before + [Invalidate(id)] + after).flag.Yes?
  {
    var call := [Invalidate(id)];
    AfterAppended(Init(), before + call, after);
    AfterAppended(Init(), before, call);
    var s := After(Init(), before);
    RunKeepsInv(Init(), before);
    OneStep(s, Invalidate(id));
    var t := Apply(s, Invalidate(id));
    if id in t.own {
      OwnCallFollowed(t, after, id);
    } else {
      WaitingFate(t, after, id);
    }
  }

  /** A call sees the flag once: it makes its own DoInvalidateAsync exactly if a start has finished, else leaves the flag up. */
  lemma CallSeesFlag(s: State, id: nat)
    requires Enabled(s, Invalidate(id))
    ensures var t := Apply(s, Invalidate(id));
            && (Enabled(t, OwnDo(id)) <==> s.flag.Finished?) && t.start == s.start
            && t.flag == if s.flag.Finished? then Finished else Yes
  {}

  /** A start may have no first update, or one that fails, and then be made again. */
  lemma StartsMayRepeat(s: State)
    requires s.start.Idle?
    ensures Enabled(s, Exchange)
    ensures Valid(s, [Reset, Abort, Reset, Exchange]) && After(s, [Reset, Abort, Reset, Exchange]).flag.Finished?
    ensures !After(s, [Reset, Abort, Reset, Exchange]).start.Updating?
  {
    var run := [Reset, Abort, Reset, Exchange];
    assert run[1..] == [Abort, Reset, Exchange] && run[1..][1..] == [Reset, Exchange] && run[1..][1..][1..] == [Exchange];
    assert run[1..][1..][1..][1..] == [];
    var s1 := Apply(s, Reset);
    var s2 := Apply(s1, Abort);
    var s3 := Apply(s2, Reset);
    assert Valid(s3, [Exchange]) && Valid(s2, [Reset, Exchange]) && Valid(s1, [Abort, Reset, Exchange]);
    assert After(s2, [Reset, Exchange]) == Apply(s3, Exchange);
  }

  // ----- The first start -----

  predicate OnlyCalls(run: seq<Event>) {
    forall i :: 0 <= i < |run| ==> run[i].Invalidate?
  }

  predicate NoStart(run: seq<Event>) {
    forall i :: 0 <= i < |run| ==> !run[i].Reset? && !run[i].Exchange?
  }

  function Calls(run: seq<Event>): nat {
    if run == [] then 0 else (if run[0].Invalidate? then 1 else 0) + Calls(run[1..])
  }

  function Dos(run: seq<Event>): nat {
    if run == [] then 0 else (if run[0].OwnDo? || run[0].StartDo? then 1 else 0) + Dos(run[1..])
  }

  function StartDos(run: seq<Event>): nat {
    if run == [] then 0 else (if run[0].StartDo? then 1 else 0) + StartDos(run[1..])
  }

  lemma {:induction false} AfterAppended(s: State, a: seq<Event>, b: seq<Event>)
    ensures After(s, a + b) == After(After(s, a), b)
    ensures Valid(s, a + b) <==> Valid(s, a) && Valid(After(s, a), b)
    decreases |a|
  {
    if a == [] {
      assert a + b == b;
    } else {
      assert (a + b)[0] == a[0] && (a + b)[1..] == a[1..] + b;
      AfterAppended(Apply(s, a[0]), a[1..], b);
    }
  }

  /** Calls before the flag is Finished only raise it. */
  lemma {:induction false} CallsRaiseFlag(s: State, run: seq<Event>)
    requires OnlyCalls(run) && Valid(s, run) && !s.flag.Finished? && Inv(s)
    ensures var t := After(s, run);
            && t.start == s.start && t.own == s.own && t.promised == s.promised
            && t.flag == (if run == [] then s.flag else Yes) && Inv(t)
    decreases |run|
  {
    if run != [] {
      StepKeepsInv(s, run[0]);
      CallsRaiseFlag(Apply(s, run[0]), run[1..]);
    }
  }

  function Owed(s: State): nat {
    |s.own| + if s.start.Owing? then 1 else 0
  }

  /** After the exchange: what is done plus what is owed stays equal to what was owed plus the calls. */
  lemma {:induction false} DosMatchCalls(s: State, run: seq<Event>)
    requires NoStart(run) && Valid(s, run) && s.flag.Finished? && Inv(s)
    ensures Dos(run) + Owed(After(s, run)) == Owed(s) + Calls(run)
    ensures StartDos(run) + (if After(s, run).start.Owing? then 1 else 0) == (if s.start.Owing? then 1 else 0)
    decreases |run|
  {
    if run != [] {
      var e := run[0];
      StepKeepsInv(s, e);
      OwedStep(s, e);
      DosMatchCalls(Apply(s, e), run[1..]);
    }
  }

  lemma OwedStep(s: State, e: Event)
    requires Enabled(s, e) && !e.Reset? && !e.Exchange? && s.flag.Finished?
    ensures Dos([e]) + Owed(Apply(s, e)) == Owed(s) + Calls([e]) && Apply(s, e).flag.Finished?
  {
    var none: seq<Event> := [e][1..];
    assert none == [];
    if e.Invalidate? {
      assert e.id !in s.own;
    }
  }

  /**
   A start that runs a first update, with calls at any point. Once it and all calls are done, the calls before
   the reset have caused nothing; all calls between reset and exchange share exactly one DoInvalidateAsync, made
   by the start; and each call after the exchange adds exactly one of its own.
   */
  lemma FirstStart(before: seq<Event>, between: seq<Event>, after: seq<Event>)
    requires OnlyCalls(before) && OnlyCalls(between) && NoStart(after)
    requires Valid(Init(), before + [Reset] + between + [Exchange] + after)
    requires Owed(After(Init(), before + [Reset] + between + [Exchange] + after)) == 0
    ensures StartDos(after) == if between == [] then 0 else 1
    ensures Dos(after) == StartDos(after) + Calls(after)
  {
    var s1 := After(Init(), before);
    AfterAppended(Init(), before + [Reset] + between + [Exchange], after);
    AfterAppended(Init(), before + [Reset] + between, [Exchange]);
    AfterAppended(Init(), before + [Reset], between);
    AfterAppended(Init(), before, [Reset]);
    CallsRaiseFlag(Init(), before);
    OneStep(s1, Reset);
    var s2 := Apply(s1, Reset);
    CallsRaiseFlag(s2, between);
    var s3 := After(s2, between);
    OneStep(s3, Exchange);
    DosMatchCalls(Apply(s3, Exchange), after);
  }

  lemma OneStep(s: State, e: Event)
    requires Inv(s) && Valid(s, [e])
    ensures After(s, [e]) == Apply(s, e) && Enabled(s, e) && Inv(Apply(s, e))
  {
    assert [e][1..] == [];
    StepKeepsInv(s, e);
  }
}
