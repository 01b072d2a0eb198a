/** Which passes a service makes over its whole life, and when it comes to serve. */
module LifecyclePhases {
  import opened Digraph
  import opened Lifecycle
  import opened LifecycleInvariant

  // ----- Events of a run -----

  /** The passes started, in order. */
  ghost function Passes(s: State, steps: seq<Step>): seq<Pass>
    decreases |steps|
  {
    if steps == [] || !Enabled(s, steps[0]) then []
    else (if steps[0] == MainS(StartPass) then [s.main.pass] else []) + Passes(Apply(s, steps[0]), steps[1..])
  }

  /** The load is given up before it succeeds. */
  predicate LoadGivenUp(steps: seq<Step>) {
    steps != [] && steps[0] != MainS(LoadSucceeded) && (steps[0] == MainS(LoadFailed) || LoadGivenUp(steps[1..]))
  }

  /** An OnAllComponentsLoaded throws before the first pass is over. */
  ghost predicate HandlerFails(s: State, steps: seq<Step>)
    decreases |steps|
  {
    steps != [] && Enabled(s, steps[0]) && steps[0] != MainS(PassOver)
    && ((s.main == Passing(Loaded) && steps[0].TaskS? && steps[0].task == HandlerThrows)
        || HandlerFails(Apply(s, steps[0]), steps[1..]))
  }

  /** The shutdown asked for is a graceful one. */
  predicate GracefulAsked(steps: seq<Step>) {
    steps != [] && (steps[0] == MainS(Shutdown(true)) || (steps[0] != MainS(Shutdown(false)) && GracefulAsked(steps[1..])))
  }

  // ----- The passes of a whole life -----

  function Down(steps: seq<Step>): seq<Pass> {
    (if GracefulAsked(steps) then [Graceful] else []) + [Stopping, Clearing]
  }

  /** What is still to come from each phase. */
  ghost function ToCome(s: State, steps: seq<Step>): seq<Pass> {
    match s.main
    case Loading =>
      if LoadGivenUp(steps) then [Stopping, Clearing]
      else [Loaded] + if HandlerFails(s, steps) then [Stopping, Clearing] else Down(steps)
    case Preparing(p, _) =>
      [p] + (match p
             case Loaded => if HandlerFails(s, steps) then [Stopping, Clearing] else Down(steps)
             case Graceful => [Stopping, Clearing]
             case Stopping => [Clearing]
             case Clearing => [])
    case Passing(p) =>
      (match p
       case Loaded => if SomeFailed(s) || HandlerFails(s, steps) then [Stopping, Clearing] else Down(steps)
       case Graceful => [Stopping, Clearing]
       case Stopping => [Clearing]
       case Clearing => [])
    case Serving => Down(steps)
    case Cleared => []
    case _ => [Stopping, Clearing]
  }

  // ----- What the steps leave alone -----

  lemma SameFailures(s: State, t: State)
    requires t.comps.Keys == s.comps.Keys && forall c :: c in s.comps ==> t.comps[c].failed == s.comps[c].failed
    ensures SomeFailed(t) <==> SomeFailed(s)
  {
    if c :| c in s.comps && s.comps[c].failed { assert t.comps[c].failed; }
  }

  /** A constructor step, at one component. */
  lemma BuildAt(s: State, c: Name, step: BuildStep, x: Name)
    requires BuildEnabled(s, c, step) && x in s.comps
    ensures var t := BuildApply(s, c, step);
            && x in t.comps && t.comps[x].failed == s.comps[x].failed && t.comps[x].task == s.comps[x].task
            && (s.comps[x].build == Failed ==> t.comps[x].build == Failed)
  {
    match step
    case StartConstructor =>
    case Find(_) =>
    case Peek =>
    case Wake =>
    case ConstructorThrows =>
    case SetComponent =>
    case SelfExchange =>
    case SelfCall =>
  }

  lemma BuildFrame(s: State, c: Name, step: BuildStep)
    requires BuildEnabled(s, c, step)
    ensures var t := BuildApply(s, c, step);
            && t.main == s.main && t.comps.Keys == s.comps.Keys && t.loadCancelled == s.loadCancelled
            && (forall x :: x in s.comps ==> t.comps[x].failed == s.comps[x].failed && t.comps[x].task == s.comps[x].task)
            && (forall x :: Is(s, x, Failed) ==> Is(t, x, Failed))
  {
    forall x | x in s.comps
      ensures var t := BuildApply(s, c, step);
              && x in t.comps && t.comps[x].failed == s.comps[x].failed && t.comps[x].task == s.comps[x].task
              && (s.comps[x].build == Failed ==> t.comps[x].build == Failed)
    {
      BuildAt(s, c, step, x);
    }
  }

  /** A step of the manager, at one component. */
  predicate MainLeaves(step: MainStep, k: Component, k': Component) {
    && k'.build == k.build && k'.alive == k.alive
    && k'.failed == (step != StartPass && k.failed) && k'.task == if step == StartPass then Idle else k.task
  }

  lemma MainAt(s: State, step: MainStep, x: Name)
    requires MainEnabled(s, step) && x in s.comps
    ensures var t := MainApply(s, step); x in t.comps && MainLeaves(step, s.comps[x], t.comps[x])
  {
    match step
    case SetFlag(_) =>
    case MainExchange(_) =>
    case MainCall =>
    case ResetFlag(_) =>
    case StartPass =>
    case _ =>
  }

  lemma MainKeys(s: State, step: MainStep)
    requires MainEnabled(s, step)
    ensures MainApply(s, step).comps.Keys == s.comps.Keys
  {}

  lemma MainFrame(s: State, step: MainStep)
    requires MainEnabled(s, step)
    ensures var t := MainApply(s, step);
            t.comps.Keys == s.comps.Keys && forall x :: x in s.comps ==> MainLeaves(step, s.comps[x], t.comps[x])
  {
    MainKeys(s, step);
    forall x | x in s.comps ensures MainLeaves(step, s.comps[x], MainApply(s, step).comps[x]) {
      MainAt(s, step, x);
    }
  }

  lemma MainFailures(s: State, step: MainStep)
    requires MainEnabled(s, step)
    ensures SomeFailed(MainApply(s, step)) <==> step != StartPass && SomeFailed(s)
  {
    MainFrame(s, step);
    if step != StartPass {
      SameFailures(s, MainApply(s, step));
    }
  }

  lemma TaskFailures(s: State, c: Name, step: TaskStep)
    requires TaskEnabled(s, c, step) && s.main == Passing(Loaded)
    ensures SomeFailed(TaskApply(s, c, step)) <==> SomeFailed(s) || step == HandlerThrows
  {
    var t := TaskApply(s, c, step);
    if step == HandlerThrows {
      assert t.comps[c].failed;
    } else {
      SameFailures(s, t);
    }
  }

  lemma BuildToCome(s: State, steps: seq<Step>)
    requires steps != [] && steps[0].BuildS? && Enabled(s, steps[0])
    ensures ToCome(s, steps) == ToCome(Apply(s, steps[0]), steps[1..])
  {
    BuildFrame(s, steps[0].c, steps[0].build);
    SameFailures(s, Apply(s, steps[0]));
  }

  lemma TaskToCome(s: State, steps: seq<Step>)
    requires steps != [] && steps[0].TaskS? && Enabled(s, steps[0])
    ensures ToCome(s, steps) == ToCome(Apply(s, steps[0]), steps[1..])
  {
    if s.main.pass == Loaded {
      TaskFailures(s, steps[0].c, steps[0].task);
    }
  }

  /** The manager's steps up to the end of the load. */
  lemma LoadToCome(s: State, steps: seq<Step>)
    requires steps != [] && steps[0].MainS? && Enabled(s, steps[0]) && LoadPhase(s)
    ensures steps[0] != MainS(StartPass) && ToCome(s, steps) == ToCome(Apply(s, steps[0]), steps[1..])
  {
    match steps[0].main
    case LoadSucceeded =>
    case LoadFailed =>
    case _ =>
  }

  lemma PassOverToCome(s: State, steps: seq<Step>)
    requires steps != [] && steps[0] == MainS(PassOver) && Enabled(s, steps[0])
    ensures ToCome(s, steps) == ToCome(Apply(s, steps[0]), steps[1..])
  {
    match s.main.pass
    case Loaded =>
    case Graceful =>
    case Stopping =>
    case Clearing =>
  }

  /** And after it. */
  lemma LateToCome(s: State, steps: seq<Step>)
    requires steps != [] && steps[0].MainS? && Enabled(s, steps[0]) && !LoadPhase(s)
    ensures ToCome(s, steps)
            == (if steps[0] == MainS(StartPass) then [s.main.pass] else []) + ToCome(Apply(s, steps[0]), steps[1..])
  {
    MainFailures(s, steps[0].main);
    match steps[0].main
    case ResetFlag(_) =>
    case StartPass =>
    case PassOver => PassOverToCome(s, steps);
    case Shutdown(_) =>
  }

  lemma {:induction false} PassesToCome(s: State, steps: seq<Step>, t: State)
    requires Run(s, steps, t) && t.main.Cleared?
    ensures Passes(s, steps) == ToCome(s, steps)
    decreases |steps|
  {
    if steps != [] {
      PassesToCome(Apply(s, steps[0]), steps[1..], t);
      match steps[0]
      case BuildS(_, _) => BuildToCome(s, steps);
      case MainS(_) => if LoadPhase(s) { LoadToCome(s, steps); } else { LateToCome(s, steps); }
      case TaskS(_, _) => TaskToCome(s, steps);
    }
  }

  /**
   Over every whole life: a load that is given up leads straight to the two passes that stop and clear; otherwise
   the loaded pass comes first, a failed handler leads from it to those two, and only without one does the service
   go on to a shutdown, with the graceful pass in front exactly if asked for.
   */
  lemma PassSequence(names: set<Name>, steps: seq<Step>, t: State)
    requires Run(Init(names), steps, t) && t.main.Cleared?
    ensures Passes(Init(names), steps)
            == if LoadGivenUp(steps) then [Stopping, Clearing]
               else if HandlerFails(Init(names), steps) || !GracefulAsked(steps) then [Loaded, Stopping, Clearing]
               else [Loaded, Graceful, Stopping, Clearing]
  {
    PassesToCome(Init(names), steps, t);
  }

  // ----- Giving up -----

  /** Once the load was given up some constructor has failed. */
  ghost predicate GivenUpHasReason(s: State) {
    s.main.CancelFlags? || s.main.CancelCalls? || s.main.CancelCall? || s.main.Joining? || s.loadCancelled ==>
      exists c :: Is(s, c, Failed)
  }

  lemma FailedStaysFailed(s: State, step: Step, c: Name)
    requires Enabled(s, step) && Is(s, c, Failed)
    ensures Is(Apply(s, step), c, Failed)
  {
    match step
    case BuildS(x, b) => BuildFrame(s, x, b);
    case MainS(m) => MainFrame(s, m);
    case TaskS(x, t) => TaskStepOthers(s, x, t, c);
  }

  lemma ReasonKept(s: State, step: Step)
    requires GivenUpHasReason(s) && Enabled(s, step)
    ensures GivenUpHasReason(Apply(s, step))
  {
    if c :| Is(s, c, Failed) {
      FailedStaysFailed(s, step, c);
    }
  }

  lemma {:induction false} ReasonOverRun(s: State, steps: seq<Step>, t: State)
    requires GivenUpHasReason(s) && Run(s, steps, t)
    ensures GivenUpHasReason(t)
    decreases |steps|
  {
    if steps != [] {
      ReasonKept(s, steps[0]);
      ReasonOverRun(Apply(s, steps[0]), steps[1..], t);
    }
  }

  /** In every reachable state after the load: it was cancelled exactly if some constructor failed. */
  lemma CancelledIffConstructorFailed(names: set<Name>, s: State)
    requires Reachable(names, s) && !LoadPhase(s)
    ensures s.loadCancelled <==> exists c :: Is(s, c, Failed)
  {
    var steps :| Run(Init(names), steps, s);
    ReasonOverRun(Init(names), steps, s);
    ReachableInv(names, s);
    if c :| Is(s, c, Failed) {
      assert JoinedInv(s, c);
    }
  }

  // ----- Serving -----

  predicate ServesCleanly(s: State) {
    s.main.Serving? ==> !SomeFailed(s)
  }

  lemma ServesCleanlyStep(s: State, step: Step)
    requires ServesCleanly(s) && Enabled(s, step)
    ensures ServesCleanly(Apply(s, step))
  {
    match step
    case BuildS(c, b) => BuildFrame(s, c, b); SameFailures(s, Apply(s, step));
    case MainS(m) => MainFailures(s, m);
    case TaskS(c, t) => TaskStepFrame(s, c, t);
  }

  lemma {:induction false} ServesCleanlyOverRun(s: State, steps: seq<Step>, t: State)
    requires ServesCleanly(s) && Run(s, steps, t)
    ensures ServesCleanly(t)
    decreases |steps|
  {
    if steps != [] {
      ServesCleanlyStep(s, steps[0]);
      ServesCleanlyOverRun(Apply(s, steps[0]), steps[1..], t);
    }
  }

  /** A service that serves has no component whose OnAllComponentsLoaded threw. */
  lemma ServingMeansNoFailure(names: set<Name>, s: State, c: Name)
    requires Reachable(names, s) && s.main.Serving? && c in s.comps
    ensures !s.comps[c].failed && s.comps[c].stage == Running && s.comps[c].component
  {
    var steps :| Run(Init(names), steps, s);
    ServesCleanlyOverRun(Init(names), steps, s);
    ReachableInv(names, s);
    assert StageInv(s, c) && JoinedInv(s, c) && ObjectInv(s, c);
  }

  /** The service will not serve any more: a handler failed, or it is on its way down. */
  predicate Doomed(s: State) {
    || (s.main == Passing(Loaded) && SomeFailed(s))
    || ((s.main.Preparing? || s.main.Passing?) && s.main.pass in {Graceful, Stopping, Clearing})
    || s.main.Cleared?
  }

  lemma DoomedStep(s: State, step: Step)
    requires Doomed(s) && Enabled(s, step)
    ensures Doomed(Apply(s, step))
  {
    match step
    case BuildS(c, b) => BuildFrame(s, c, b); SameFailures(s, Apply(s, step));
    case MainS(m) => MainFailures(s, m);
    case TaskS(c, t) => TaskStepFrame(s, c, t); if s.main == Passing(Loaded) { TaskFailures(s, c, t); }
  }

  /** From a loaded pass with a failed handler, and from any later phase, no run reaches service. */
  lemma {:induction false} FailedNeverServes(s: State, steps: seq<Step>, t: State)
    requires Doomed(s) && Run(s, steps, t)
    ensures Doomed(t) && !t.main.Serving?
    decreases |steps|
  {
    if steps != [] {
      DoomedStep(s, steps[0]);
      FailedNeverServes(Apply(s, steps[0]), steps[1..], t);
    }
  }

  /** A loaded pass that ended without a failed handler is followed by service and nothing else. */
  lemma CleanPassServes(names: set<Name>, s: State, step: Step)
    requires Reachable(names, s) && s.main == Passing(Loaded) && Enabled(s, step)
    requires forall c :: c in s.comps ==> s.comps[c].task == Finished && !s.comps[c].failed
    ensures Apply(s, step).main.Serving?
  {
    ReachableInv(names, s);
    OnlyPassOver(s, step);
  }

  lemma OnlyPassOver(s: State, step: Step)
    requires Inv(s) && s.main.Passing? && Enabled(s, step) && AllFinished(s)
    ensures step == MainS(PassOver)
  {
    match step
    case BuildS(c, b) => BuildStepMeansLoading(s, c, b);
    case MainS(_) =>
    case TaskS(_, _) =>
  }

  // ----- Callbacks -----

  /** A constructor may throw at any point between its lookups, and any handler but the destruction may. */
  lemma CallbacksMayThrow(s: State, c: Name)
    requires c in s.comps
    ensures s.comps[c].build == Constructing ==>
              Enabled(s, BuildS(c, ConstructorThrows)) && Is(Apply(s, BuildS(c, ConstructorThrows)), c, Failed)
    ensures s.main.Passing? && s.comps[c].task == Handling ==> (Enabled(s, TaskS(c, HandlerThrows)) <==> s.main.pass != Clearing)
  {}

  predicate DestroysObjects(s: State) {
    forall c :: c in s.comps && s.comps[c].task == Destroying ==> s.comps[c].alive
  }

  lemma TaskDestroys(s: State, c: Name, step: TaskStep)
    requires LateOk(s) && DestroysObjects(s) && TaskEnabled(s, c, step)
    ensures DestroysObjects(TaskApply(s, c, step))
  {
    var t := TaskApply(s, c, step);
    forall x | x in t.comps ensures t.comps[x].task == Destroying ==> t.comps[x].alive {
      TaskStepOthers(s, c, step, x);
      assert ObjectInv(s, x);
    }
  }

  lemma DestroysObjectsStep(s: State, step: Step)
    requires Inv(s) && DestroysObjects(s) && Enabled(s, step)
    ensures DestroysObjects(Apply(s, step))
  {
    match step
    case BuildS(c, b) =>
      BuildStepMeansLoading(s, c, b);
      BuildFrame(s, c, b);
      forall x | x in s.comps ensures s.comps[x].task == Idle { assert LoadInv(s, x); }
    case MainS(m) => MainFrame(s, m);
    case TaskS(c, t) => PassingIsLate(s); TaskDestroys(s, c, t);
  }

  lemma PassingIsLate(s: State)
    requires Inv(s) && s.main.Passing?
    ensures LateOk(s)
  {}

  lemma {:induction false} DestroysObjectsOverRun(s: State, steps: seq<Step>, t: State)
    requires Inv(s) && DestroysObjects(s) && Run(s, steps, t)
    ensures DestroysObjects(t)
    decreases |steps|
  {
    if steps != [] {
      DestroysObjectsStep(s, steps[0]);
      StepKeepsInv(s, steps[0]);
      DestroysObjectsOverRun(Apply(s, steps[0]), steps[1..], t);
    }
  }

  /** A destructor runs only on an object that was built and still exists, and in the clearing pass. */
  lemma DestructorHasObject(names: set<Name>, s: State, c: Name)
    requires Reachable(names, s) && c in s.comps && s.comps[c].task == Destroying && s.main.Passing?
    ensures s.comps[c].alive && s.comps[c].build == Built && s.main.pass == Clearing
  {
    var steps :| Run(Init(names), steps, s);
    InitInv(names);
    DestroysObjectsOverRun(Init(names), steps, s);
    ReachableInv(names, s);
    assert ObjectInv(s, c) && TaskInv(s, s.main.pass, c);
  }
}
