/** The lifecycle never gets stuck, and everything after the load ends. */
module LifecycleProgress {
  import opened Digraph
  import opened Lifecycle
  import opened LifecycleInvariant

  // ----- No deadlock -----

  /** Some constructor task, or the manager cancelling the load, can move as long as a constructor is unfinished. */
  lemma ConstructorProgress(s: State) returns (step: Step)
    requires Acyclic(s.itDependsOn) && ClosedUnder(s.itDependsOn, s.comps.Keys)
    requires LoadPhase(s) && LoadOk(s) && EdgesOk(s) && !AllJoined(s)
    ensures Enabled(s, step) && !(step.BuildS? && step.build.Find?)
  {
    var unfinished := set c | c in s.comps && s.comps[c].build !in {Built, Failed};
    var x :| x in s.comps && s.comps[x].build !in {Built, Failed};
    assert x in unfinished;
    var w := MinimalElement(s.itDependsOn, unfinished);
    assert LoadInv(s, w) && EdgesInv(s, w);
    match s.comps[w].build
    case NotStarted => step := BuildS(w, StartConstructor);
    case Constructing => step := BuildS(w, SetComponent);
    case Looking(d) => step := BuildS(w, Peek);
    case Blocked(d) => step := BlockedProgress(s, w, d);
    case SelfCancelling => step := BuildS(w, SelfExchange);
    case SelfCalling => step := BuildS(w, SelfCall);
  }

  /** Waiting for a finished dependency: it is there, or its failure is being turned into a wakeup. */
  lemma BlockedProgress(s: State, w: Name, d: Name) returns (step: Step)
    requires LoadPhase(s) && Is(s, w, Blocked(d))
    requires d in s.comps && s.comps[d].build in {Built, Failed} && LoadInv(s, d)
    ensures Enabled(s, step) && !(step.BuildS? && step.build.Find?)
  {
    if s.comps[d].component || s.comps[d].cancelled {
      step := BuildS(w, Wake);
    } else if s.main.Loading? {
      assert Is(s, d, Failed);
      step := MainS(LoadFailed);
    } else {
      step := MainS(SetFlag(d));
    }
  }

  lemma ManagerProgress(s: State) returns (step: Step)
    requires MainInv(s) && AllJoined(s) && !s.main.Passing? && !s.main.Cleared?
    ensures Enabled(s, step) && step.MainS?
  {
    match s.main
    case Loading =>
      if AllBuilt(s) {
        step := MainS(LoadSucceeded);
      } else {
        var c :| c in s.comps && s.comps[c].build != Built;
        assert Is(s, c, Failed);
        step := MainS(LoadFailed);
      }
    case CancelFlags(todo) =>
      if todo == {} { step := MainS(BeginCalls); } else { var c :| c in todo; step := MainS(SetFlag(c)); }
    case CancelCalls(todo) =>
      if todo == {} { step := MainS(BeginJoin); } else { var c :| c in todo; step := MainS(MainExchange(c)); }
    case CancelCall(_, _) => step := MainS(MainCall);
    case Joining => step := MainS(Joined);
    case Preparing(_, todo) =>
      if todo == {} { step := MainS(StartPass); } else { var c :| c in todo; step := MainS(ResetFlag(c)); }
    case Serving => step := MainS(Shutdown(false));
  }

  /** A task that does not wait for an unfinished component can move. */
  lemma TaskProgress(s: State, w: Name) returns (step: TaskStep)
    requires s.main.Passing? && w in s.comps && s.comps[w].task != Finished && TaskInv(s, s.main.pass, w)
    requires ClosedUnder(PassGraph(s, s.main.pass), s.comps.Keys)
    requires forall d :: d in Neighbours(s, s.main.pass, w) && d in s.comps ==> s.comps[d].task == Finished && StageInv(s, d)
    ensures TaskEnabled(s, w, step)
  {
    match s.comps[w].task
    case Idle => step := StartTask;
    case Awaiting(todo) =>
      if todo == {} {
        step := StartHandler;
      } else {
        var d :| d in todo;
        assert d in Neighbours(s, s.main.pass, w);
        step := AwaitOne(d);
      }
    case Handling => step := if s.main.pass == Clearing && s.comps[w].component then Extract else HandlerReturns;
    case Destroying => step := Destroy;
    case Thrown => step := ExchangeCancelled;
    case Flagging(todo) =>
      if todo == {} { step := FlagsDone; } else { var d :| d in todo; step := FlagOther(d); }
    case Returning => step := SetStage;
  }

  /** In a pass the least unfinished component along the waiting direction can move. */
  lemma PassProgress(s: State) returns (step: Step)
    requires s.main.Passing? && PassInv(s) && LateOk(s)
    requires Acyclic(PassGraph(s, s.main.pass)) && ClosedUnder(PassGraph(s, s.main.pass), s.comps.Keys)
    ensures Enabled(s, step) && (step.TaskS? <==> !AllFinished(s))
  {
    var p := s.main.pass;
    var unfinished := set c | c in s.comps && s.comps[c].task != Finished;
    if unfinished == {} {
      forall c | c in s.comps ensures s.comps[c].task == Finished {
        assert c !in unfinished;
      }
      return MainS(PassOver);
    }
    var w := MinimalElement(PassGraph(s, p), unfinished);
    forall d | d in Neighbours(s, p, w) && d in s.comps ensures s.comps[d].task == Finished && StageInv(s, d) {
      assert d !in unfinished;
    }
    var task := TaskProgress(s, w);
    step := TaskS(w, task);
  }

  lemma PassGraphAcyclic(s: State, p: Pass)
    requires GraphInv(s)
    ensures Acyclic(PassGraph(s, p)) && ClosedUnder(PassGraph(s, p), s.comps.Keys)
  {
    AcyclicInverse(s.itDependsOn, s.dependsOnIt);
    if p == Graceful {
      forall a ensures !Leads(PassGraph(s, p), a, a) {
        assert Succ(PassGraph(s, p), a) == {};
      }
    }
    forall a, b | a in s.comps && b in Succ(s.dependsOnIt, a) ensures b in s.comps {
      assert a in Succ(s.itDependsOn, b);
    }
  }

  /** Until everything is cleared, some step other than one more FindComponent is enabled. */
  lemma NoDeadlock(names: set<Name>, s: State)
    requires Reachable(names, s) && !s.main.Cleared?
    ensures exists step :: Enabled(s, step) && !(step.BuildS? && step.build.Find?)
  {
    ReachableInv(names, s);
    var step := Progress(s);
  }

  lemma Progress(s: State) returns (step: Step)
    requires Inv(s) && !s.main.Cleared?
    ensures Enabled(s, step) && !(step.BuildS? && step.build.Find?)
  {
    if s.main.Passing? {
      PassGraphAcyclic(s, s.main.pass);
      step := PassProgress(s);
      LateMeansJoined(s);
    } else if LoadPhase(s) && !AllJoined(s) {
      step := ConstructorProgress(s);
    } else {
      if !LoadPhase(s) { LateMeansJoined(s); }
      step := ManagerProgress(s);
    }
  }

  lemma LateMeansJoined(s: State)
    requires !LoadPhase(s) && LateOk(s)
    ensures AllJoined(s)
  {
    forall c | c in s.comps ensures s.comps[c].build in {Built, Failed} {
      assert JoinedInv(s, c);
    }
  }

  // ----- Everything after the load ends -----

  /** How many phases of the shutdown are still to come. */
  function PhasesLeft(m: Main): nat {
    match m
    case Preparing(p, _) => (match p case Loaded => 9 case Graceful => 6 case Stopping => 4 case Clearing => 2)
    case Passing(p) => (match p case Loaded => 8 case Graceful => 5 case Stopping => 3 case Clearing => 1)
    case Serving => 7
    case _ => 0
  }

  /** An upper bound of the steps a stage switching task still takes among n components. */
  function TaskWork(t: Task, n: nat): nat {
    match t
    case Idle => 2 * n + 6
    case Awaiting(todo) => n + 5 + |todo|
    case Handling => n + 4
    case Thrown => n + 3
    case Flagging(todo) => 2 + |todo|
    case Destroying => 2
    case Returning => 1
    case Finished => 0
  }

  function TaskMeasure(n: nat): Component -> nat {
    (k: Component) => TaskWork(k.task, n)
  }

  /** The sum of a measure over some of the components. */
  ghost function TotalWork(work: Component -> nat, comps: map<Name, Component>, among: set<Name>): nat
    requires among <= comps.Keys
  {
    if among == {} then 0
    else
      var c :| c in among;
      work(comps[c]) + TotalWork(work, comps, among - {c})
  }

  lemma {:induction false} TotalWorkSplit(work: Component -> nat, comps: map<Name, Component>, among: set<Name>, c: Name)
    requires among <= comps.Keys && c in among
    ensures TotalWork(work, comps, among) == work(comps[c]) + TotalWork(work, comps, among - {c})
    decreases among
  {
    var d :| d in among && TotalWork(work, comps, among) == work(comps[d]) + TotalWork(work, comps, among - {d});
    if d != c {
      TotalWorkSplit(work, comps, among - {d}, c);
      TotalWorkSplit(work, comps, among - {c}, d);
      assert among - {d} - {c} == among - {c} - {d};
    }
  }

  lemma {:induction false} TotalWorkSame(work: Component -> nat, comps: map<Name, Component>, comps': map<Name, Component>,
                                         among: set<Name>)
    requires among <= comps.Keys && among <= comps'.Keys
    requires forall c :: c in among ==> work(comps'[c]) == work(comps[c])
    ensures TotalWork(work, comps', among) == TotalWork(work, comps, among)
    decreases among
  {
    if among != {} {
      var c :| c in among;
      TotalWorkSplit(work, comps, among, c);
      TotalWorkSplit(work, comps', among, c);
      TotalWorkSame(work, comps, comps', among - {c});
    }
  }

  lemma {:induction false} TotalWorkBound(work: Component -> nat, comps: map<Name, Component>, among: set<Name>, bound: nat)
    requires among <= comps.Keys
    requires forall c :: c in among ==> work(comps[c]) <= bound
    ensures TotalWork(work, comps, among) <= Times(|among|, bound)
    decreases among
  {
    if among != {} {
      var c :| c in among;
      TotalWorkSplit(work, comps, among, c);
      TotalWorkBound(work, comps, among - {c}, bound);
      assert |among| == |among - {c}| + 1;
    }
  }

  /** A change of one component changes the sum by its own change. */
  lemma TotalWorkChange(work: Component -> nat, comps: map<Name, Component>, comps': map<Name, Component>, c: Name)
    requires comps'.Keys == comps.Keys && c in comps
    requires forall x :: x in comps && x != c ==> work(comps'[x]) == work(comps[x])
    ensures TotalWork(work, comps', comps.Keys) + work(comps[c]) == TotalWork(work, comps, comps.Keys) + work(comps'[c])
  {
    TotalWorkSplit(work, comps, comps.Keys, c);
    TotalWorkSplit(work, comps', comps.Keys, c);
    TotalWorkSame(work, comps, comps', comps.Keys - {c});
  }

  /** The work left in the current phase, and its bound. */
  ghost function PhaseWork(s: State): nat {
    match s.main
    case Preparing(_, todo) => |todo|
    case Passing(_) => TotalWork(TaskMeasure(|s.comps.Keys|), s.comps, s.comps.Keys)
    case _ => 0
  }

  function PhaseBound(s: State): nat {
    Times(|s.comps.Keys|, 2 * |s.comps.Keys| + 6) + 1
  }

  /** k * b as repeated addition. */
  function Times(k: nat, b: nat): nat {
    if k == 0 then 0 else b + Times(k - 1, b)
  }

  ghost function WorkLeft(s: State): nat {
    Times(PhasesLeft(s.main), PhaseBound(s)) + PhaseWork(s)
  }

  lemma PhaseWorkBounded(s: State)
    requires Inv(s) && !LoadPhase(s)
    ensures PhaseWork(s) < PhaseBound(s)
  {
    if s.main.Preparing? {
      SubsetSize(s.main.todo, s.comps.Keys);
    } else if s.main.Passing? {
      PassGraphAcyclic(s, s.main.pass);
      forall c | c in s.comps ensures TaskShape(s, s.main.pass, c) {
        assert TaskInv(s, s.main.pass, c);
      }
      PassWorkBounded(s);
    }
  }

  lemma PassWorkBounded(s: State)
    requires s.main.Passing? && ClosedUnder(PassGraph(s, s.main.pass), s.comps.Keys)
    requires forall c :: c in s.comps ==> TaskShape(s, s.main.pass, c)
    ensures PhaseWork(s) < PhaseBound(s)
  {
    var n := |s.comps.Keys|;
    forall c | c in s.comps.Keys ensures TaskWork(s.comps[c].task, n) <= 2 * n + 6 {
      TaskWorkBounded(s, c);
    }
    TotalWorkBound(TaskMeasure(n), s.comps, s.comps.Keys, 2 * n + 6);
  }

  lemma TaskWorkBounded(s: State, c: Name)
    requires s.main.Passing? && c in s.comps && TaskShape(s, s.main.pass, c)
    requires ClosedUnder(PassGraph(s, s.main.pass), s.comps.Keys)
    ensures TaskWork(s.comps[c].task, |s.comps.Keys|) <= 2 * |s.comps.Keys| + 6
  {
    var t := s.comps[c].task;
    if t.Awaiting? || t.Flagging? {
      SubsetSize(t.todo, s.comps.Keys);
    }
  }

  lemma {:induction false} SubsetSize<T>(a: set<T>, b: set<T>)
    requires a <= b
    ensures |a| <= |b|
  {
    if a != {} {
      var x :| x in a;
      SubsetSize(a - {x}, b - {x});
    }
  }

  lemma RemoveSize<T>(a: set<T>, x: T)
    requires x in a
    ensures |a - {x}| == |a| - 1
  {}

  lemma HandlerStepWorks(s: State, c: Name, step: TaskStep, n: nat)
    requires TaskEnabled(s, c, step) && s.comps[c].task in {Handling, Destroying, Returning}
    ensures TaskWork(TaskNext(s, c, step).task, n) < TaskWork(s.comps[c].task, n)
  {
    var next := TaskNext(s, c, step).task;
    assert s.comps[c].task == Handling ==> next in {Thrown, Destroying, Returning};
  }

  lemma WaitStepWorks(s: State, c: Name, step: TaskStep, n: nat)
    requires TaskEnabled(s, c, step) && (step.StartTask? || step.AwaitOne? || step.StartHandler?)
    requires |Neighbours(s, s.main.pass, c)| <= n
    ensures TaskWork(TaskNext(s, c, step).task, n) < TaskWork(s.comps[c].task, n)
  {
    if step.AwaitOne? { RemoveSize(s.comps[c].task.todo, step.d); }
  }

  lemma CancelStepWorks(s: State, c: Name, step: TaskStep, n: nat)
    requires TaskEnabled(s, c, step) && (step.ExchangeCancelled? || step.FlagOther? || step.FlagsDone?)
    requires n == |s.comps.Keys|
    ensures TaskWork(TaskNext(s, c, step).task, n) < TaskWork(s.comps[c].task, n)
  {
    if step.FlagOther? { RemoveSize(s.comps[c].task.todo, step.d); }
  }

  lemma TaskStepWorks(s: State, c: Name, step: TaskStep, n: nat)
    requires TaskEnabled(s, c, step)
    requires n == |s.comps.Keys| && |Neighbours(s, s.main.pass, c)| <= n
    ensures TaskWork(TaskNext(s, c, step).task, n) < TaskWork(s.comps[c].task, n)
  {
    match step
    case StartTask => WaitStepWorks(s, c, step, n);
    case AwaitOne(_) => WaitStepWorks(s, c, step, n);
    case StartHandler => WaitStepWorks(s, c, step, n);
    case ExchangeCancelled => CancelStepWorks(s, c, step, n);
    case FlagOther(_) => CancelStepWorks(s, c, step, n);
    case FlagsDone => CancelStepWorks(s, c, step, n);
    case _ => HandlerStepWorks(s, c, step, n);
  }

  lemma TaskStepTotal(s: State, c: Name, step: TaskStep, n: nat)
    requires TaskEnabled(s, c, step)
    requires n == |s.comps.Keys| && |Neighbours(s, s.main.pass, c)| <= n
    ensures var t := TaskApply(s, c, step);
            && t.comps.Keys == s.comps.Keys
            && TotalWork(TaskMeasure(n), t.comps, s.comps.Keys) < TotalWork(TaskMeasure(n), s.comps, s.comps.Keys)
  {
    var t := TaskApply(s, c, step);
    var names := s.comps.Keys;
    TaskStepFrame(s, c, step);
    TaskStepOthers(s, c, step, c);
    forall x | x in names - {c} ensures t.comps[x].task == s.comps[x].task {
      TaskStepOthers(s, c, step, x);
    }
    TaskStepWorks(s, c, step, n);
    TotalWorkChange(TaskMeasure(n), s.comps, t.comps, c);
  }

  lemma LessTaskWork(s: State, t: State)
    requires s.main.Passing? && t.main == s.main && t.comps.Keys == s.comps.Keys
    requires var work := TaskMeasure(|s.comps.Keys|); TotalWork(work, t.comps, s.comps.Keys) < TotalWork(work, s.comps, s.comps.Keys)
    ensures WorkLeft(t) < WorkLeft(s)
  {}

  lemma TaskStepDecreases(s: State, c: Name, step: TaskStep)
    requires TaskEnabled(s, c, step) && Neighbours(s, s.main.pass, c) <= s.comps.Keys
    ensures WorkLeft(TaskApply(s, c, step)) < WorkLeft(s)
  {
    SubsetSize(Neighbours(s, s.main.pass, c), s.comps.Keys);
    TaskStepFrame(s, c, step);
    TaskStepTotal(s, c, step, |s.comps.Keys|);
    LessTaskWork(s, TaskApply(s, c, step));
  }

  lemma ResetFlagWorks(s: State, c: Name)
    requires MainEnabled(s, ResetFlag(c))
    ensures var t := MainApply(s, ResetFlag(c)); PhasesLeft(t.main) == PhasesLeft(s.main) && PhaseWork(t) < PhaseWork(s)
  {
    RemoveSize(s.main.todo, c);
  }

  lemma NextPhase(s: State, step: MainStep)
    requires !LoadPhase(s) && MainEnabled(s, step) && !step.ResetFlag?
    ensures PhasesLeft(MainApply(s, step).main) < PhasesLeft(s.main)
  {}

  lemma MainStepPhase(s: State, step: MainStep)
    requires !LoadPhase(s) && MainEnabled(s, step)
    ensures var t := MainApply(s, step);
            if step.ResetFlag? then PhasesLeft(t.main) == PhasesLeft(s.main) && PhaseWork(t) < PhaseWork(s)
            else PhasesLeft(t.main) < PhasesLeft(s.main)
  {
    if step.ResetFlag? { ResetFlagWorks(s, step.c); } else { NextPhase(s, step); }
  }

  lemma MainStepDecreases(s: State, step: MainStep)
    requires !LoadPhase(s) && MainEnabled(s, step)
    requires var t := MainApply(s, step); t.comps.Keys == s.comps.Keys && PhaseWork(t) < PhaseBound(t)
    ensures WorkLeft(MainApply(s, step)) < WorkLeft(s)
  {
    MainStepPhase(s, step);
    if !step.ResetFlag? {
      PhaseDrops(PhasesLeft(s.main), PhasesLeft(MainApply(s, step).main), PhaseBound(s));
    }
  }

  lemma {:induction false} PhaseDrops(phases: nat, phases': nat, bound: nat)
    requires phases' < phases
    ensures Times(phases', bound) + bound <= Times(phases, bound)
  {
    if phases' + 1 < phases { PhaseDrops(phases - 1, phases', bound); }
  }

  /** After the load every step uses up work. */
  lemma LateStepDecreases(s: State, step: Step)
    requires Inv(s) && !LoadPhase(s) && Enabled(s, step)
    ensures WorkLeft(Apply(s, step)) < WorkLeft(s) && !LoadPhase(Apply(s, step))
  {
    match step
    case BuildS(c, b) => BuildStepMeansLoading(s, c, b); assert false;
    case MainS(m) =>
      MainStepKeepsInv(s, m);
      MainStepLate(s, m);
      MainStepShape(s, m);
      PhaseWorkBounded(MainApply(s, m));
      MainStepDecreases(s, m);
    case TaskS(c, t) =>
      PassGraphAcyclic(s, s.main.pass);
      TaskStepDecreases(s, c, t);
      TaskStepFrame(s, c, t);
  }

  lemma {:induction false} LateRunBounded(s: State, steps: seq<Step>, t: State)
    requires Inv(s) && !LoadPhase(s) && Run(s, steps, t)
    ensures |steps| <= WorkLeft(s) && Inv(t) && !LoadPhase(t)
    decreases |steps|
  {
    if steps != [] {
      LateStepDecreases(s, steps[0]);
      StepKeepsInv(s, steps[0]);
      LateRunBounded(Apply(s, steps[0]), steps[1..], t);
    }
  }

  /**
   Once the constructors are joined, whatever the tasks do, a run takes at most WorkLeft(s) more steps,
   and it can only stop with the service cleared and every object destroyed.
   */
  lemma ShutdownEnds(names: set<Name>, s: State, steps: seq<Step>, t: State)
    requires Reachable(names, s) && !LoadPhase(s) && Run(s, steps, t)
    ensures |steps| <= WorkLeft(s)
    ensures (forall step :: !Enabled(t, step)) ==>
              t.main.Cleared? && forall c :: c in t.comps ==> !t.comps[c].alive && !t.comps[c].component
  {
    ReachableInv(names, s);
    LateRunBounded(s, steps, t);
    if !t.main.Cleared? {
      var step := Progress(t);
    } else {
      forall c | c in t.comps ensures !t.comps[c].alive && !t.comps[c].component {
        assert ObjectInv(t, c);
      }
    }
  }
}
