/**
 The component lifecycle as a transition system: concurrent constructors with FindComponent,
 cancellation of a failed load, and the stage passes up to the destruction of every component.
 A step is one critical section, one atomic operation or one user callback boundary of
 ComponentInfo, ComponentContextImpl or Manager; any enabled step may come next.
 */
module Lifecycle {
  import opened Digraph

  datatype Stage = Null | Created | Running | GracefulShutdown | ReadyForClearing

  /** The four calls of ProcessAllComponentLifetimeStageSwitchings. */
  datatype Pass = Loaded | Graceful | Stopping | Clearing

  function NextStage(p: Pass): Stage {
    match p
    case Loaded => Running
    case Graceful => GracefulShutdown
    case Stopping => ReadyForClearing
    case Clearing => Null
  }

  predicate AllowCancelling(p: Pass) {
    p == Loaded
  }

  /** Where the task running AddComponent is. */
  datatype Build =
    | NotStarted
    | Constructing
    | Looking(dependency: Name)   // AddDependency done, GetComponent not yet called
    | Blocked(dependency: Name)   // inside WaitAndGetComponent
    | SelfCancelling              // SetComponent saw the flag, OnLoadingCancelled not yet entered
    | SelfCalling                 // won the exchange, the callback not yet made
    | Built
    | Failed

  /** Where the task of ProcessSingleComponentLifetimeStageSwitching is. */
  datatype Task =
    | Idle
    | Awaiting(todo: set<Name>)   // neighbours whose stage is still to be checked
    | Handling
    | Destroying                  // ClearComponent extracted the object, its destructor runs
    | Thrown                      // the handler threw, the component's own flag is set
    | Flagging(todo: set<Name>)   // inside CancelComponentLifetimeStageSwitching
    | Returning                   // the handler is over, SetStage not yet called
    | Finished

  datatype Component = Component(
    build: Build,
    alive: bool,         // memory of the component is in use: construction begun, destruction not ended
    component: bool,      // component_ != nullptr
    stage: Stage,
    cancelled: bool,      // stage_switching_cancelled_
    notified: bool,       // on_loading_cancelled_called_
    calls: nat,           // how often the user's OnLoadingCancelled ran
    obtained: set<Name>,  // dependencies whose pointer FindComponent returned to the constructor
    task: Task,
    failed: bool          // the handler of the current pass threw
  )

  /** Where the manager's own task is. */
  datatype Main =
    | Loading
    | CancelFlags(todo: set<Name>)
    | CancelCalls(todo: set<Name>)
    | CancelCall(todo: set<Name>, callee: Name)
    | Joining
    | Preparing(pass: Pass, todo: set<Name>)
    | Passing(pass: Pass)
    | Serving
    | Cleared

  datatype State = State(
    main: Main,
    comps: map<Name, Component>,
    itDependsOn: Graph,
    dependsOnIt: Graph,
    loadCancelled: bool,       // components_load_cancelled_
    switchingCancelled: bool   // is_component_lifetime_stage_switchings_cancelled of the current pass
  )

  /** What the task constructing a component does next. */
  datatype BuildStep =
    | StartConstructor
    | Find(dependency: Name)
    | Peek
    | Wake
    | ConstructorThrows
    | SetComponent
    | SelfExchange
    | SelfCall

  /** What the manager's task does next. */
  datatype MainStep =
    | LoadSucceeded
    | LoadFailed
    | SetFlag(c: Name)
    | BeginCalls
    | MainExchange(c: Name)
    | MainCall
    | BeginJoin
    | Joined
    | ResetFlag(c: Name)
    | StartPass
    | PassOver
    | Shutdown(graceful: bool)

  /** What the task switching a component's stage does next. */
  datatype TaskStep =
    | StartTask
    | AwaitOne(d: Name)
    | StartHandler
    | HandlerReturns
    | HandlerThrows
    | Extract
    | Destroy
    | ExchangeCancelled
    | FlagOther(d: Name)
    | FlagsDone
    | SetStage

  datatype Step =
    | BuildS(c: Name, build: BuildStep)
    | MainS(main: MainStep)
    | TaskS(c: Name, task: TaskStep)

  const FRESH := Component(NotStarted, false, false, Null, false, false, 0, {}, Idle, false)

  function Init(names: set<Name>): State {
    State(Loading, map n | n in names :: FRESH, map n | n in names :: {}, map n | n in names :: {}, false, false)
  }

  predicate Is(s: State, c: Name, build: Build) {
    c in s.comps && s.comps[c].build == build
  }

  predicate LoadPhase(s: State) {
    s.main.Loading? || s.main.CancelFlags? || s.main.CancelCalls? || s.main.CancelCall? || s.main.Joining?
  }

  predicate AllBuilt(s: State) {
    forall c :: c in s.comps ==> s.comps[c].build == Built
  }

  predicate AllJoined(s: State) {
    forall c :: c in s.comps ==> s.comps[c].build in {Built, Failed}
  }

  predicate AllFinished(s: State) {
    forall c :: c in s.comps ==> s.comps[c].task == Finished
  }

  predicate SomeFailed(s: State) {
    exists c :: c in s.comps && s.comps[c].failed
  }

  /** DependencyType of a pass: wait along dependencies, against them, or not at all. */
  function PassGraph(s: State, p: Pass): Graph {
    match p
    case Loaded => s.itDependsOn
    case Graceful => map[]
    case Stopping => s.dependsOnIt
    case Clearing => s.dependsOnIt
  }

  function Neighbours(s: State, p: Pass, c: Name): set<Name> {
    Succ(PassGraph(s, p), c)
  }

  /** The edge "c depends on d" would close a cycle, so AddDependency throws and records nothing. */
  ghost predicate ClosesCycle(s: State, c: Name, d: Name) {
    d !in Succ(s.itDependsOn, c) && Reach(s.itDependsOn, d, c)
  }

  ghost predicate BuildEnabled(s: State, c: Name, step: BuildStep) {
    && c in s.comps
    && var k := s.comps[c];
       match step
       case StartConstructor => LoadPhase(s) && k.build == NotStarted
       case Find(_) => k.build == Constructing
       case Peek => k.build.Looking? && k.build.dependency in s.comps
       case Wake =>
         && k.build.Blocked? && k.build.dependency in s.comps
         && (s.comps[k.build.dependency].cancelled || s.comps[k.build.dependency].component)
       case ConstructorThrows => k.build == Constructing
       case SetComponent => k.build == Constructing
       case SelfExchange => k.build == SelfCancelling
       case SelfCall => k.build == SelfCalling
  }

  ghost predicate MainEnabled(s: State, step: MainStep) {
    match step
    case LoadSucceeded => s.main.Loading? && AllBuilt(s)
    case LoadFailed => s.main.Loading? && exists c :: Is(s, c, Failed)
    case SetFlag(c) => s.main.CancelFlags? && c in s.main.todo && c in s.comps
    case BeginCalls => s.main == CancelFlags({})
    case MainExchange(c) => s.main.CancelCalls? && c in s.main.todo && c in s.comps
    case MainCall => s.main.CancelCall? && s.main.callee in s.comps
    case BeginJoin => s.main == CancelCalls({})
    case Joined => s.main.Joining? && AllJoined(s)
    case ResetFlag(c) => s.main.Preparing? && c in s.main.todo && c in s.comps
    case StartPass => s.main.Preparing? && s.main.todo == {}
    case PassOver => s.main.Passing? && AllFinished(s)
    case Shutdown(_) => s.main.Serving?
  }

  predicate TaskEnabled(s: State, c: Name, step: TaskStep) {
    && s.main.Passing? && c in s.comps
    && var p, k := s.main.pass, s.comps[c];
       match step
       case StartTask => k.task == Idle
       case AwaitOne(d) =>
         && k.task.Awaiting? && d in k.task.todo && d in s.comps
         && (s.comps[d].stage == NextStage(p) || s.comps[d].cancelled)
       case StartHandler => k.task == Awaiting({})
       case HandlerReturns => k.task == Handling && (p == Clearing ==> !k.component)
       case HandlerThrows => k.task == Handling && p != Clearing
       case Extract => k.task == Handling && p == Clearing && k.component
       case Destroy => k.task == Destroying
       case ExchangeCancelled => k.task == Thrown
       case FlagOther(d) => k.task.Flagging? && d in k.task.todo && d in s.comps
       case FlagsDone => k.task == Flagging({})
       case SetStage => k.task == Returning
  }

  ghost predicate Enabled(s: State, step: Step) {
    match step
    case BuildS(c, b) => BuildEnabled(s, c, b)
    case MainS(m) => MainEnabled(s, m)
    case TaskS(c, t) => TaskEnabled(s, c, t)
  }

  function Put(s: State, c: Name, k: Component): State {
    s.(comps := s.comps[c := k])
  }

  /** FindComponent hands the pointer of d to the constructor of c. */
  function Obtain(k: Component, d: Name): Component {
    k.(build := Constructing, obtained := k.obtained + {d})
  }

  /** What follows a finished pass: Manager::AddComponents, ~Manager and ClearComponents. */
  function AfterPass(s: State): Main
    requires s.main.Passing?
  {
    var names := s.comps.Keys;
    match s.main.pass
    case Loaded => if SomeFailed(s) then Preparing(Stopping, names) else Serving
    case Graceful => Preparing(Stopping, names)
    case Stopping => Preparing(Clearing, names)
    case Clearing => Cleared
  }

  ghost function BuildApply(s: State, c: Name, step: BuildStep): State
    requires BuildEnabled(s, c, step)
  {
    var k := s.comps[c];
    match step
    case StartConstructor => Put(s, c, k.(build := Constructing, alive := true))
    case Find(d) =>
      if d !in s.comps || ClosesCycle(s, c, d) then s  // FindComponent throws, the constructor may go on or fail
      else Put(s, c, k.(build := Looking(d)))
           .(itDependsOn := WithEdge(s.itDependsOn, c, d), dependsOnIt := WithEdge(s.dependsOnIt, d, c))
    case Peek =>
      var d := k.build.dependency;
      Put(s, c, if s.comps[d].component then Obtain(k, d) else k.(build := Blocked(d)))
    case Wake =>
      var d := k.build.dependency;
      Put(s, c, if s.comps[d].cancelled then k.(build := Failed, alive := false) else Obtain(k, d))
    case ConstructorThrows => Put(s, c, k.(build := Failed, alive := false))
    case SetComponent =>
      Put(s, c, k.(component := true, stage := Created, build := if k.cancelled then SelfCancelling else Built))
    case SelfExchange =>
      Put(s, c, if k.notified then k.(build := Built) else k.(build := SelfCalling, notified := true))
    case SelfCall => Put(s, c, k.(build := Built, calls := k.calls + 1))
  }

  ghost function MainApply(s: State, step: MainStep): State
    requires MainEnabled(s, step)
  {
    match step
    case LoadSucceeded => s.(main := Preparing(Loaded, s.comps.Keys))
    case LoadFailed => s.(main := CancelFlags(s.comps.Keys))
    case SetFlag(c) => Put(s, c, s.comps[c].(cancelled := true)).(main := CancelFlags(s.main.todo - {c}))
    case BeginCalls => s.(main := CancelCalls(s.comps.Keys), loadCancelled := true)
    case MainExchange(c) =>
      var k, rest := s.comps[c], s.main.todo - {c};
      if k.component && !k.notified
      then Put(s, c, k.(notified := true)).(main := CancelCall(rest, c))
      else s.(main := CancelCalls(rest))
    case MainCall =>
      var c := s.main.callee;
      Put(s, c, s.comps[c].(calls := s.comps[c].calls + 1)).(main := CancelCalls(s.main.todo))
    case BeginJoin => s.(main := Joining)
    case Joined => s.(main := Preparing(Stopping, s.comps.Keys))
    case ResetFlag(c) =>
      Put(s, c, s.comps[c].(cancelled := false)).(main := Preparing(s.main.pass, s.main.todo - {c}))
    case StartPass =>
      s.(main := Passing(s.main.pass), switchingCancelled := false,
         comps := map c | c in s.comps :: s.comps[c].(task := Idle, failed := false))
    case PassOver => s.(main := AfterPass(s))
    case Shutdown(graceful) => s.(main := Preparing(if graceful then Graceful else Stopping, s.comps.Keys))
  }

  /** The record of c after its task's step. */
  function TaskNext(s: State, c: Name, step: TaskStep): Component
    requires TaskEnabled(s, c, step)
  {
    var p, k := s.main.pass, s.comps[c];
    match step
    case StartTask => k.(task := Awaiting(Neighbours(s, p, c)))
    case AwaitOne(d) => k.(task := Awaiting(k.task.todo - {d}))
    case StartHandler => k.(task := Handling)
    case HandlerReturns => k.(task := Returning)
    case HandlerThrows =>
      if AllowCancelling(p) then k.(task := Thrown, failed := true, cancelled := true) else k.(task := Returning)
    case Extract => k.(task := Destroying, component := false)
    case Destroy => k.(task := Returning, alive := false)
    case ExchangeCancelled => k.(task := if s.switchingCancelled then Returning else Flagging(s.comps.Keys))
    case FlagOther(d) => k.(task := Flagging(k.task.todo - {d}), cancelled := k.cancelled || c == d)
    case FlagsDone => k.(task := Returning)
    case SetStage => k.(task := Finished, stage := NextStage(p))
  }

  /** A task changes its own component; CancelComponentLifetimeStageSwitching also raises another's flag. */
  function TaskApply(s: State, c: Name, step: TaskStep): State
    requires TaskEnabled(s, c, step)
  {
    var flagged := if step.FlagOther? then Put(s, step.d, s.comps[step.d].(cancelled := true)) else s;
    Put(flagged, c, TaskNext(s, c, step))
    .(switchingCancelled := s.switchingCancelled || step == ExchangeCancelled)
  }

  ghost function Apply(s: State, step: Step): State
    requires Enabled(s, step)
  {
    match step
    case BuildS(c, b) => BuildApply(s, c, b)
    case MainS(m) => MainApply(s, m)
    case TaskS(c, t) => TaskApply(s, c, t)
  }

  /** The steps lead from s to t, one enabled step after another. */
  ghost predicate Run(s: State, steps: seq<Step>, t: State)
    decreases |steps|
  {
    if steps == [] then s == t
    else Enabled(s, steps[0]) && Run(Apply(s, steps[0]), steps[1..], t)
  }

  ghost predicate Reachable(names: set<Name>, s: State) {
    exists steps :: Run(Init(names), steps, s)
  }
}
