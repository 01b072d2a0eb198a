/** Loading ends: a run can only be as long as the number of FindComponent calls in it allows. */
module LifecycleLoad {
  import opened Digraph
  import opened Lifecycle
  import opened LifecycleInvariant
  import opened LifecycleProgress

  function Finds(steps: seq<Step>): nat {
    if steps == [] then 0 else FindCost(steps[0]) + Finds(steps[1..])
  }

  function FindCost(step: Step): nat {
    if step.BuildS? && step.build.Find? then 1 else 0
  }

  /** An upper bound of the steps a constructor task still takes without another FindComponent. */
  function BuildWork(b: Build): nat {
    match b
    case NotStarted => 4
    case Constructing => 3
    case Looking(_) => 5
    case Blocked(_) => 4
    case SelfCancelling => 2
    case SelfCalling => 1
    case Built => 0
    case Failed => 0
  }

  function BuildMeasure(): Component -> nat {
    (k: Component) => BuildWork(k.build)
  }

  /** The same for the manager among n components. */
  function ManagerWork(m: Main, n: nat): nat {
    match m
    case Loading => 3 * n + 4
    case CancelFlags(todo) => |todo| + 2 * n + 3
    case CancelCalls(todo) => 2 * |todo| + 2
    case CancelCall(todo, _) => 2 * |todo| + 3
    case Joining => 1
    case _ => 0
  }

  ghost function LoadWork(s: State): nat {
    ManagerWork(s.main, |s.comps.Keys|) + TotalWork(BuildMeasure(), s.comps, s.comps.Keys)
  }

  lemma BuildStepWorks(s: State, c: Name, step: BuildStep)
    requires BuildEnabled(s, c, step)
    ensures var t := BuildApply(s, c, step);
            && t.main == s.main && t.comps.Keys == s.comps.Keys
            && (forall x :: x in s.comps && x != c ==> t.comps[x] == s.comps[x])
            && BuildWork(t.comps[c].build) + 1 <= BuildWork(s.comps[c].build) + if step.Find? then 3 else 0
  {}

  lemma BuildStepLoad(s: State, c: Name, step: BuildStep)
    requires BuildEnabled(s, c, step)
    ensures LoadWork(BuildApply(s, c, step)) + 1 <= LoadWork(s) + 3 * FindCost(BuildS(c, step))
  {
    BuildStepWorks(s, c, step);
    TotalWorkChange(BuildMeasure(), s.comps, BuildApply(s, c, step).comps, c);
  }

  lemma ManagerStepWorks(s: State, step: MainStep)
    requires LoadPhase(s) && MainEnabled(s, step) && LoadPhase(MainApply(s, step))
    ensures var t := MainApply(s, step);
            && t.comps.Keys == s.comps.Keys
            && (forall x :: x in s.comps ==> t.comps[x].build == s.comps[x].build)
            && ManagerWork(t.main, |s.comps.Keys|) < ManagerWork(s.main, |s.comps.Keys|)
  {
    MainStepShape(s, step);
    if step.SetFlag? || step.MainExchange? {
      RemoveSize(s.main.todo, step.c);
    }
  }

  lemma ManagerStepLoad(s: State, step: MainStep)
    requires LoadPhase(s) && MainEnabled(s, step) && LoadPhase(MainApply(s, step))
    ensures LoadWork(MainApply(s, step)) < LoadWork(s)
  {
    ManagerStepWorks(s, step);
    TotalWorkSame(BuildMeasure(), s.comps, MainApply(s, step).comps, s.comps.Keys);
  }

  /** While loading, every step but a FindComponent uses up work, and that adds at most two steps. */
  lemma LoadStepDecreases(s: State, step: Step)
    requires LoadPhase(s) && Enabled(s, step) && LoadPhase(Apply(s, step))
    ensures LoadWork(Apply(s, step)) + 1 <= LoadWork(s) + 3 * FindCost(step)
  {
    match step
    case BuildS(c, b) => BuildStepLoad(s, c, b);
    case MainS(m) => ManagerStepLoad(s, m);
    case TaskS(_, _) => assert false;
  }

  /** A run that stays in the load is bounded by its FindComponent calls. */
  lemma {:induction false} LoadRunBounded(s: State, steps: seq<Step>, t: State)
    requires Inv(s) && LoadPhase(s) && Run(s, steps, t) && LoadPhase(t)
    ensures |steps| + LoadWork(t) <= LoadWork(s) + 3 * Finds(steps)
    decreases |steps|
  {
    if steps != [] {
      var u := Apply(s, steps[0]);
      StepKeepsInv(s, steps[0]);
      if !LoadPhase(u) {
        LateRunBounded(u, steps[1..], t);
      } else {
        LoadStepDecreases(s, steps[0]);
        LoadRunBounded(u, steps[1..], t);
      }
    }
  }

  // ----- Whole runs -----

  /** What is left of a run: the load and then all later phases, or just those. */
  ghost function RunLeft(s: State): nat {
    if LoadPhase(s) then LoadWork(s) + 1 + Times(10, PhaseBound(s)) else WorkLeft(s)
  }

  lemma {:induction false} TimesMonotone(k: nat, m: nat, b: nat)
    requires k <= m
    ensures Times(k, b) <= Times(m, b)
  {
    if k < m {
      TimesMonotone(k, m - 1, b);
    }
  }

  lemma LateWorkBounded(s: State)
    requires Inv(s) && !LoadPhase(s)
    ensures WorkLeft(s) <= Times(10, PhaseBound(s))
  {
    PhaseWorkBounded(s);
    TimesMonotone(PhasesLeft(s.main) + 1, 10, PhaseBound(s));
  }

  lemma StepKeepsNames(s: State, step: Step)
    requires Enabled(s, step)
    ensures Apply(s, step).comps.Keys == s.comps.Keys
  {
    match step
    case BuildS(c, b) => BuildStepWorks(s, c, b);
    case MainS(m) => MainStepShape(s, m);
    case TaskS(c, t) => TaskStepFrame(s, c, t);
  }

  lemma RunLeftDrops(s: State, t: State, cost: nat)
    requires t.comps.Keys == s.comps.Keys
    requires if !LoadPhase(s) then !LoadPhase(t) && WorkLeft(t) < WorkLeft(s)
             else if LoadPhase(t) then LoadWork(t) + 1 <= LoadWork(s) + 3 * cost
             else WorkLeft(t) <= Times(10, PhaseBound(t))
    ensures RunLeft(t) + 1 <= RunLeft(s) + 3 * cost
  {}

  lemma LeavingLoad(s: State, step: Step)
    requires Inv(s) && Enabled(s, step) && !LoadPhase(Apply(s, step))
    ensures WorkLeft(Apply(s, step)) <= Times(10, PhaseBound(Apply(s, step)))
  {
    StepKeepsInv(s, step);
    LateWorkBounded(Apply(s, step));
  }

  lemma RunLeftStep(s: State, step: Step)
    requires Inv(s) && Enabled(s, step)
    ensures RunLeft(Apply(s, step)) + 1 <= RunLeft(s) + 3 * FindCost(step)
  {
    StepKeepsNames(s, step);
    if !LoadPhase(s) {
      LateStepDecreases(s, step);
    } else if LoadPhase(Apply(s, step)) {
      LoadStepDecreases(s, step);
    } else {
      LeavingLoad(s, step);
    }
    RunLeftDrops(s, Apply(s, step), FindCost(step));
  }

  lemma {:induction false} RunBounded(s: State, steps: seq<Step>, t: State)
    requires Inv(s) && Run(s, steps, t)
    ensures |steps| + RunLeft(t) <= RunLeft(s) + 3 * Finds(steps)
    decreases |steps|
  {
    if steps != [] {
      RunLeftStep(s, steps[0]);
      StepKeepsInv(s, steps[0]);
      RunBounded(Apply(s, steps[0]), steps[1..], t);
    }
  }

  lemma {:induction false} FourTimes(k: nat)
    ensures Times(k, 4) == 4 * k
  {
    if k > 0 {
      FourTimes(k - 1);
    }
  }

  /** The longest run of a service with n components, not counting what FindComponent calls add. */
  function ServiceBound(n: nat): nat {
    7 * n + 5 + Times(10, Times(n, 2 * n + 6) + 1)
  }

  lemma InitLeft(names: set<Name>)
    ensures RunLeft(Init(names)) <= ServiceBound(|names|)
  {
    var s := Init(names);
    assert s.comps.Keys == names;
    TotalWorkBound(BuildMeasure(), s.comps, names, 4);
    FourTimes(|names|);
  }

  /** Some step other than a FindComponent is possible until everything is cleared and destroyed. */
  lemma StopsCleared(t: State)
    requires Inv(t) && forall step :: Enabled(t, step) ==> FindCost(step) == 1
    ensures t.main.Cleared? && forall c :: c in t.comps ==> !t.comps[c].alive && !t.comps[c].component
  {
    if !t.main.Cleared? {
      var step := Progress(t);
      assert false;
    } else {
      forall c | c in t.comps ensures !t.comps[c].alive && !t.comps[c].component {
        assert ObjectInv(t, c);
      }
    }
  }

  /**
   Every run of a service, from the first constructor on, is bounded by the number of its components and of the
   FindComponent calls made, and it can only stop with the service cleared and every object destroyed.
   */
  lemma ServiceEnds(names: set<Name>, steps: seq<Step>, t: State)
    requires Run(Init(names), steps, t)
    ensures |steps| <= ServiceBound(|names|) + 3 * Finds(steps)
    ensures (forall step :: Enabled(t, step) ==> FindCost(step) == 1) ==>
              t.main.Cleared? && forall c :: c in t.comps ==> !t.comps[c].alive && !t.comps[c].component
  {
    InitInv(names);
    InitLeft(names);
    RunBounded(Init(names), steps, t);
    RunKeepsInv(Init(names), steps, t);
    if forall step :: Enabled(t, step) ==> FindCost(step) == 1 {
      StopsCleared(t);
    }
  }
}
