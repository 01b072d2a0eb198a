/** What is to blame for a cancelled load or pass, and who spreads it. */
module LifecycleCancel {
  import opened Digraph
  import opened Lifecycle
  import opened LifecycleInvariant
  import opened LifecyclePhases

  // ----- The load -----

  predicate Throws(step: Step) {
    step.BuildS? && step.build == ConstructorThrows
  }

  predicate NobodyThrows(steps: seq<Step>) {
    forall i :: 0 <= i < |steps| ==> !Throws(steps[i])
  }

  /** No constructor has failed and the load is not being given up. */
  ghost predicate GoesWell(s: State) {
    && (forall c :: c in s.comps ==> s.comps[c].build != Failed)
    && (LoadPhase(s) ==> s.main.Loading?)
  }

  lemma BuildGoesWell(s: State, c: Name, step: BuildStep)
    requires LoadOk(s) && s.main.Loading? && GoesWell(s) && BuildEnabled(s, c, step) && step != ConstructorThrows
    ensures GoesWell(BuildApply(s, c, step))
  {
    forall x | x in s.comps ensures !s.comps[x].cancelled { assert LoadInv(s, x); }
    var t := BuildApply(s, c, step);
    assert t.comps[c].build != Failed;
    forall x | x in s.comps && x != c ensures x in t.comps && t.comps[x] == s.comps[x] {}
  }

  lemma MainGoesWell(s: State, step: MainStep)
    requires GoesWell(s) && MainEnabled(s, step)
    ensures GoesWell(MainApply(s, step))
  {
    MainFrame(s, step);
  }

  lemma TaskBuilds(s: State, c: Name, step: TaskStep)
    requires TaskEnabled(s, c, step)
    ensures var t := TaskApply(s, c, step);
            && t.main == s.main && t.comps.Keys == s.comps.Keys
            && forall x :: x in s.comps ==> t.comps[x].build == s.comps[x].build
  {
    TaskStepFrame(s, c, step);
    forall x | x in s.comps ensures TaskApply(s, c, step).comps[x].build == s.comps[x].build { TaskStepOthers(s, c, step, x); }
  }

  lemma StepGoesWell(s: State, step: Step)
    requires Inv(s) && GoesWell(s) && Enabled(s, step) && !Throws(step)
    ensures GoesWell(Apply(s, step))
  {
    match step
    case BuildS(c, b) => BuildStepMeansLoading(s, c, b); BuildGoesWell(s, c, b);
    case MainS(m) => MainGoesWell(s, m);
    case TaskS(c, t) => TaskBuilds(s, c, t);
  }

  lemma {:induction false} RunGoesWell(s: State, steps: seq<Step>, t: State)
    requires Inv(s) && GoesWell(s) && Run(s, steps, t) && NobodyThrows(steps)
    ensures GoesWell(t)
    decreases |steps|
  {
    if steps != [] {
      StepGoesWell(s, steps[0]);
      StepKeepsInv(s, steps[0]);
      assert forall i :: 0 <= i < |steps| - 1 ==> steps[1..][i] == steps[i + 1];
      RunGoesWell(Apply(s, steps[0]), steps[1..], t);
    }
  }

  /** In a run in which no constructor throws none fails, whatever it waited for, and the load is not given up. */
  lemma NoThrowNoFailure(names: set<Name>, steps: seq<Step>, t: State)
    requires Run(Init(names), steps, t) && NobodyThrows(steps)
    ensures forall c :: c in t.comps ==> t.comps[c].build != Failed
    ensures !t.loadCancelled && (LoadPhase(t) ==> t.main.Loading?)
  {
    InitInv(names);
    RunGoesWell(Init(names), steps, t);
    ReachableInv(names, t);
    ReasonOverRun(Init(names), steps, t);
    assert !exists c :: Is(t, c, Failed);
  }

  // ----- A pass -----

  /** At most one task spreads the cancellation, and a failed component has its own flag up. */
  predicate OneSpreads(s: State) {
    s.main.Passing? ==>
      && (forall c, d :: c in s.comps && d in s.comps && s.comps[c].task.Flagging? && s.comps[d].task.Flagging? ==> c == d)
      && (forall c :: c in s.comps && s.comps[c].task.Flagging? ==> s.switchingCancelled)
      && (forall c :: c in s.comps && s.comps[c].failed ==> s.comps[c].cancelled)
  }

  lemma TaskSpreadsItself(s: State, c: Name, step: TaskStep)
    requires TaskEnabled(s, c, step) && (s.comps[c].failed ==> s.comps[c].cancelled)
    ensures var k := TaskNext(s, c, step);
            && (k.task.Flagging? ==> s.comps[c].task.Flagging? || (step == ExchangeCancelled && !s.switchingCancelled))
            && (k.failed ==> k.cancelled)
  {}

  lemma TaskOneSpreads(s: State, c: Name, step: TaskStep)
    requires OneSpreads(s) && TaskEnabled(s, c, step)
    ensures OneSpreads(TaskApply(s, c, step))
  {
    var t := TaskApply(s, c, step);
    TaskStepFrame(s, c, step);
    forall x | x in s.comps
      ensures x in t.comps && (s.comps[x].cancelled ==> t.comps[x].cancelled)
      ensures x != c ==> t.comps[x].task == s.comps[x].task && t.comps[x].failed == s.comps[x].failed
    {
      TaskStepOthers(s, c, step, x);
    }
    TaskStepOthers(s, c, step, c);
    TaskSpreadsItself(s, c, step);
  }

  lemma StepOneSpreads(s: State, step: Step)
    requires Inv(s) && OneSpreads(s) && Enabled(s, step)
    ensures OneSpreads(Apply(s, step))
  {
    match step
    case BuildS(c, b) => BuildStepMeansLoading(s, c, b); BuildFrame(s, c, b);
    case MainS(m) => MainFrame(s, m); MainOneSpreads(s, m);
    case TaskS(c, t) => TaskOneSpreads(s, c, t);
  }

  lemma MainOneSpreads(s: State, step: MainStep)
    requires MainEnabled(s, step)
    requires forall x :: x in s.comps ==> x in MainApply(s, step).comps && MainLeaves(step, s.comps[x], MainApply(s, step).comps[x])
    requires MainApply(s, step).comps.Keys == s.comps.Keys
    ensures OneSpreads(MainApply(s, step))
  {
    if step == StartPass {
      var t := MainApply(s, step);
      forall x | x in t.comps ensures t.comps[x].task == Idle && !t.comps[x].failed {}
    }
  }

  lemma {:induction false} RunOneSpreads(s: State, steps: seq<Step>, t: State)
    requires Inv(s) && OneSpreads(s) && Run(s, steps, t)
    ensures OneSpreads(t)
    decreases |steps|
  {
    if steps != [] {
      StepOneSpreads(s, steps[0]);
      StepKeepsInv(s, steps[0]);
      RunOneSpreads(Apply(s, steps[0]), steps[1..], t);
    }
  }

  /** In every reachable state of a pass: one task at most spreads a cancellation, and whoever failed has released its own waiters. */
  lemma OneTaskSpreads(names: set<Name>, s: State, c: Name, d: Name)
    requires Reachable(names, s) && s.main.Passing? && c in s.comps && d in s.comps
    ensures s.comps[c].task.Flagging? && s.comps[d].task.Flagging? ==> c == d
    ensures s.comps[c].failed ==> s.comps[c].cancelled
  {
    var steps :| Run(Init(names), steps, s);
    InitInv(names);
    RunOneSpreads(Init(names), steps, s);
  }

  /** A task ends only with SetStage, after its handler, and then with the stage of the pass. */
  lemma EndsWithSetStage(s: State, c: Name, step: TaskStep)
    requires TaskEnabled(s, c, step)
    ensures var t := TaskApply(s, c, step);
            && (t.comps[c].task == Finished <==> step == SetStage)
            && (step == SetStage ==> s.comps[c].task == Returning && t.comps[c].stage == NextStage(s.main.pass))
            && (step != SetStage ==> t.comps[c].stage == s.comps[c].stage)
  {
    TaskStepOthers(s, c, step, c);
  }
}
