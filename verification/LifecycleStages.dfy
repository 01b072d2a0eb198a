/** Phases and stages over runs: no phase comes back, and a pass moves each stage at most once. */
module LifecycleStages {
  import opened Digraph
  import opened Lifecycle
  import opened LifecycleInvariant
  import opened LifecycleProgress

  /** After the load the manager only moves on to later phases. */
  lemma {:induction false} PhasesNeverRise(s: State, steps: seq<Step>, t: State)
    requires Inv(s) && !LoadPhase(s) && Run(s, steps, t)
    ensures PhasesLeft(t.main) <= PhasesLeft(s.main)
    decreases |steps|
  {
    if steps != [] {
      PhaseStep(s, steps[0]);
      StepKeepsInv(s, steps[0]);
      PhasesNeverRise(Apply(s, steps[0]), steps[1..], t);
    }
  }

  lemma PhaseStep(s: State, step: Step)
    requires Inv(s) && !LoadPhase(s) && Enabled(s, step)
    ensures !LoadPhase(Apply(s, step)) && PhasesLeft(Apply(s, step).main) <= PhasesLeft(s.main)
    ensures s.main.Passing? && Apply(s, step).main != s.main ==> PhasesLeft(Apply(s, step).main) < PhasesLeft(s.main)
  {
    LateStepDecreases(s, step);
    match step
    case BuildS(c, b) => BuildStepMeansLoading(s, c, b); assert false;
    case MainS(m) => MainStepPhase(s, m);
    case TaskS(c, t) => TaskStepFrame(s, c, t);
  }

  lemma TaskStepStage(s: State, c: Name, step: TaskStep, x: Name)
    requires TaskEnabled(s, c, step) && x in s.comps
    ensures var t := TaskApply(s, c, step); x in t.comps && t.comps[x].stage in {s.comps[x].stage, NextStage(s.main.pass)}
  {
    TaskStepOthers(s, c, step, x);
  }

  /**
   Between any two points of the same pass a stage keeps its value or becomes the next stage; taken from the
   start of the pass, every stage is its value before the pass or the next one.
   */
  lemma {:induction false} StagesOverPass(s: State, steps: seq<Step>, t: State, c: Name)
    requires Inv(s) && s.main.Passing? && Run(s, steps, t) && t.main == s.main && c in s.comps
    ensures c in t.comps && t.comps[c].stage in {s.comps[c].stage, NextStage(s.main.pass)}
    decreases |steps|
  {
    if steps != [] {
      var u := Apply(s, steps[0]);
      PhaseStep(s, steps[0]);
      StepKeepsInv(s, steps[0]);
      PhasesNeverRise(u, steps[1..], t);
      assert u.main == s.main;
      SamePassIsTask(s, steps[0]);
      TaskStepStage(s, steps[0].c, steps[0].task, c);
      StagesOverPass(u, steps[1..], t, c);
    }
  }

  lemma SamePassIsTask(s: State, step: Step)
    requires Inv(s) && s.main.Passing? && Enabled(s, step) && Apply(s, step).main == s.main
    ensures step.TaskS?
  {
    match step
    case BuildS(c, b) => BuildStepMeansLoading(s, c, b); assert false;
    case MainS(m) => MainStepPhase(s, m); assert false;
    case TaskS(_, _) =>
  }
}
