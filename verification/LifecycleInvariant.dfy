/** What every step of the lifecycle keeps, whatever the interleaving. */
module LifecycleInvariant {
  import opened Digraph
  import opened Lifecycle

  ghost predicate GraphInv(s: State) {
    && s.itDependsOn.Keys == s.comps.Keys
    && s.dependsOnIt.Keys == s.comps.Keys
    && ClosedUnder(s.itDependsOn, s.comps.Keys)
    && Inverse(s.itDependsOn, s.dependsOnIt)
    && Acyclic(s.itDependsOn)
  }

  predicate BuiltLike(b: Build) {
    b in {SelfCancelling, SelfCalling, Built}
  }

  /** The pointers a constructor holds are those of its recorded edges, up to the one being looked up. */
  predicate EdgesInv(s: State, c: Name)
    requires c in s.comps
  {
    var k, deps := s.comps[c], Succ(s.itDependsOn, c);
    match k.build
    case NotStarted => deps == {} && k.obtained == {} && !k.alive && !k.component
    case Constructing => deps == k.obtained && k.alive && !k.component
    case Looking(d) => d in deps && deps == k.obtained + {d} && k.alive && !k.component
    case Blocked(d) => d in deps && deps == k.obtained + {d} && k.alive && !k.component
    case Failed => k.obtained <= deps && !k.alive && !k.component
    case SelfCancelling => deps == k.obtained
    case SelfCalling => deps == k.obtained
    case Built => deps == k.obtained && (k.component ==> k.alive)
  }

  /** An object that exists keeps every dependency it was handed alive and published. */
  predicate SafeInv(s: State, c: Name)
    requires c in s.comps
  {
    var k := s.comps[c];
    k.alive ==> forall d :: d in k.obtained ==> d in s.comps && s.comps[d].component
  }

  predicate ToVisit(s: State, c: Name) {
    match s.main
    case CancelFlags(_) => true
    case CancelCalls(todo) => c in todo
    case CancelCall(todo, _) => c in todo
    case Joining => false
    case _ => true
  }

  /** While constructors run: stages, flags, and who still has to deliver OnLoadingCancelled. */
  predicate LoadInv(s: State, c: Name)
    requires c in s.comps
  {
    var k := s.comps[c];
    && k.stage == (if k.component then Created else Null)
    && (BuiltLike(k.build) ==> k.component && k.alive)
    && k.task == Idle && !k.failed
    && (k.cancelled <==> !s.main.Loading? && (s.main.CancelFlags? ==> c !in s.main.todo))
    && (k.build in {SelfCancelling, SelfCalling} ==> k.cancelled)
    && (k.notified ==> BuiltLike(k.build) && k.cancelled)
    && (k.build == SelfCalling ==> k.notified)
    && (k.build == SelfCalling ==> !(s.main.CancelCall? && s.main.callee == c))
    && (s.main.CancelCall? && s.main.callee == c ==> k.notified)
    && k.calls == (if k.notified && k.build != SelfCalling && !(s.main.CancelCall? && s.main.callee == c) then 1 else 0)
    && (BuiltLike(k.build) && !ToVisit(s, c) ==> k.notified || k.build == SelfCancelling)
  }

  /** After the load: who was built, and that the cancellation callback ran once or never. */
  predicate JoinedInv(s: State, c: Name)
    requires c in s.comps
  {
    var k := s.comps[c];
    && k.build in {Built, Failed}
    && (!s.loadCancelled ==> k.build == Built)
    && k.calls == (if s.loadCancelled && k.build == Built then 1 else 0)
  }

  /** The stages a component can have when a pass begins; never the stage the pass leads to. */
  predicate StageBefore(p: Pass, stage: Stage) {
    match p
    case Loaded => stage == Created
    case Graceful => stage == Running
    case Stopping => stage != ReadyForClearing
    case Clearing => stage == ReadyForClearing
  }

  predicate StageInv(s: State, c: Name)
    requires c in s.comps
  {
    var k := s.comps[c];
    match s.main
    case Preparing(p, todo) => StageBefore(p, k.stage) && (c !in todo ==> !k.cancelled)
    case Passing(p) => if k.task == Finished then k.stage == NextStage(p) else StageBefore(p, k.stage)
    case Serving => k.stage == Running
    case Cleared => k.stage == Null
    case _ => true
  }

  /** Objects appear with their constructor and leave only in their own clearing task. */
  predicate ObjectInv(s: State, c: Name)
    requires c in s.comps
  {
    var k := s.comps[c];
    if k.build != Built || s.main.Cleared? then !k.component && !k.alive
    else if s.main == Passing(Clearing) then
      match k.task
      case Destroying => !k.component && k.alive
      case Returning => !k.component && !k.alive
      case Finished => !k.component && !k.alive
      case _ => k.component && k.alive
    else k.component && k.alive
  }

  /** The handler of the task is over. */
  predicate Ended(t: Task) {
    t in {Thrown, Returning, Finished} || t.Flagging?
  }

  predicate Started(t: Task) {
    Ended(t) || t in {Handling, Destroying}
  }

  /** What a later task may rely on about a neighbour it stopped waiting for. */
  predicate Settled(s: State, d: Name) {
    d in s.comps && if s.main == Passing(Loaded) then Ended(s.comps[d].task) else s.comps[d].task == Finished
  }

  /** Every component that anybody depends on is, directly or not, a dependency of all the others. */
  ghost predicate Funnel(g: Graph) {
    forall c, d :: d in Succ(g, c) ==> forall x :: x in g && x != d ==> Reach(g, x, d)
  }

  ghost predicate OrderGuaranteed(s: State) {
    s.main == Passing(Loaded) && SomeFailed(s) ==> Funnel(s.itDependsOn)
  }

  /** The task no longer waits for d. */
  predicate Passed(t: Task, d: Name) {
    Started(t) || (t.Awaiting? && d !in t.todo)
  }

  predicate TaskShape(s: State, p: Pass, c: Name)
    requires c in s.comps
  {
    var k := s.comps[c];
    && (k.task.Awaiting? ==> k.task.todo <= Neighbours(s, p, c))
    && (k.task == Destroying ==> p == Clearing)
    && (k.task == Thrown || k.task.Flagging? ==> k.failed)
    && (k.failed ==> p == Loaded && Ended(k.task) && (k.task == Thrown || s.switchingCancelled))
    && (k.task.Flagging? ==> k.task.todo <= s.comps.Keys)
    && (k.cancelled ==> SomeFailed(s))
  }

  predicate TaskOrder(s: State, p: Pass, c: Name)
    requires c in s.comps
  {
    forall d :: d in Neighbours(s, p, c) && Passed(s.comps[c].task, d) ==> Settled(s, d)
  }

  ghost predicate TaskInv(s: State, p: Pass, c: Name)
    requires c in s.comps
  {
    TaskShape(s, p, c) && (OrderGuaranteed(s) ==> TaskOrder(s, p, c))
  }

  ghost predicate PassInv(s: State) {
    s.main.Passing? ==>
      && (s.switchingCancelled ==> SomeFailed(s))
      && forall c :: c in s.comps ==> TaskInv(s, s.main.pass, c)
  }

  predicate MainInv(s: State) {
    && (s.main.CancelFlags? || s.main.CancelCalls? || s.main.CancelCall? || s.main.Preparing? ==> s.main.todo <= s.comps.Keys)
    && (s.main.CancelCall? ==> s.main.callee in s.comps)
    && (s.main.Loading? || s.main.CancelFlags? ==> !s.loadCancelled)
    && (s.main.CancelCalls? || s.main.CancelCall? || s.main.Joining? ==> s.loadCancelled)
    && (s.main.Serving? ==> !s.loadCancelled)
    && ((s.main.Passing? || s.main.Preparing?) && s.main.pass in {Loaded, Graceful} ==> !s.loadCancelled)
  }

  predicate EdgesOk(s: State) { forall c :: c in s.comps ==> EdgesInv(s, c) }
  predicate SafeOk(s: State) { forall c :: c in s.comps ==> SafeInv(s, c) }
  predicate LoadOk(s: State) { forall c :: c in s.comps ==> LoadInv(s, c) }
  predicate LateOk(s: State) { forall c :: c in s.comps ==> JoinedInv(s, c) && StageInv(s, c) && ObjectInv(s, c) }

  ghost predicate Inv(s: State) {
    && GraphInv(s)
    && MainInv(s)
    && PassInv(s)
    && EdgesOk(s)
    && SafeOk(s)
    && (if LoadPhase(s) then LoadOk(s) else LateOk(s))
  }

  lemma InitInv(names: set<Name>)
    ensures Inv(Init(names))
  {
    var s := Init(names);
    forall a ensures !Leads(s.itDependsOn, a, a) {
      assert Succ(s.itDependsOn, a) == {};
    }
  }

  // ----- Constructor tasks -----

  /** What a constructor step has to establish: all facts at the one component it touches. */
  predicate LocalOk(s: State, c: Name) {
    c in s.comps && EdgesInv(s, c) && SafeInv(s, c) && LoadInv(s, c)
  }

  lemma BuildStepLocal(s: State, c: Name, step: BuildStep)
    requires LocalOk(s, c) && LoadPhase(s) && BuildEnabled(s, c, step) && !step.Find?
    ensures var t := BuildApply(s, c, step);
            LocalOk(t, c) && (s.comps[c].component ==> t.comps[c].component) && t == Put(s, c, t.comps[c])
  {
    match step
    case StartConstructor =>
    case Peek =>
    case Wake =>
    case ConstructorThrows =>
    case SetComponent =>
    case SelfExchange =>
    case SelfCall =>
  }

  lemma OneComponentOthers(s: State, c: Name, k: Component)
    requires EdgesOk(s) && SafeOk(s) && LoadOk(s) && c in s.comps
    requires LocalOk(Put(s, c, k), c) && (s.comps[c].component ==> k.component)
    ensures var t := Put(s, c, k); EdgesOk(t) && SafeOk(t) && LoadOk(t)
  {
    var t := Put(s, c, k);
    forall x | x in t.comps ensures EdgesInv(t, x) && SafeInv(t, x) && LoadInv(t, x) {
      assert EdgesInv(s, x) && SafeInv(s, x) && LoadInv(s, x);
    }
  }

  /** The state after an edge is recorded, written out. */
  function EdgeRecorded(s: State, c: Name, d: Name): State
    requires c in s.comps
  {
    Put(s, c, s.comps[c].(build := Looking(d)))
    .(itDependsOn := WithEdge(s.itDependsOn, c, d), dependsOnIt := WithEdge(s.dependsOnIt, d, c))
  }

  lemma FindLocal(s: State, c: Name, d: Name)
    requires EdgesOk(s) && SafeOk(s) && LoadOk(s) && Is(s, c, Constructing)
    ensures var t := EdgeRecorded(s, c, d); EdgesOk(t) && SafeOk(t) && LoadOk(t)
  {
    var t := EdgeRecorded(s, c, d);
    forall x | x in t.comps ensures EdgesInv(t, x) && SafeInv(t, x) && LoadInv(t, x) {
      assert EdgesInv(s, x) && SafeInv(s, x) && LoadInv(s, x);
      assert Succ(t.itDependsOn, x) == Succ(s.itDependsOn, x) + if x == c then {d} else {};
    }
  }

  lemma FindKeepsGraph(s: State, c: Name, d: Name)
    requires GraphInv(s) && c in s.comps && d in s.comps && !ClosesCycle(s, c, d)
    ensures GraphInv(EdgeRecorded(s, c, d))
  {
    InverseWithEdge(s.itDependsOn, s.dependsOnIt, c, d);
    if d in Succ(s.itDependsOn, c) {
      EdgeKept(s.itDependsOn, c, d);
    } else {
      AcyclicWithEdge(s.itDependsOn, c, d);
    }
  }

  /** Constructor tasks run only while the manager loads. */
  lemma BuildStepMeansLoading(s: State, c: Name, step: BuildStep)
    requires if LoadPhase(s) then LoadOk(s) else LateOk(s)
    requires BuildEnabled(s, c, step)
    ensures LoadPhase(s)
  {
    assert !LoadPhase(s) ==> JoinedInv(s, c);
  }

  lemma FindKeepsInv(s: State, c: Name, d: Name)
    requires Inv(s) && LoadPhase(s) && BuildEnabled(s, c, Find(d))
    ensures Inv(BuildApply(s, c, Find(d)))
  {
    if d in s.comps && !ClosesCycle(s, c, d) {
      FindLocal(s, c, d);
      FindKeepsGraph(s, c, d);
      assert BuildApply(s, c, Find(d)) == EdgeRecorded(s, c, d);
    }
  }

  /** A change of one component while loading leaves the graph and the manager alone. */
  lemma PutKeepsInv(s: State, c: Name, k: Component)
    requires Inv(s) && LoadPhase(s) && c in s.comps
    requires var t := Put(s, c, k); EdgesOk(t) && SafeOk(t) && LoadOk(t)
    ensures Inv(Put(s, c, k))
  {
    var t := Put(s, c, k);
    assert t.comps.Keys == s.comps.Keys && t.main == s.main;
    assert GraphInv(t);
  }

  lemma OtherBuildKeepsInv(s: State, c: Name, step: BuildStep)
    requires Inv(s) && LoadPhase(s) && BuildEnabled(s, c, step) && !step.Find?
    ensures Inv(BuildApply(s, c, step))
  {
    var t := BuildApply(s, c, step);
    BuildStepLocal(s, c, step);
    OneComponentOthers(s, c, t.comps[c]);
    PutKeepsInv(s, c, t.comps[c]);
  }

  lemma BuildStepKeepsInv(s: State, c: Name, step: BuildStep)
    requires Inv(s) && BuildEnabled(s, c, step)
    ensures Inv(BuildApply(s, c, step))
  {
    BuildStepMeansLoading(s, c, step);
    if step.Find? {
      FindKeepsInv(s, c, step.dependency);
    } else {
      OtherBuildKeepsInv(s, c, step);
    }
  }

  // ----- The manager's task -----

  predicate SameObject(k: Component, k': Component) {
    k'.build == k.build && k'.alive == k.alive && k'.component == k.component && k'.obtained == k.obtained
  }

  lemma ObjectsKept(s: State, t: State)
    requires EdgesOk(s) && SafeOk(s) && t.itDependsOn == s.itDependsOn && t.comps.Keys == s.comps.Keys
    requires forall x :: x in s.comps ==> SameObject(s.comps[x], t.comps[x])
    ensures EdgesOk(t) && SafeOk(t)
  {
    forall x | x in t.comps ensures EdgesInv(t, x) && SafeInv(t, x) {
      assert EdgesInv(s, x) && SafeInv(s, x);
    }
  }

  lemma MainStepShape(s: State, step: MainStep)
    requires MainEnabled(s, step)
    ensures var t := MainApply(s, step);
            && t.itDependsOn == s.itDependsOn && t.dependsOnIt == s.dependsOnIt && t.comps.Keys == s.comps.Keys
            && forall x :: x in s.comps ==> SameObject(s.comps[x], t.comps[x])
  {
    match step
    case SetFlag(_) =>
    case MainExchange(_) =>
    case MainCall =>
    case ResetFlag(_) =>
    case StartPass =>
    case _ =>
  }

  lemma MainStepLoad(s: State, step: MainStep)
    requires MainInv(s) && EdgesOk(s) && LoadOk(s) && LoadPhase(s) && MainEnabled(s, step)
    requires LoadPhase(MainApply(s, step))
    ensures var t := MainApply(s, step); MainInv(t) && LoadOk(t)
  {
    var t := MainApply(s, step);
    forall x | x in t.comps ensures LoadInv(t, x) {
      assert LoadInv(s, x) && EdgesInv(s, x);
    }
  }

  lemma MainStepLoadOver(s: State, step: MainStep)
    requires MainInv(s) && EdgesOk(s) && LoadOk(s) && MainEnabled(s, step) && step in {LoadSucceeded, Joined}
    ensures var t := MainApply(s, step); MainInv(t) && LateOk(t)
  {
    var t := MainApply(s, step);
    forall x | x in t.comps ensures JoinedInv(t, x) && StageInv(t, x) && ObjectInv(t, x) {
      assert LoadInv(s, x) && EdgesInv(s, x);
    }
  }

  lemma MainStepLate(s: State, step: MainStep)
    requires MainInv(s) && LateOk(s) && !LoadPhase(s) && MainEnabled(s, step)
    ensures var t := MainApply(s, step); MainInv(t) && !LoadPhase(t) && LateOk(t)
  {
    var t := MainApply(s, step);
    forall x | x in t.comps ensures JoinedInv(t, x) && StageInv(t, x) && ObjectInv(t, x) {
      assert JoinedInv(s, x) && StageInv(s, x) && ObjectInv(s, x);
    }
  }

  lemma MainStepPass(s: State, step: MainStep)
    requires LoadPhase(s) || LateOk(s)
    requires MainEnabled(s, step)
    ensures PassInv(MainApply(s, step))
  {
    if step.StartPass? {
      var t := MainApply(s, step);
      forall x | x in t.comps ensures TaskInv(t, t.main.pass, x) {
        assert StageInv(s, x);
      }
    }
  }

  lemma MainStepKeepsInv(s: State, step: MainStep)
    requires Inv(s) && MainEnabled(s, step)
    ensures Inv(MainApply(s, step))
  {
    var t := MainApply(s, step);
    MainStepShape(s, step);
    ObjectsKept(s, t);
    MainStepPass(s, step);
    if !LoadPhase(s) {
      MainStepLate(s, step);
    } else if LoadPhase(t) {
      MainStepLoad(s, step);
    } else {
      MainStepLoadOver(s, step);
    }
  }

  // ----- Stage switching tasks -----

  predicate LateLocal(s: State, c: Name) {
    c in s.comps && JoinedInv(s, c) && StageInv(s, c) && ObjectInv(s, c)
  }

  lemma TaskStepLocal(s: State, c: Name, step: TaskStep)
    requires LateLocal(s, c) && TaskEnabled(s, c, step)
    requires s.comps[c].task == Destroying ==> s.main.pass == Clearing
    requires s.comps[c].task == Thrown || s.comps[c].task.Flagging? ==> s.main.pass == Loaded
    ensures LateLocal(TaskApply(s, c, step), c)
  {
    match step
    case FlagOther(_) =>
    case ExchangeCancelled =>
    case _ =>
  }

  /** What the step of one task leaves alone in every other component. */
  lemma TaskStepOthers(s: State, c: Name, step: TaskStep, x: Name)
    requires TaskEnabled(s, c, step) && x in s.comps
    ensures var t := TaskApply(s, c, step);
            && x in t.comps
            && (x != c ==> t.comps[x] == s.comps[x].(cancelled := t.comps[x].cancelled))
            && (x == c ==> t.comps[x] == TaskNext(s, c, step))
            && (step.FlagOther? || x == c || t.comps[x] == s.comps[x])
  {}

  lemma TaskStepFrame(s: State, c: Name, step: TaskStep)
    requires TaskEnabled(s, c, step)
    ensures var t := TaskApply(s, c, step);
            && t.main == s.main && t.loadCancelled == s.loadCancelled && t.comps.Keys == s.comps.Keys
            && t.itDependsOn == s.itDependsOn && t.dependsOnIt == s.dependsOnIt
  {}

  lemma TaskStepLate(s: State, c: Name, step: TaskStep)
    requires LateOk(s) && TaskEnabled(s, c, step) && TaskInv(s, s.main.pass, c)
    ensures LateOk(TaskApply(s, c, step))
  {
    var t := TaskApply(s, c, step);
    assert JoinedInv(s, c) && StageInv(s, c) && ObjectInv(s, c);
    TaskStepLocal(s, c, step);
    forall x | x in t.comps ensures JoinedInv(t, x) && StageInv(t, x) && ObjectInv(t, x) {
      if x != c {
        assert JoinedInv(s, x) && StageInv(s, x) && ObjectInv(s, x);
        TaskStepOthers(s, c, step, x);
      }
    }
  }

  /** When ClearComponent of c begins, no object that was handed c is left. */
  lemma ClearingIsLast(s: State, c: Name, x: Name)
    requires EdgesOk(s) && LateOk(s) && Inverse(s.itDependsOn, s.dependsOnIt)
    requires s.main == Passing(Clearing) && c in s.comps && TaskInv(s, Clearing, c) && Started(s.comps[c].task)
    requires x in s.comps && c in s.comps[x].obtained
    ensures !s.comps[x].alive
  {
    assert EdgesInv(s, x) && ObjectInv(s, x);
    assert c in Succ(s.itDependsOn, x);
    assert x in Neighbours(s, Clearing, c) && Passed(s.comps[c].task, x);
    assert Settled(s, x);
  }

  /** After the load, records keep what was built and handed out; objects and pointers only disappear. */
  predicate Shrunk(k: Component, k': Component) {
    && k'.build == k.build && k'.build in {Built, Failed} && k'.obtained == k.obtained
    && (k'.alive ==> k.alive) && (k'.component ==> k.component && k'.alive)
  }

  lemma ObjectsShrink(s: State, t: State)
    requires EdgesOk(s) && SafeOk(s) && t.itDependsOn == s.itDependsOn && t.comps.Keys == s.comps.Keys
    requires forall x :: x in s.comps ==> Shrunk(s.comps[x], t.comps[x])
    requires forall x, d :: x in s.comps && d in s.comps[x].obtained && t.comps[x].alive && d in s.comps ==>
               t.comps[d].component == s.comps[d].component
    ensures EdgesOk(t) && SafeOk(t)
  {
    forall x | x in t.comps ensures EdgesInv(t, x) && SafeInv(t, x) {
      assert EdgesInv(s, x) && SafeInv(s, x);
    }
  }

  lemma TaskStepShrinks(s: State, c: Name, step: TaskStep, x: Name)
    requires TaskEnabled(s, c, step) && LateLocal(s, x)
    requires s.comps[c].task == Destroying ==> s.main.pass == Clearing
    ensures var t := TaskApply(s, c, step);
            && x in t.comps && Shrunk(s.comps[x], t.comps[x])
            && (t.comps[x].component == s.comps[x].component || (x == c && step == Extract))
  {
    TaskStepOthers(s, c, step, x);
  }

  lemma TaskStepObjects(s: State, c: Name, step: TaskStep)
    requires EdgesOk(s) && SafeOk(s) && LateOk(s) && TaskEnabled(s, c, step)
    requires Inverse(s.itDependsOn, s.dependsOnIt) && TaskInv(s, s.main.pass, c)
    ensures var t := TaskApply(s, c, step); EdgesOk(t) && SafeOk(t)
  {
    var t := TaskApply(s, c, step);
    TaskStepFrame(s, c, step);
    forall x | x in s.comps
      ensures Shrunk(s.comps[x], t.comps[x])
      ensures t.comps[x].component == s.comps[x].component || (x == c && step == Extract)
    {
      assert JoinedInv(s, x) && StageInv(s, x) && ObjectInv(s, x);
      TaskStepShrinks(s, c, step, x);
    }
    if step == Extract {
      forall x | x in s.comps && c in s.comps[x].obtained ensures !s.comps[x].alive {
        ClearingIsLast(s, c, x);
      }
    }
    ObjectsShrink(s, t);
  }

  /** A component task step never takes back that a handler ended, failed, or that the pass is cancelled. */
  lemma TaskStepMonotone(s: State, c: Name, step: TaskStep)
    requires TaskEnabled(s, c, step)
    ensures var t := TaskApply(s, c, step);
            && (SomeFailed(s) ==> SomeFailed(t))
            && (OrderGuaranteed(t) ==> OrderGuaranteed(s))
            && forall d :: Settled(s, d) ==> Settled(t, d)
  {
    var t := TaskApply(s, c, step);
    if SomeFailed(s) {
      var x :| x in s.comps && s.comps[x].failed;
      TaskStepOthers(s, c, step, x);
    }
    forall d | Settled(s, d) ensures Settled(t, d) {
      TaskStepOthers(s, c, step, d);
    }
  }

  /** Where order is guaranteed, everything a started task transitively waits for is settled. */
  lemma {:induction false} StartedMeansSettled(s: State, x: Name, d: Name)
    requires PassInv(s) && s.main.Passing? && OrderGuaranteed(s)
    requires x in s.comps && Started(s.comps[x].task)
    requires Leads(PassGraph(s, s.main.pass), x, d)
    ensures Settled(s, d)
  {
    var g := PassGraph(s, s.main.pass);
    var m :| m in Succ(g, x) && Reach(g, m, d);
    var path :| PathFromTo(g, path, m, d);
    assert TaskInv(s, s.main.pass, x) && m in Neighbours(s, s.main.pass, x) && Passed(s.comps[x].task, m);
    var i := 0;
    while i < |path| - 1
      invariant 0 <= i < |path| && Settled(s, path[i])
    {
      assert TaskInv(s, s.main.pass, path[i]) && Started(s.comps[path[i]].task);
      assert path[i + 1] in Neighbours(s, s.main.pass, path[i]) && Passed(s.comps[path[i]].task, path[i + 1]);
      i := i + 1;
    }
  }

  /** A neighbour a task stops waiting for is settled, by its stage or, in a funnel, by the failure behind the flag. */
  lemma AwaitedIsSettled(s: State, c: Name, d: Name)
    requires PassInv(s) && LateOk(s) && GraphInv(s) && TaskEnabled(s, c, AwaitOne(d)) && OrderGuaranteed(s)
    requires d in Neighbours(s, s.main.pass, c)
    ensures Settled(s, d)
  {
    assert StageInv(s, d) && TaskInv(s, s.main.pass, d);
    if s.comps[d].stage != NextStage(s.main.pass) {
      var x :| x in s.comps && s.comps[x].failed;
      assert TaskInv(s, s.main.pass, x);
      if x != d {
        assert Reach(s.itDependsOn, x, d);
        ReachSplit(s.itDependsOn, x, d);
        StartedMeansSettled(s, x, d);
      }
    }
  }

  lemma TaskStepOtherTask(s: State, c: Name, step: TaskStep, x: Name)
    requires TaskEnabled(s, c, step) && x in s.comps && x != c
    requires TaskInv(s, s.main.pass, x) && TaskShape(s, s.main.pass, c)
    ensures TaskInv(TaskApply(s, c, step), s.main.pass, x)
  {
    TaskStepOthers(s, c, step, x);
    TaskStepOthers(s, c, step, c);
    TaskStepMonotone(s, c, step);
  }

  lemma TaskStepOwnShape(s: State, c: Name, step: TaskStep)
    requires TaskEnabled(s, c, step) && TaskShape(s, s.main.pass, c)
    ensures TaskShape(TaskApply(s, c, step), s.main.pass, c)
  {
    var t := TaskApply(s, c, step);
    TaskStepOthers(s, c, step, c);
    TaskStepMonotone(s, c, step);
    assert t.comps[c].failed ==> SomeFailed(t);
  }

  lemma TaskStepOwnOrder(s: State, c: Name, step: TaskStep)
    requires TaskEnabled(s, c, step) && TaskOrder(s, s.main.pass, c)
    requires step.AwaitOne? ==> Settled(s, step.d)
    ensures TaskOrder(TaskApply(s, c, step), s.main.pass, c)
  {
    var t := TaskApply(s, c, step);
    TaskStepOthers(s, c, step, c);
    TaskStepMonotone(s, c, step);
    forall d | d in Neighbours(t, s.main.pass, c) && Passed(t.comps[c].task, d) ensures Settled(t, d) {
      assert Passed(s.comps[c].task, d) || step == AwaitOne(d);
    }
  }

  lemma TaskStepPass(s: State, c: Name, step: TaskStep)
    requires PassInv(s) && LateOk(s) && GraphInv(s) && TaskEnabled(s, c, step)
    ensures PassInv(TaskApply(s, c, step))
  {
    var t := TaskApply(s, c, step);
    var p := s.main.pass;
    assert TaskInv(s, p, c);
    TaskStepFrame(s, c, step);
    TaskStepMonotone(s, c, step);
    TaskStepOwnShape(s, c, step);
    if OrderGuaranteed(t) {
      if step.AwaitOne? { AwaitedIsSettled(s, c, step.d); }
      TaskStepOwnOrder(s, c, step);
    }
    forall x | x in t.comps ensures TaskInv(t, p, x) {
      if x != c {
        assert TaskInv(s, p, x);
        TaskStepOtherTask(s, c, step, x);
      }
    }
    if t.switchingCancelled && !s.switchingCancelled {
      assert s.comps[c].failed;
    }
  }

  lemma TaskStepKeepsInv(s: State, c: Name, step: TaskStep)
    requires Inv(s) && TaskEnabled(s, c, step)
    ensures Inv(TaskApply(s, c, step))
  {
    assert TaskInv(s, s.main.pass, c);
    TaskStepFrame(s, c, step);
    TaskStepLate(s, c, step);
    TaskStepObjects(s, c, step);
    TaskStepPass(s, c, step);
  }

  /** Every step, of whichever task, keeps the invariant. */
  lemma StepKeepsInv(s: State, step: Step)
    requires Inv(s) && Enabled(s, step)
    ensures Inv(Apply(s, step))
  {
    match step
    case BuildS(c, b) => BuildStepKeepsInv(s, c, b);
    case MainS(m) => MainStepKeepsInv(s, m);
    case TaskS(c, t) => TaskStepKeepsInv(s, c, t);
  }

  lemma {:induction false} RunKeepsInv(s: State, steps: seq<Step>, t: State)
    requires Inv(s) && Run(s, steps, t)
    ensures Inv(t)
    decreases |steps|
  {
    if steps != [] {
      StepKeepsInv(s, steps[0]);
      RunKeepsInv(Apply(s, steps[0]), steps[1..], t);
    }
  }

  lemma ReachableInv(names: set<Name>, s: State)
    requires Reachable(names, s)
    ensures Inv(s)
  {
    var steps :| Run(Init(names), steps, s);
    InitInv(names);
    RunKeepsInv(Init(names), steps, s);
  }
}
