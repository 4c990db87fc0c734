/** What the three paths of `TaskPipeline` do, said event by event: which effects happen
    under which conditions, in which order, and what the result tells about them. */
module TaskEffects {
  import opened Wrappers
  import opened RustStrings
  import opened TaskPipeline

  /** The real run, the agent with tools, and the text-only agent with this token. */
  datatype Path = Plain | Tools | Texts(token: Option<string>)

  function RunOn(task: Task, w: World, path: Path): Run {
    match path
    case Plain => RealRun(task, w)
    case Tools => AgentToolRun(task, w)
    case Texts(token) => AgentRunOnly(task, w, token)
  }

  // --------------------------------------------------------------- conditions

  /** The clone is attempted. */
  predicate Begins(task: Task, w: World, path: Path) {
    ParseOwnerRepo(task.repo).Some? && (path.Texts? ==> Approved(w) && HasToken(path.token))
  }

  /** The working tree is ready to be staged. */
  predicate Prepared(task: Task, w: World, path: Path) {
    Begins(task, w, path) && w.cloneOk && w.branchOk && (path.Tools? ==> Approved(w))
  }

  predicate Tested(task: Task, w: World, path: Path) { Prepared(task, w, path) && w.stageOk }

  predicate Pushed(task: Task, w: World, path: Path) {
    Tested(task, w, path) && TestsPass(w.suites) && w.pushOk
  }

  predicate Opened(task: Task, w: World, path: Path) {
    Pushed(task, w, path) && w.clientOk && w.pr.Some?
  }

  predicate AgentRuns(task: Task, w: World, path: Path) {
    match path
    case Plain => false
    case Tools => Ready(task, w) && w.agent.AgentDone?
    case Texts(_) => w.agent.AgentDone?
  }

  /** When an effect happens, with which outcome. */
  predicate Happens(e: Event, task: Task, w: World, path: Path) {
    match e
    case Clone(ok) => Begins(task, w, path) && ok == w.cloneOk
    case Branch(ok) => Begins(task, w, path) && w.cloneOk && ok == w.branchOk
    case AgentRun(converged) => AgentRuns(task, w, path) && converged == w.agent.converged
    case Stage(ok) => Prepared(task, w, path) && ok == w.stageOk
    case Commit(ok) => Tested(task, w, path) && ok == w.commitOk
    case Tests(passed) => Tested(task, w, path) && passed == TestsPass(w.suites)
    case Push(ok) => Tested(task, w, path) && TestsPass(w.suites) && ok == w.pushOk
    case OpenPr(ok) => Pushed(task, w, path) && w.clientOk && ok == w.pr.Some?
    case Label(ok) => Opened(task, w, path) && task.labels != [] && ok == w.labelsOk
    case SpawnMerge => Opened(task, w, path) && task.autoMerge
    case WriteResult(ok) => ok == w.writeOk
  }

  /** The order of the effects; the text-only agent runs before anything is cloned. */
  function Place(e: Event, path: Path): int {
    match e
    case Clone(_) => 0
    case Branch(_) => 1
    case AgentRun(_) => if path.Texts? then -1 else 2
    case Stage(_) => 3
    case Commit(_) => 4
    case Tests(_) => 5
    case Push(_) => 6
    case OpenPr(_) => 7
    case Label(_) => 8
    case SpawnMerge => 9
    case WriteResult(_) => 10
  }

  ghost predicate InSequence(events: seq<Event>, path: Path) {
    forall i, j | 0 <= i < j < |events| :: Place(events[i], path) < Place(events[j], path)
  }

  // --------------------------------------------------- events kept from a plan

  type Plan = seq<(bool, Event)>

  /** The events of a plan that happen. */
  function Kept(plan: Plan): seq<Event> {
    if plan == [] then [] else Part(plan[0]) + Kept(plan[1..])
  }

  function Part(p: (bool, Event)): seq<Event> { if p.0 then [p.1] else [] }

  ghost predicate Planned(plan: Plan, e: Event) { exists i | 0 <= i < |plan| :: plan[i] == (true, e) }

  lemma {:induction false} KeptHas(plan: Plan, e: Event)
    ensures e in Kept(plan) <==> Planned(plan, e)
  {
    if plan != [] {
      KeptHas(plan[1..], e);
      assert forall i | 0 < i < |plan| :: plan[i] == plan[1..][i - 1];
      if Planned(plan[1..], e) {
        var i :| 0 <= i < |plan| - 1 && plan[1..][i] == (true, e);
        assert plan[i + 1] == (true, e);
      }
    }
  }

  lemma {:induction false} KeptInSequence(plan: Plan, path: Path)
    requires forall i, j | 0 <= i < j < |plan| :: Place(plan[i].1, path) < Place(plan[j].1, path)
    ensures InSequence(Kept(plan), path)
  {
    if plan != [] {
      var rest := plan[1..];
      KeptInSequence(rest, path);
      forall j | 0 <= j < |Kept(rest)|
        ensures Place(plan[0].1, path) < Place(Kept(rest)[j], path)
      {
        var e := Kept(rest)[j];
        assert e in Kept(rest);
        KeptHas(rest, e);
        var i :| 0 <= i < |rest| && rest[i] == (true, e);
        assert plan[i + 1] == rest[i];
      }
    }
  }

  lemma {:induction false} KeptConcat(a: Plan, b: Plan)
    ensures Kept(a + b) == Kept(a) + Kept(b)
  {
    if a == [] {
      assert a + b == b;
    } else {
      assert (a + b)[1..] == a[1..] + b;
      KeptConcat(a[1..], b);
      Regroup(Part(a[0]), Kept(a[1..]), Kept(b));
    }
  }

  lemma KeptOne(p: (bool, Event))
    ensures Kept([p]) == Part(p)
  {
    assert [p][1..] == [];
  }

  // -------------------------------------------------------------- the three runs

  function PublishPlan(task: Task, w: World, path: Path): Plan {
    [(Tested(task, w, path), Tests(TestsPass(w.suites))),
     (Tested(task, w, path) && TestsPass(w.suites), Push(w.pushOk)),
     (Pushed(task, w, path) && w.clientOk, OpenPr(w.pr.Some?)),
     (Opened(task, w, path) && task.labels != [], Label(w.labelsOk)),
     (Opened(task, w, path) && task.autoMerge, SpawnMerge)]
  }

  function CommitPlan(task: Task, w: World, path: Path): Plan {
    [(Prepared(task, w, path), Stage(w.stageOk)), (Tested(task, w, path), Commit(w.commitOk))]
  }

  function ClonePlan(task: Task, w: World, path: Path): Plan {
    [(Begins(task, w, path), Clone(w.cloneOk)), (Begins(task, w, path) && w.cloneOk, Branch(w.branchOk))]
  }

  function AgentPlan(task: Task, w: World, path: Path): Plan {
    [(AgentRuns(task, w, path), AgentRun(w.agent.AgentDone? && w.agent.converged))]
  }

  function FullPlan(task: Task, w: World, path: Path): Plan {
    (if path.Texts? then AgentPlan(task, w, path) + ClonePlan(task, w, path)
     else ClonePlan(task, w, path) + AgentPlan(task, w, path))
    + CommitPlan(task, w, path) + PublishPlan(task, w, path) + [(true, WriteResult(w.writeOk))]
  }

  lemma KeptTwo(a: (bool, Event), b: (bool, Event))
    ensures Kept([a, b]) == Part(a) + Part(b)
  {
    KeptOne(a);
    KeptOne(b);
    KeptConcat([a], [b]);
    assert [a, b] == [a] + [b];
  }

  lemma KeptFive(p: Plan)
    requires |p| == 5
    ensures Kept(p) == Part(p[0]) + Part(p[1]) + Part(p[2]) + Part(p[3]) + Part(p[4])
  {
    KeptConcat([p[0], p[1]], [p[2], p[3]]);
    KeptConcat([p[0], p[1]] + [p[2], p[3]], [p[4]]);
    KeptTwo(p[0], p[1]);
    KeptTwo(p[2], p[3]);
    KeptOne(p[4]);
    assert p == [p[0], p[1]] + [p[2], p[3]] + [p[4]];
    Regroup(Part(p[0]) + Part(p[1]), Part(p[2]), Part(p[3]));
  }

  /** The publishing phases keep exactly their plan, when they are reached. */
  lemma PublishKeeps(task: Task, w: World, path: Path, steps: seq<StepResult>)
    ensures Kept(PublishPlan(task, w, path)) ==
            if Tested(task, w, path) then PublishPhases(task, w, steps).events else []
  {
    var p := PublishPlan(task, w, path);
    KeptFive(p);
    var merge := if Opened(task, w, path) && task.autoMerge then [SpawnMerge] else [];
    var labels := if Opened(task, w, path) && task.labels != [] then [Label(w.labelsOk)] else [];
    assert Part(p[3]) == labels && Part(p[4]) == merge;
    if Opened(task, w, path) {
      assert Part(p[0]) + Part(p[1]) + Part(p[2]) == [Tests(true), Push(true), OpenPr(true)];
    } else {
      assert Kept(p) == Part(p[0]) + Part(p[1]) + Part(p[2]);
    }
  }

  lemma CommitKeeps(task: Task, w: World, path: Path, steps: seq<StepResult>)
    ensures Kept(CommitPlan(task, w, path)) + Kept(PublishPlan(task, w, path)) ==
            if Prepared(task, w, path) then CommitPhases(task, w, steps).events else []
  {
    var p := CommitPlan(task, w, path);
    KeptTwo(p[0], p[1]);
    PublishKeeps(task, w, path, steps);
    var publish := Kept(PublishPlan(task, w, path));
    if Tested(task, w, path) {
      assert Kept(p) == [Stage(true), Commit(w.commitOk)];
    } else {
      assert Kept(p) + publish == Part(p[0]);
    }
  }

  lemma CloneKeeps(task: Task, w: World, path: Path)
    ensures Kept(ClonePlan(task, w, path)) ==
            if !Begins(task, w, path) then []
            else if !w.cloneOk then [Clone(false)] else [Clone(true), Branch(w.branchOk)]
  {
    var p := ClonePlan(task, w, path);
    KeptTwo(p[0], p[1]);
  }

  /** The plan, put together from what its parts keep. */
  lemma PlanKeeps(task: Task, w: World, path: Path, steps: seq<StepResult>)
    ensures var agent, clone := Kept(AgentPlan(task, w, path)), Kept(ClonePlan(task, w, path));
            Kept(FullPlan(task, w, path)) ==
            (if path.Texts? then agent + clone else clone + agent)
            + (if Prepared(task, w, path) then CommitPhases(task, w, steps).events else [])
            + [WriteResult(w.writeOk)]
  {
    var agent, clone := AgentPlan(task, w, path), ClonePlan(task, w, path);
    var commit, publish := CommitPlan(task, w, path), PublishPlan(task, w, path);
    var start := if path.Texts? then agent + clone else clone + agent;
    KeptOne((true, WriteResult(w.writeOk)));
    KeptConcat(start + commit + publish, [(true, WriteResult(w.writeOk))]);
    KeptConcat(start + commit, publish);
    KeptConcat(start, commit);
    KeptConcat(agent, clone);
    KeptConcat(clone, agent);
    CommitKeeps(task, w, path, steps);
    Regroup(Kept(start), Kept(commit), Kept(publish));
  }

  lemma RunKeepsPlan(task: Task, w: World, path: Path)
    ensures RunOn(task, w, path).events == Kept(FullPlan(task, w, path))
  {
    var agentSteps := if w.agent.AgentDone? then w.agent.steps else [];
    match path
    case Plain => PlanKeeps(task, w, path, Steps(task.steps, Success)); PlainKeepsPlan(task, w);
    case Tools => PlanKeeps(task, w, path, agentSteps); ToolsKeepPlan(task, w);
    case Texts(token) => PlanKeeps(task, w, path, agentSteps); TextsKeepPlan(task, w, token);
  }

  lemma PlainKeepsPlan(task: Task, w: World)
    ensures var later := if Prepared(task, w, Plain)
                         then CommitPhases(task, w, Steps(task.steps, Success)).events else [];
            RealRun(task, w).events ==
            Kept(ClonePlan(task, w, Plain)) + Kept(AgentPlan(task, w, Plain)) + later + [WriteResult(w.writeOk)]
  {
    KeptOne(AgentPlan(task, w, Plain)[0]);
    CloneKeeps(task, w, Plain);
  }

  lemma ToolsKeepPlan(task: Task, w: World)
    ensures var later := if Prepared(task, w, Tools) then CommitPhases(task, w, w.agent.steps).events else [];
            AgentToolRun(task, w).events ==
            Kept(ClonePlan(task, w, Tools)) + Kept(AgentPlan(task, w, Tools)) + later + [WriteResult(w.writeOk)]
  {
    KeptOne(AgentPlan(task, w, Tools)[0]);
    CloneKeeps(task, w, Tools);
  }

  lemma TextsKeepPlan(task: Task, w: World, token: Option<string>)
    ensures var path := Texts(token);
            var later := if Prepared(task, w, path) then CommitPhases(task, w, w.agent.steps).events else [];
            AgentRunOnly(task, w, token).events ==
            Kept(AgentPlan(task, w, path)) + Kept(ClonePlan(task, w, path)) + later + [WriteResult(w.writeOk)]
  {
    var path := Texts(token);
    var later := if Prepared(task, w, path) then CommitPhases(task, w, w.agent.steps).events else [];
    KeptOne(AgentPlan(task, w, path)[0]);
    CloneKeeps(task, w, path);
    if Approved(w) && HasToken(token) {
      assert MaterializePhases(task, w).events == Kept(ClonePlan(task, w, path)) + later;
      Regroup([AgentRun(true)], Kept(ClonePlan(task, w, path)), later);
    }
  }

  lemma EffectIff(task: Task, w: World, path: Path, e: Event)
    ensures e in RunOn(task, w, path).events <==> Happens(e, task, w, path)
  {
    RunKeepsPlan(task, w, path);
    KeptHas(FullPlan(task, w, path), e);
    PlanIsHappening(task, w, path, e);
  }

  /** On each of the three paths, for every task and every outcome of every operation:
      an effect happens exactly under its conditions, at most once, and all of them in
      the order of their places. */
  lemma EffectsAreExact(task: Task, w: World, path: Path)
    ensures var events := RunOn(task, w, path).events;
            && (forall e :: e in events <==> Happens(e, task, w, path))
            && InSequence(events, path)
  {
    forall e
      ensures e in RunOn(task, w, path).events <==> Happens(e, task, w, path)
    {
      EffectIff(task, w, path, e);
    }
    RunKeepsPlan(task, w, path);
    PlanInSequence(task, w, path);
    KeptInSequence(FullPlan(task, w, path), path);
  }

  lemma PlanInSequence(task: Task, w: World, path: Path)
    ensures var plan := FullPlan(task, w, path);
            forall i, j | 0 <= i < j < |plan| :: Place(plan[i].1, path) < Place(plan[j].1, path)
  {}

  lemma PlannedConcat(a: Plan, b: Plan, e: Event)
    ensures Planned(a + b, e) <==> Planned(a, e) || Planned(b, e)
  {
    KeptHas(a, e);
    KeptHas(b, e);
    KeptHas(a + b, e);
    KeptConcat(a, b);
  }

  lemma PlanIsHappening(task: Task, w: World, path: Path, e: Event)
    ensures Planned(FullPlan(task, w, path), e) <==> Happens(e, task, w, path)
  {
    var agent, clone := AgentPlan(task, w, path), ClonePlan(task, w, path);
    var commit, publish := CommitPlan(task, w, path), PublishPlan(task, w, path);
    var start := if path.Texts? then agent + clone else clone + agent;
    var last: Plan := [(true, WriteResult(w.writeOk))];
    PlannedConcat(agent, clone, e);
    PlannedConcat(clone, agent, e);
    PlannedConcat(start, commit, e);
    PlannedConcat(start + commit, publish, e);
    PlannedConcat(start + commit + publish, last, e);
    assert Planned(last, e) <==> last[0] == (true, e);
    EarlyPlan(task, w, path, e);
    PublishPlanned(task, w, path, e);
  }

  lemma EarlyPlan(task: Task, w: World, path: Path, e: Event)
    ensures Planned(AgentPlan(task, w, path), e) <==> e.AgentRun? && Happens(e, task, w, path)
    ensures Planned(ClonePlan(task, w, path), e) <==> (e.Clone? || e.Branch?) && Happens(e, task, w, path)
    ensures Planned(CommitPlan(task, w, path), e) <==> (e.Stage? || e.Commit?) && Happens(e, task, w, path)
  {
    var a, c, m := AgentPlan(task, w, path), ClonePlan(task, w, path), CommitPlan(task, w, path);
    assert Planned(a, e) <==> a[0] == (true, e);
    assert Planned(c, e) <==> c[0] == (true, e) || c[1] == (true, e);
    assert Planned(m, e) <==> m[0] == (true, e) || m[1] == (true, e);
  }

  lemma PublishPlanned(task: Task, w: World, path: Path, e: Event)
    ensures Planned(PublishPlan(task, w, path), e) <==>
            (e.Tests? || e.Push? || e.OpenPr? || e.Label? || e.SpawnMerge?) && Happens(e, task, w, path)
  {
    var p := PublishPlan(task, w, path);
    assert Planned(p, e) <==> p[0] == (true, e) || p[1] == (true, e) || p[2] == (true, e)
                              || p[3] == (true, e) || p[4] == (true, e);
  }

  ghost predicate MergesAndLabels(events: seq<Event>, task: Task, w: World) {
    && (SpawnMerge in events <==> OpenPr(true) in events && task.autoMerge)
    && (Label(w.labelsOk) in events <==> OpenPr(true) in events && task.labels != [])
    && (forall i, j | 0 <= i < j < |events| :: events[i] != events[j])
  }

  /** So auto-merge is started exactly for an opened pull request of a task that asks for
      it, and labels are put exactly on an opened one of a task that has some; neither
      happens twice. */
  lemma AutoMergeIff(task: Task, w: World, path: Path)
    ensures MergesAndLabels(RunOn(task, w, path).events, task, w)
  {
    EffectIff(task, w, path, SpawnMerge);
    EffectIff(task, w, path, Label(w.labelsOk));
    EffectIff(task, w, path, OpenPr(true));
    NoRepeats(task, w, path);
    MergesFrom(RunOn(task, w, path).events, task, w, path);
  }

  lemma MergesFrom(events: seq<Event>, task: Task, w: World, path: Path)
    requires SpawnMerge in events <==> Happens(SpawnMerge, task, w, path)
    requires Label(w.labelsOk) in events <==> Happens(Label(w.labelsOk), task, w, path)
    requires OpenPr(true) in events <==> Happens(OpenPr(true), task, w, path)
    requires forall i, j | 0 <= i < j < |events| :: events[i] != events[j]
    ensures MergesAndLabels(events, task, w)
  {}

  lemma NoRepeats(task: Task, w: World, path: Path)
    ensures var events := RunOn(task, w, path).events; forall i, j | 0 <= i < j < |events| :: events[i] != events[j]
  {
    RunKeepsPlan(task, w, path);
    PlanInSequence(task, w, path);
    KeptInSequence(FullPlan(task, w, path), path);
    var events := RunOn(task, w, path).events;
    forall i, j | 0 <= i < j < |events|
      ensures events[i] != events[j]
    {
      assert Place(events[i], path) < Place(events[j], path);
    }
  }

  // -------------------------------------------------------------------- results

  /** Fresh results of the task's steps. */
  ghost predicate AreFresh(steps: seq<StepResult>, names: seq<string>, status: StepStatus) {
    |steps| == |names| && forall i | 0 <= i < |steps| :: steps[i] == StepResult(names[i], status, false)
  }

  /** The steps as they were, but for the last one if the tests were run: it carries their
      summary, and fails with them. */
  ghost predicate AreTested(steps: seq<StepResult>, before: seq<StepResult>, tested: bool, passed: bool) {
    && |steps| == |before|
    && forall i | 0 <= i < |steps| ::
         if tested && i == |steps| - 1 then
           && steps[i].step == before[i].step && steps[i].tested
           && steps[i].status == if passed then before[i].status else Failed
         else steps[i] == before[i]
  }

  /** The steps are those that the agent returned. */
  predicate FromAgent(task: Task, w: World, path: Path) {
    match path
    case Plain => false
    case Tools => Ready(task, w) && w.agent.AgentDone?
    case Texts(token) => w.agent.AgentDone? && (Approved(w) && HasToken(token) ==> Ready(task, w))
  }

  /** What every call reports, when its result file could be written: the pull request
      that was opened, if one was; whether the agent left a trace; and the steps, which
      are the agent's, or else all done in a ready working tree of the real run, or else
      all pending. */
  lemma ResultsAreExact(task: Task, w: World, path: Path)
    ensures var run, tested := RunOn(task, w, path), Tested(task, w, path);
            && (run.result.Some? <==> w.writeOk)
            && (w.writeOk ==>
                  var r := run.result.value;
                  && r.prUrl == (if Opened(task, w, path) then w.pr else None)
                  && (r.success <==> Opened(task, w, path) || (path.Texts? && Approved(w) && !HasToken(path.token)))
                  && (r.trace <==> AgentRuns(task, w, path))
                  && (if FromAgent(task, w, path) then AreTested(r.steps, w.agent.steps, tested, TestsPass(w.suites))
                      else exists anew ::
                        && AreFresh(anew, task.steps, if path.Plain? && Ready(task, w) then Success else Pending)
                        && AreTested(r.steps, anew, tested, TestsPass(w.suites))))
  {
    var anew := Steps(task.steps, if path.Plain? && Ready(task, w) then Success else Pending);
    assert AreFresh(anew, task.steps, if path.Plain? && Ready(task, w) then Success else Pending);
    if w.writeOk {
      var before := if FromAgent(task, w, path) then w.agent.steps else anew;
      StepsAreTested(task, w, path, before);
    }
  }

  lemma StepsAreTested(task: Task, w: World, path: Path, before: seq<StepResult>)
    requires w.writeOk
    requires before == if FromAgent(task, w, path) then w.agent.steps
                       else Steps(task.steps, if path.Plain? && Ready(task, w) then Success else Pending)
    ensures var r := RunOn(task, w, path).result;
            r.Some? && AreTested(r.value.steps, before, Tested(task, w, path), TestsPass(w.suites))
  {}

  /** A dry run works on a local branch only, and reports every step as done. */
  lemma DryRunIsExact(task: Task, w: World)
    ensures var run := DryRun(task, w);
            && (forall e :: e in run.events <==>
                  && w.workspaceOk
                  && (e == WriteResult(w.writeOk) || (Trim(task.branch) != "" && e == Branch(w.localBranchOk))))
            && (run.result.Some? <==> w.workspaceOk && w.writeOk)
            && (run.result.Some? ==>
                  && run.result.value.success && run.result.value.prUrl == None && !run.result.value.trace
                  && AreFresh(run.result.value.steps, task.steps, Success))
  {}

  /** What the server's dispatch means for the repository: something is pushed exactly
      when it is no dry run, there is a token, and everything up to the tests succeeds,
      with the agent's approval where there is an agent; and the agent is used exactly
      when there is one, on a ready working tree if there is a token. */
  lemma DispatchIsExact(task: Task, w: World, dryRun: bool, hasAgent: bool, token: Option<string>)
    ensures var events := Dispatch(task, w, dryRun, hasAgent, token).events;
            && (Push(w.pushOk) in events <==>
                  && !dryRun && token.Some? && Ready(task, w) && (hasAgent ==> Approved(w))
                  && w.stageOk && TestsPass(w.suites))
            && (AgentRun(true) in events || AgentRun(false) in events <==>
                  && !dryRun && hasAgent && w.agent.AgentDone? && (token.Some? ==> Ready(task, w)))
  {
    var path := if !hasAgent then Plain else if token.Some? then Tools else Texts(token);
    EffectIff(task, w, path, Push(w.pushOk));
    EffectIff(task, w, path, AgentRun(true));
    EffectIff(task, w, path, AgentRun(false));
  }
}
