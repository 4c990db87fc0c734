/** The task pipeline of src/task_executor.rs and its dispatch in src/server.rs, as
    runs over every choice of failing phase. */
module TaskPipeline {
  import opened Wrappers
  import opened RustStrings

  datatype Task = Task(repo: string, branch: string, steps: seq<string>, labels: seq<string>, autoMerge: bool)

  /** The outside world: which operation fails, and what the agent and the tests say. */
  datatype World = World(
    cloneOk: bool, branchOk: bool, agent: Agent, stageOk: bool, commitOk: bool, suites: Suites,
    pushOk: bool, clientOk: bool, pr: Option<string>, labelsOk: bool,
    workspaceOk: bool, localBranchOk: bool, writeOk: bool)

  /** The reviewer loop: an error, or a trace with its final steps and verdict. */
  datatype Agent = AgentError | AgentDone(converged: bool, steps: seq<StepResult>)

  /** What detecting the project types finds, and how each suite ends. */
  datatype Suites = DetectError | Detected(suites: seq<Suite>)

  datatype Suite = MixedProject | RunnerError | Ran(failed: nat)

  datatype StepStatus = Pending | Success | Failed

  datatype StepResult = StepResult(step: string, status: StepStatus, tested: bool)

  /** Every effect outside the process, in order. */
  datatype Event =
    | Clone(ok: bool) | Branch(ok: bool) | AgentRun(converged: bool) | Stage(ok: bool) | Commit(ok: bool)
    | Tests(passed: bool) | Push(ok: bool) | OpenPr(ok: bool) | Label(ok: bool) | SpawnMerge | WriteResult(ok: bool)

  datatype TaskResult = TaskResult(success: bool, prUrl: Option<string>, steps: seq<StepResult>, trace: bool)

  // ------------------------------------------------------------- pure helpers

  function FirstSlash(s: string): nat
    ensures FirstSlash(s) <= |s|
  {
    if s == "" || s[0] == '/' then 0 else 1 + FirstSlash(s[1..])
  }

  /** parse_owner_repo: split at the first slash, both sides non-empty. */
  function ParseOwnerRepo(repo: string): Option<(string, string)> {
    var i := FirstSlash(repo);
    if i == 0 || i >= |repo| - 1 then None else Some((repo[..i], repo[i + 1..]))
  }

  lemma {:induction false} FirstSlashIsFirst(s: string)
    ensures '/' !in s[..FirstSlash(s)]
    ensures FirstSlash(s) < |s| ==> s[FirstSlash(s)] == '/'
  {
    if s != "" && s[0] != '/' {
      FirstSlashIsFirst(s[1..]);
      assert s[..FirstSlash(s)] == [s[0]] + s[1..][..FirstSlash(s[1..])];
    }
  }

  lemma {:induction false} FirstSlashAfter(owner: string, name: string)
    requires '/' !in owner
    ensures FirstSlash(owner + "/" + name) == |owner|
  {
    if owner != "" {
      assert owner[0] in owner;
      assert (owner + "/" + name)[1..] == owner[1..] + "/" + name;
      FirstSlashAfter(owner[1..], name);
    }
  }

  /** A repository name is accepted exactly when it is an owner without slashes, a
      slash and a name, neither of them empty, and those are what it yields. */
  lemma OwnerRepoIffSplit(repo: string, owner: string, name: string)
    ensures ParseOwnerRepo(repo) == Some((owner, name)) <==>
            owner != "" && name != "" && '/' !in owner && repo == owner + "/" + name
  {
    var i := FirstSlash(repo);
    FirstSlashIsFirst(repo);
    if owner != "" && name != "" && '/' !in owner && repo == owner + "/" + name {
      FirstSlashAfter(owner, name);
      assert repo[..|owner|] == owner && repo[|owner| + 1..] == name;
    }
    if ParseOwnerRepo(repo) == Some((owner, name)) {
      assert repo == repo[..i] + [repo[i]] + repo[i + 1..];
    }
  }

  function Steps(steps: seq<string>, status: StepStatus): seq<StepResult> {
    seq(|steps|, i requires 0 <= i < |steps| => StepResult(steps[i], status, false))
  }

  /** The test summary goes onto the last step. */
  function MarkTested(steps: seq<StepResult>, passed: bool): seq<StepResult> {
    if steps == [] then []
    else
      var last := steps[|steps| - 1];
      steps[|steps| - 1 := last.(tested := true, status := if passed then last.status else Failed)]
  }

  predicate SuitePassed(s: Suite) { s.Ran? ==> s.failed == 0 }

  /** No suite that could be run reported a failure; nothing to run counts as passed. */
  predicate TestsPass(s: Suites) {
    s.Detected? ==> forall i | 0 <= i < |s.suites| :: SuitePassed(s.suites[i])
  }

  // ------------------------------------------------------------------- phases

  /** What a group of phases did and how it ended. */
  datatype Phases = Phases(events: seq<Event>, success: bool, prUrl: Option<string>, steps: seq<StepResult>)

  /** Tests, push, pull request, labels, auto-merge: the same in all three paths. */
  function PublishPhases(task: Task, w: World, steps: seq<StepResult>): Phases {
    var passed := TestsPass(w.suites);
    var marked := MarkTested(steps, passed);
    if !passed then Phases([Tests(false)], false, None, marked)
    else if !w.pushOk then Phases([Tests(true), Push(false)], false, None, marked)
    else if !w.clientOk then Phases([Tests(true), Push(true)], false, None, marked)
    else if w.pr.None? then Phases([Tests(true), Push(true), OpenPr(false)], false, None, marked)
    else
      Phases([Tests(true), Push(true), OpenPr(true)]
             + (if task.labels != [] then [Label(w.labelsOk)] else [])
             + (if task.autoMerge then [SpawnMerge] else []), true, w.pr, marked)
  }

  /** Staging, a commit whose failure is ignored, and publishing. */
  function CommitPhases(task: Task, w: World, steps: seq<StepResult>): Phases {
    if !w.stageOk then Phases([Stage(false)], false, None, steps)
    else
      var p := PublishPhases(task, w, steps);
      p.(events := [Stage(true), Commit(w.commitOk)] + p.events)
  }

  /** run_real_phases. */
  function RealPhases(task: Task, w: World): Phases {
    var early := Steps(task.steps, Pending);
    if ParseOwnerRepo(task.repo).None? then Phases([], false, None, early)
    else if !w.cloneOk then Phases([Clone(false)], false, None, early)
    else if !w.branchOk then Phases([Clone(true), Branch(false)], false, None, early)
    else
      var p := CommitPhases(task, w, Steps(task.steps, Success));
      p.(events := [Clone(true), Branch(true)] + p.events)
  }

  datatype AgentPhases = AgentPhases(phases: Phases, trace: bool)

  /** run_agent_tool_phases: the agent edits the clone before the commit. */
  function AgentToolPhases(task: Task, w: World): AgentPhases {
    var early := Steps(task.steps, Pending);
    if ParseOwnerRepo(task.repo).None? then AgentPhases(Phases([], false, None, early), false)
    else if !w.cloneOk then AgentPhases(Phases([Clone(false)], false, None, early), false)
    else if !w.branchOk then AgentPhases(Phases([Clone(true), Branch(false)], false, None, early), false)
    else if w.agent.AgentError? then AgentPhases(Phases([Clone(true), Branch(true)], false, None, early), false)
    else if !w.agent.converged then
      AgentPhases(Phases([Clone(true), Branch(true), AgentRun(false)], false, None, w.agent.steps), true)
    else
      var p := CommitPhases(task, w, w.agent.steps);
      AgentPhases(p.(events := [Clone(true), Branch(true), AgentRun(true)] + p.events), true)
  }

  /** materialize_and_push, after the reviewer approved. */
  function MaterializePhases(task: Task, w: World): Phases {
    var early := Steps(task.steps, Pending);
    if ParseOwnerRepo(task.repo).None? then Phases([], false, None, early)
    else if !w.cloneOk then Phases([Clone(false)], false, None, early)
    else if !w.branchOk then Phases([Clone(true), Branch(false)], false, None, early)
    else
      var p := CommitPhases(task, w, if w.agent.AgentDone? then w.agent.steps else []);
      p.(events := [Clone(true), Branch(true)] + p.events)
  }

  // ------------------------------------------------------------- entry points

  /** Everything one call did; no result means that the call returned an error. */
  datatype Run = Run(events: seq<Event>, result: Option<TaskResult>)

  /** The wrapper writes the result file on every path, and fails if it cannot. */
  function Recorded(w: World, p: Phases, trace: bool): Run {
    Run(p.events + [WriteResult(w.writeOk)],
        if w.writeOk then Some(TaskResult(p.success, p.prUrl, p.steps, trace)) else None)
  }

  function RealRun(task: Task, w: World): Run { Recorded(w, RealPhases(task, w), false) }

  function AgentToolRun(task: Task, w: World): Run {
    var a := AgentToolPhases(task, w);
    Recorded(w, a.phases, a.trace)
  }

  function AgentRunOnly(task: Task, w: World, token: Option<string>): Run {
    if w.agent.AgentError? then Recorded(w, Phases([], false, None, Steps(task.steps, Pending)), false)
    else if !w.agent.converged then Recorded(w, Phases([AgentRun(false)], false, None, w.agent.steps), true)
    else if token.None? || token.value == "" then
      Recorded(w, Phases([AgentRun(true)], true, None, w.agent.steps), true)
    else
      var p := MaterializePhases(task, w);
      Recorded(w, p.(events := [AgentRun(true)] + p.events), true)
  }

  function LocalBranch(task: Task, w: World): seq<Event> {
    if Trim(task.branch) == "" then [] else [Branch(w.localBranchOk)]
  }

  /** A dry run touches a local repository only; a blank branch name is skipped and a
      failing branch is tolerated. */
  function DryRun(task: Task, w: World): Run {
    if !w.workspaceOk then Run([], None)
    else Recorded(w, Phases(LocalBranch(task, w), true, None, Steps(task.steps, Success)), false)
  }

  /** The server's choice of entry point. */
  function Dispatch(task: Task, w: World, dryRun: bool, hasAgent: bool, token: Option<string>): Run {
    if dryRun then DryRun(task, w)
    else if hasAgent && token.Some? then AgentToolRun(task, w)
    else if hasAgent then AgentRunOnly(task, w, token)
    else if token.Some? then RealRun(task, w)
    else DryRun(task, w)
  }

  /** The executor as it runs: each phase appends its effect before the next begins. */
  class TaskExecutor {
    var log: seq<Event>

    constructor ()
      ensures log == []
    {
      log := [];
    }

    method RunTests(w: World) returns (passed: bool)
      modifies this
      ensures passed == TestsPass(w.suites) && log == old(log) + [Tests(passed)]
      ensures passed <==> (w.suites.Detected? ==>
                             forall i | 0 <= i < |w.suites.suites| && w.suites.suites[i].Ran? ::
                               w.suites.suites[i].failed == 0)
    {
      passed := true;
      if w.suites.Detected? {
        for i := 0 to |w.suites.suites|
          invariant log == old(log)
          invariant passed <==> forall k | 0 <= k < i :: SuitePassed(w.suites.suites[k])
        {
          var suite := w.suites.suites[i];
          if suite.MixedProject? { continue; }
          if suite.Ran? && suite.failed != 0 { passed := false; }
        }
      }
      log := log + [Tests(passed)];
    }

    method Publish(task: Task, w: World, steps: seq<StepResult>)
      returns (ok: bool, prUrl: Option<string>, out: seq<StepResult>)
      modifies this
      ensures Phases(log, ok, prUrl, out) == var p := PublishPhases(task, w, steps); p.(events := old(log) + p.events)
    {
      var passed := RunTests(w);
      out := steps;
      if |out| > 0 {
        var last := out[|out| - 1].(tested := true);
        if !passed { last := last.(status := Failed); }
        out := out[|out| - 1 := last];
      }
      if !passed { return false, None, out; }
      log := log + [Push(w.pushOk)];
      if !w.pushOk { return false, None, out; }
      if !w.clientOk { return false, None, out; }
      log := log + [OpenPr(w.pr.Some?)];
      if w.pr.None? { return false, None, out; }
      if task.labels != [] { log := log + [Label(w.labelsOk)]; }
      if task.autoMerge { log := log + [SpawnMerge]; }
      return true, w.pr, out;
    }

    method CommitAndPublish(task: Task, w: World, steps: seq<StepResult>)
      returns (ok: bool, prUrl: Option<string>, out: seq<StepResult>)
      modifies this
      ensures Phases(log, ok, prUrl, out) == var p := CommitPhases(task, w, steps); p.(events := old(log) + p.events)
    {
      log := log + [Stage(w.stageOk)];
      if !w.stageOk { return false, None, steps; }
      log := log + [Commit(w.commitOk)];
      ok, prUrl, out := Publish(task, w, steps);
      Regroup(old(log), [Stage(true), Commit(w.commitOk)], PublishPhases(task, w, steps).events);
    }

    /** Clone and branch; false when either fails. */
    method CloneAndBranch(task: Task, w: World) returns (ok: bool)
      modifies this
      ensures ok <==> ParseOwnerRepo(task.repo).Some? && w.cloneOk && w.branchOk
      ensures log == old(log) + (if ParseOwnerRepo(task.repo).None? then []
                                 else if !w.cloneOk then [Clone(false)] else [Clone(true), Branch(w.branchOk)])
    {
      if ParseOwnerRepo(task.repo).None? { return false; }
      log := log + [Clone(w.cloneOk)];
      if !w.cloneOk { return false; }
      log := log + [Branch(w.branchOk)];
      return w.branchOk;
    }

    method WriteResultFile(w: World)
      modifies this
      ensures log == old(log) + [WriteResult(w.writeOk)]
    {
      log := log + [WriteResult(w.writeOk)];
    }

    method ExecuteReal(task: Task, w: World) returns (r: Option<TaskResult>)
      modifies this
      ensures log == old(log) + RealRun(task, w).events && r == RealRun(task, w).result
    {
      ghost var p := RealPhases(task, w);
      var ok, prUrl, steps := false, None, Steps(task.steps, Pending);
      var ready := CloneAndBranch(task, w);
      if ready {
        steps := Steps(task.steps, Success);
        ok, prUrl, steps := CommitAndPublish(task, w, steps);
        Regroup(old(log), [Clone(true), Branch(true)], CommitPhases(task, w, Steps(task.steps, Success)).events);
      }
      assert log == old(log) + p.events;
      WriteResultFile(w);
      Regroup(old(log), p.events, [WriteResult(w.writeOk)]);
      return if w.writeOk then Some(TaskResult(ok, prUrl, steps, false)) else None;
    }

    method ExecuteWithAgentTools(task: Task, w: World) returns (r: Option<TaskResult>)
      modifies this
      ensures log == old(log) + AgentToolRun(task, w).events && r == AgentToolRun(task, w).result
    {
      ghost var p := AgentToolPhases(task, w).phases;
      var ok, prUrl, steps, trace := false, None, Steps(task.steps, Pending), false;
      var ready := CloneAndBranch(task, w);
      if ready && w.agent.AgentDone? {
        trace, steps := true, w.agent.steps;
        log := log + [AgentRun(w.agent.converged)];
        if w.agent.converged {
          ok, prUrl, steps := CommitAndPublish(task, w, steps);
          Regroup(old(log), [Clone(true), Branch(true), AgentRun(true)], CommitPhases(task, w, w.agent.steps).events);
        }
      }
      assert log == old(log) + p.events;
      WriteResultFile(w);
      Regroup(old(log), p.events, [WriteResult(w.writeOk)]);
      return if w.writeOk then Some(TaskResult(ok, prUrl, steps, trace)) else None;
    }

    method ExecuteWithAgent(task: Task, w: World, token: Option<string>) returns (r: Option<TaskResult>)
      modifies this
      ensures log == old(log) + AgentRunOnly(task, w, token).events && r == AgentRunOnly(task, w, token).result
    {
      if w.agent.AgentError? {
        WriteResultFile(w);
        return if w.writeOk then Some(TaskResult(false, None, Steps(task.steps, Pending), false)) else None;
      }
      log := log + [AgentRun(w.agent.converged)];
      if !w.agent.converged || token.None? || token.value == "" {
        WriteResultFile(w);
        return if w.writeOk then Some(TaskResult(w.agent.converged, None, w.agent.steps, true)) else None;
      }
      ghost var p := MaterializePhases(task, w);
      var ok, prUrl, steps := false, None, Steps(task.steps, Pending);
      var ready := CloneAndBranch(task, w);
      if ready {
        ok, prUrl, steps := CommitAndPublish(task, w, w.agent.steps);
        Regroup(old(log), [AgentRun(true), Clone(true), Branch(true)], CommitPhases(task, w, w.agent.steps).events);
      }
      assert log == old(log) + ([AgentRun(true)] + p.events);
      WriteResultFile(w);
      Regroup(old(log), [AgentRun(true)] + p.events, [WriteResult(w.writeOk)]);
      return if w.writeOk then Some(TaskResult(ok, prUrl, steps, true)) else None;
    }

    method ExecuteDryRun(task: Task, w: World) returns (r: Option<TaskResult>)
      modifies this
      ensures log == old(log) + DryRun(task, w).events && r == DryRun(task, w).result
    {
      if !w.workspaceOk { return None; }
      if Trim(task.branch) != "" { log := log + [Branch(w.localBranchOk)]; }
      var steps: seq<StepResult> := [];
      for i := 0 to |task.steps|
        invariant log == old(log) + LocalBranch(task, w)
        invariant steps == Steps(task.steps[..i], Success)
      {
        assert task.steps[..i + 1] == task.steps[..i] + [task.steps[i]];
        steps := steps + [StepResult(task.steps[i], Success, false)];
      }
      assert task.steps[..|task.steps|] == task.steps;
      WriteResultFile(w);
      return if w.writeOk then Some(TaskResult(true, None, steps, false)) else None;
    }

    method Serve(task: Task, w: World, dryRun: bool, hasAgent: bool, token: Option<string>)
      returns (r: Option<TaskResult>)
      modifies this
      ensures var run := Dispatch(task, w, dryRun, hasAgent, token);
              log == old(log) + run.events && r == run.result
    {
      if dryRun { r := ExecuteDryRun(task, w); }
      else if hasAgent && token.Some? { r := ExecuteWithAgentTools(task, w); }
      else if hasAgent { r := ExecuteWithAgent(task, w, token); }
      else if token.Some? { r := ExecuteReal(task, w); }
      else { r := ExecuteDryRun(task, w); }
    }
  }

  lemma Regroup(a: seq<Event>, b: seq<Event>, c: seq<Event>)
    ensures a + b + c == a + (b + c)
  {}

  // ------------------------------------------------------------------- safety

  /** Event e happened before position i. */
  ghost predicate Before(events: seq<Event>, i: nat, e: Event) {
    exists k :: 0 <= k < i && k < |events| && events[k] == e
  }

  /** What may be done only after what. */
  ghost predicate Ordered(events: seq<Event>, autoMerge: bool, agentPath: bool) {
    forall i | 0 <= i < |events| ::
      && (events[i].Push? ==>
            && Before(events, i, Clone(true)) && Before(events, i, Branch(true)) && Before(events, i, Stage(true))
            && (Before(events, i, Commit(true)) || Before(events, i, Commit(false)))
            && Before(events, i, Tests(true)) && (agentPath ==> Before(events, i, AgentRun(true))))
      && (events[i].OpenPr? ==> Before(events, i, Push(true)))
      && (events[i].Label? ==> Before(events, i, OpenPr(true)))
      && (events[i].SpawnMerge? ==> Before(events, i, OpenPr(true)) && autoMerge)
  }

  ghost predicate Has(events: seq<Event>, e: Event) { Before(events, |events|, e) }

  /** The result file is attempted once, last, and the call's answer depends on it. */
  ghost predicate WritesOnce(run: Run) {
    && run.events != []
    && run.events[|run.events| - 1].WriteResult?
    && (forall i | 0 <= i < |run.events| - 1 :: !run.events[i].WriteResult?)
    && (run.result.Some? <==> run.events[|run.events| - 1].ok)
  }

  /** The answer agrees with what was done. */
  ghost predicate Honest(run: Run) {
    run.result.Some? ==>
      && (!run.result.value.success ==> run.result.value.prUrl == None)
      && (run.result.value.prUrl.Some? <==> Has(run.events, OpenPr(true)))
  }

  ghost predicate Safe(run: Run, task: Task, agentPath: bool) {
    Ordered(run.events, task.autoMerge, agentPath) && WritesOnce(run) && Honest(run)
  }

  ghost predicate Publishing(e: Event) { e.Push? || e.OpenPr? || e.Label? || e.SpawnMerge? }

  /** The order within the publishing phases, given what must come before them. */
  ghost predicate PublishOrdered(events: seq<Event>, autoMerge: bool) {
    && (forall i | 0 <= i < |events| :: !events[i].WriteResult?)
    && forall i | 0 <= i < |events| ::
         && (events[i].Push? ==> Before(events, i, Tests(true)))
         && (events[i].OpenPr? ==> Before(events, i, Push(true)))
         && (events[i].Label? ==> Before(events, i, OpenPr(true)))
         && (events[i].SpawnMerge? ==> Before(events, i, OpenPr(true)) && autoMerge)
  }

  lemma PublishIsOrdered(task: Task, w: World, steps: seq<StepResult>)
    ensures var p := PublishPhases(task, w, steps);
            && PublishOrdered(p.events, task.autoMerge)
            && (!p.success ==> p.prUrl == None) && (p.prUrl.Some? <==> Has(p.events, OpenPr(true)))
  {
    var p := PublishPhases(task, w, steps);
    PublishEvents(task, w, steps);
    OrderedByPlace(p.events, TestsPass(w.suites), w.pushOk, w.pr.Some?, task.autoMerge);
  }

  /** Events that stand in these places are ordered. */
  lemma OrderedByPlace(events: seq<Event>, passed: bool, pushed: bool, prOpen: bool, autoMerge: bool)
    requires |events| >= 1 && events[0] == Tests(passed)
    requires |events| >= 2 ==> passed && events[1] == Push(pushed)
    requires |events| >= 3 ==> pushed && events[2] == OpenPr(prOpen)
    requires |events| >= 4 ==> prOpen
    requires forall i | 3 <= i < |events| :: events[i].Label? || (events[i].SpawnMerge? && autoMerge)
    ensures PublishOrdered(events, autoMerge)
    ensures Has(events, OpenPr(true)) <==> |events| >= 3 && prOpen
  {
    assert |events| >= 3 && prOpen ==> events[2] == OpenPr(true);
  }

  /** Which publishing event can stand where. */
  lemma PublishEvents(task: Task, w: World, steps: seq<StepResult>)
    ensures var p := PublishPhases(task, w, steps);
            && |p.events| >= 1 && p.events[0] == Tests(TestsPass(w.suites))
            && (|p.events| >= 2 ==> TestsPass(w.suites) && p.events[1] == Push(w.pushOk))
            && (|p.events| >= 3 ==> w.pushOk && p.events[2] == OpenPr(w.pr.Some?))
            && (|p.events| >= 4 ==> w.pr.Some?)
            && (forall i | 3 <= i < |p.events| :: p.events[i].Label? || (p.events[i].SpawnMerge? && task.autoMerge))
            && (!p.success ==> p.prUrl == None) && (p.prUrl.Some? <==> |p.events| >= 3 && w.pr.Some?)
  {}

  /** A preparation that publishes nothing and contains what a push needs. */
  ghost predicate Prepares(pre: seq<Event>, agentPath: bool) {
    && (forall i | 0 <= i < |pre| :: !Publishing(pre[i]) && !pre[i].WriteResult?)
    && Has(pre, Clone(true)) && Has(pre, Branch(true)) && Has(pre, Stage(true))
    && (Has(pre, Commit(true)) || Has(pre, Commit(false)))
    && (agentPath ==> Has(pre, AgentRun(true)))
  }

  /** What came before stays before, behind a preparation and ahead of the result file. */
  lemma BeforeBehind(pre: seq<Event>, events: seq<Event>, last: Event, i: nat, e: Event)
    requires i <= |events|
    ensures Has(pre, e) ==> Before(pre + events + [last], |pre| + i, e)
    ensures Before(events, i, e) ==> Before(pre + events + [last], |pre| + i, e)
  {
    var all := pre + events + [last];
    if Has(pre, e) {
      var k :| 0 <= k < |pre| && pre[k] == e;
      assert all[k] == e;
    }
    if Before(events, i, e) {
      var k :| 0 <= k < i && k < |events| && events[k] == e;
      assert all[|pre| + k] == e;
    }
  }

  lemma OrderedBehind(pre: seq<Event>, events: seq<Event>, last: Event, autoMerge: bool, agentPath: bool)
    requires Prepares(pre, agentPath) && PublishOrdered(events, autoMerge) && !Publishing(last)
    ensures Ordered(pre + events + [last], autoMerge, agentPath)
  {
    var all := pre + events + [last];
    assert forall j | 0 <= j < |pre| :: all[j] == pre[j] && !Publishing(all[j]);
    forall j | 0 <= j < |all| && Publishing(all[j])
      ensures |pre| <= j < |pre| + |events| && all[j] == events[j - |pre|]
      ensures forall e :: Has(pre, e) || Before(events, j - |pre|, e) ==> Before(all, j, e)
    {
      forall e | Has(pre, e) || Before(events, j - |pre|, e)
        ensures Before(all, j, e)
      {
        BeforeBehind(pre, events, last, j - |pre|, e);
      }
    }
  }

  /** The publishing phases are safe behind any preparation. */
  lemma SafeBehind(pre: seq<Event>, p: Phases, w: World, task: Task, agentPath: bool, trace: bool)
    requires Prepares(pre, agentPath) && PublishOrdered(p.events, task.autoMerge)
    requires (!p.success ==> p.prUrl == None) && (p.prUrl.Some? <==> Has(p.events, OpenPr(true)))
    ensures Safe(Recorded(w, p.(events := pre + p.events), trace), task, agentPath)
  {
    var last := WriteResult(w.writeOk);
    var all := pre + p.events + [last];
    OrderedBehind(pre, p.events, last, task.autoMerge, agentPath);
    BeforeBehind(pre, p.events, last, |p.events|, OpenPr(true));
    assert forall j | 0 <= j < |pre| :: all[j] == pre[j] && !Publishing(all[j]);
    if Has(all, OpenPr(true)) {
      var k :| 0 <= k < |all| && all[k] == OpenPr(true);
      assert p.events[k - |pre|] == OpenPr(true);
    }
  }

  /** A run that never gets to publishing. */
  lemma SafeEarly(p: Phases, w: World, task: Task, agentPath: bool, trace: bool)
    requires forall i | 0 <= i < |p.events| :: !Publishing(p.events[i]) && !p.events[i].WriteResult?
    requires p.prUrl == None
    ensures Safe(Recorded(w, p, trace), task, agentPath)
  {
    var events := Recorded(w, p, trace).events;
    assert forall i | 0 <= i < |events| :: !Publishing(events[i]);
  }

  /** Committing and publishing, behind a clone, a branch and perhaps the agent. */
  lemma CommitIsSafe(pre: seq<Event>, task: Task, w: World, steps: seq<StepResult>, agentPath: bool, trace: bool)
    requires forall i | 0 <= i < |pre| :: !Publishing(pre[i]) && !pre[i].WriteResult?
    requires Has(pre, Clone(true)) && Has(pre, Branch(true)) && (agentPath ==> Has(pre, AgentRun(true)))
    ensures var p := CommitPhases(task, w, steps);
            Safe(Recorded(w, p.(events := pre + p.events), trace), task, agentPath)
  {
    var p := CommitPhases(task, w, steps);
    var q := p.(events := pre + p.events);
    if w.stageOk {
      var all := pre + [Stage(true), Commit(w.commitOk)];
      var published := PublishPhases(task, w, steps);
      assert forall e :: Has(pre, e) ==> Has(all, e) by {
        forall e | Has(pre, e)
          ensures Has(all, e)
        {
          var k :| 0 <= k < |pre| && pre[k] == e;
          assert all[k] == e;
        }
      }
      assert all[|pre|] == Stage(true) && all[|pre| + 1] == Commit(w.commitOk);
      PublishIsOrdered(task, w, steps);
      SafeBehind(all, published, w, task, agentPath, trace);
      Regroup(pre, [Stage(true), Commit(w.commitOk)], published.events);
    } else {
      SafeEarly(q, w, task, agentPath, trace);
    }
  }

  lemma RealRunIsSafe(task: Task, w: World)
    ensures Safe(RealRun(task, w), task, false)
  {
    if ParseOwnerRepo(task.repo).Some? && w.cloneOk && w.branchOk {
      var pre := [Clone(true), Branch(true)];
      assert pre[0] == Clone(true) && pre[1] == Branch(true);
      CommitIsSafe(pre, task, w, Steps(task.steps, Success), false, false);
    } else {
      SafeEarly(RealPhases(task, w), w, task, false, false);
    }
  }

  lemma AgentToolRunIsSafe(task: Task, w: World)
    ensures Safe(AgentToolRun(task, w), task, true)
  {
    if ParseOwnerRepo(task.repo).Some? && w.cloneOk && w.branchOk && w.agent.AgentDone? && w.agent.converged {
      var pre := [Clone(true), Branch(true), AgentRun(true)];
      assert pre[0] == Clone(true) && pre[1] == Branch(true) && pre[2] == AgentRun(true);
      CommitIsSafe(pre, task, w, w.agent.steps, true, true);
    } else {
      SafeEarly(AgentToolPhases(task, w).phases, w, task, true, AgentToolPhases(task, w).trace);
    }
  }

  lemma AgentRunOnlyIsSafe(task: Task, w: World, token: Option<string>)
    ensures Safe(AgentRunOnly(task, w, token), task, true)
  {
    if w.agent.AgentError? {
      SafeEarly(Phases([], false, None, Steps(task.steps, Pending)), w, task, true, false);
    } else if !w.agent.converged {
      SafeEarly(Phases([AgentRun(false)], false, None, w.agent.steps), w, task, true, true);
    } else if token.None? || token.value == "" {
      SafeEarly(Phases([AgentRun(true)], true, None, w.agent.steps), w, task, true, true);
    } else {
      ApprovedIsSafe(task, w);
    }
  }

  lemma ApprovedIsSafe(task: Task, w: World)
    requires w.agent.AgentDone?
    ensures var p := MaterializePhases(task, w);
            Safe(Recorded(w, p.(events := [AgentRun(true)] + p.events), true), task, true)
  {
    var p := MaterializePhases(task, w);
    if ParseOwnerRepo(task.repo).Some? && w.cloneOk && w.branchOk {
      var pre := [AgentRun(true), Clone(true), Branch(true)];
      assert pre[0] == AgentRun(true) && pre[1] == Clone(true) && pre[2] == Branch(true);
      var q := CommitPhases(task, w, w.agent.steps);
      CommitIsSafe(pre, task, w, w.agent.steps, true, true);
      assert [AgentRun(true)] + p.events == pre + q.events;
    } else {
      SafeEarly(p.(events := [AgentRun(true)] + p.events), w, task, true, true);
    }
  }

  /** Pipeline safety, for every task, every outcome of every operation, and every way
      the server dispatches: nothing is pushed unless the clone, the branch, the staging,
      a commit attempt and passing tests came first, and on the agent paths the
      reviewer's approval; a pull request follows a push, auto-merge a pull request and
      a request for it; no failed result names a pull request; the result file is
      attempted exactly once, last; and a dry run publishes nothing. */
  lemma PipelineIsSafe(task: Task, w: World, dryRun: bool, hasAgent: bool, token: Option<string>)
    ensures var run := Dispatch(task, w, dryRun, hasAgent, token);
            && Ordered(run.events, task.autoMerge, hasAgent)
            && Honest(run)
            && (!dryRun && (hasAgent || token.Some?) ==> WritesOnce(run))
            && (dryRun || token.None? ==> forall i | 0 <= i < |run.events| :: !Publishing(run.events[i]))
  {
    if !dryRun && hasAgent && token.Some? {
      AgentToolRunIsSafe(task, w);
    } else if !dryRun && hasAgent {
      AgentRunOnlyIsSafe(task, w, token);
    } else if !dryRun && token.Some? {
      RealRunIsSafe(task, w);
    } else {
      DryRunPublishesNothing(task, w);
    }
  }

  lemma DryRunPublishesNothing(task: Task, w: World)
    ensures forall i | 0 <= i < |DryRun(task, w).events| :: !Publishing(DryRun(task, w).events[i])
    ensures Honest(DryRun(task, w))
  {}

  predicate Ready(task: Task, w: World) { ParseOwnerRepo(task.repo).Some? && w.cloneOk && w.branchOk }

  predicate Approved(w: World) { w.agent.AgentDone? && w.agent.converged }

  predicate HasToken(token: Option<string>) { token.Some? && token.value != "" }

  ghost predicate Succeeds(run: Run) { run.result.Some? && run.result.value.success }

  /** Everything that publishing needs; the commit and the labels are best effort. */
  predicate Publishable(task: Task, w: World) {
    && Ready(task, w) && w.stageOk && TestsPass(w.suites) && w.pushOk && w.clientOk && w.pr.Some?
  }

  /** Exactly when each of the three paths succeeds, and that success means an opened pull
      request, except on the text-only path without a token, where approval is enough. */
  lemma RunsSucceedIff(task: Task, w: World, token: Option<string>)
    ensures var (plain, tools, texts) := (RealRun(task, w), AgentToolRun(task, w), AgentRunOnly(task, w, token));
            && (Succeeds(plain) <==> w.writeOk && Publishable(task, w))
            && (Succeeds(tools) <==> w.writeOk && Publishable(task, w) && Approved(w))
            && (Succeeds(texts) <==> w.writeOk && Approved(w) && (HasToken(token) ==> Publishable(task, w)))
            && (Succeeds(plain) <==> w.writeOk && Has(plain.events, OpenPr(true)))
            && (Succeeds(tools) <==> w.writeOk && Has(tools.events, OpenPr(true)))
            && (HasToken(token) ==> (Succeeds(texts) <==> w.writeOk && Has(texts.events, OpenPr(true))))
  {
    RealRunIsSafe(task, w);
    AgentToolRunIsSafe(task, w);
    AgentRunOnlyIsSafe(task, w, token);
    if !w.writeOk { return; }
    assert Honest(RealRun(task, w)) && Honest(AgentToolRun(task, w)) && Honest(AgentRunOnly(task, w, token));
  }

  // --------------------------------------------- pushes with nothing behind them

  ghost predicate PushAt(events: seq<Event>, i: nat) { i < |events| && events[i].Push? }

  ghost predicate Pushes(events: seq<Event>) { exists i :: PushAt(events, i) }

  /** Something is pushed with no successful commit before it. */
  ghost predicate PushesUncommitted(events: seq<Event>) {
    exists i :: PushAt(events, i) && !Before(events, i, Commit(true))
  }

  predicate SomeSuiteRan(s: Suites) { s.Detected? && exists i | 0 <= i < |s.suites| :: s.suites[i].Ran? }

  /** Exactly when a run pushes, pushes without a commit, and pushes without any test
      having run, for a run that gets to committing if and only if `reached`. */
  ghost predicate PushIff(events: seq<Event>, w: World, reached: bool) {
    && (Pushes(events) <==> reached && w.stageOk && TestsPass(w.suites))
    && (PushesUncommitted(events) <==> reached && w.stageOk && TestsPass(w.suites) && !w.commitOk)
    && (Pushes(events) && !SomeSuiteRan(w.suites) <==> reached && w.stageOk && !SomeSuiteRan(w.suites))
  }

  /** A failing commit does not stop a push, and neither does a workspace without tests.
      On each of the three paths the condition is exact. */
  lemma PushWithoutCommitOrTests(task: Task, w: World, token: Option<string>)
    ensures PushIff(RealRun(task, w).events, w, Ready(task, w))
    ensures PushIff(AgentToolRun(task, w).events, w, Ready(task, w) && Approved(w))
    ensures PushIff(AgentRunOnly(task, w, token).events, w, Ready(task, w) && Approved(w) && HasToken(token))
  {
    RealPushIff(task, w);
    AgentToolPushIff(task, w);
    AgentOnlyPushIff(task, w, token);
  }

  lemma RealPushIff(task: Task, w: World)
    ensures PushIff(RealRun(task, w).events, w, Ready(task, w))
  {
    if Ready(task, w) {
      CommitPushIff([Clone(true), Branch(true)], task, w, Steps(task.steps, Success));
    }
  }

  lemma AgentToolPushIff(task: Task, w: World)
    ensures PushIff(AgentToolRun(task, w).events, w, Ready(task, w) && Approved(w))
  {
    if Ready(task, w) && w.agent.AgentDone? {
      CommitPushIff([Clone(true), Branch(true), AgentRun(true)], task, w, w.agent.steps);
    }
  }

  lemma AgentOnlyPushIff(task: Task, w: World, token: Option<string>)
    ensures PushIff(AgentRunOnly(task, w, token).events, w, Ready(task, w) && Approved(w) && HasToken(token))
  {
    if Ready(task, w) && w.agent.AgentDone? {
      AgentFirst(CommitPhases(task, w, w.agent.steps).events);
      CommitPushIff([AgentRun(true), Clone(true), Branch(true)], task, w, w.agent.steps);
    }
  }

  lemma AgentFirst(events: seq<Event>)
    ensures [AgentRun(true)] + ([Clone(true), Branch(true)] + events)
         == [AgentRun(true), Clone(true), Branch(true)] + events
  {}

  lemma CommitPushIff(pre: seq<Event>, task: Task, w: World, steps: seq<StepResult>)
    requires forall i | 0 <= i < |pre| :: !pre[i].Push? && !pre[i].Commit?
    ensures PushIff(pre + CommitPhases(task, w, steps).events + [WriteResult(w.writeOk)], w, true)
  {
    var events := pre + CommitPhases(task, w, steps).events + [WriteResult(w.writeOk)];
    var n := |pre|;
    if w.stageOk {
      PublishEvents(task, w, steps);
      var published := PublishPhases(task, w, steps).events;
      assert events == pre + [Stage(true), Commit(w.commitOk)] + published + [WriteResult(w.writeOk)];
      assert events[n + 1] == Commit(w.commitOk) && events[n + 2] == published[0];
      assert |published| >= 2 ==> events[n + 3] == published[1];
      assert TestsPass(w.suites) ==> PushAt(events, n + 3);
      assert forall i | 0 <= i < n :: events[i] == pre[i];
      assert forall i | n + 2 <= i < |events| - 1 :: events[i] == published[i - n - 2];
      assert forall i :: PushAt(events, i) ==> i == n + 3;
    } else {
      assert events == pre + [Stage(false), WriteResult(w.writeOk)];
      assert forall i :: !PushAt(events, i);
    }
  }
}
