/** The semaphore-gated passes of src/sync_scheduler.rs and src/indexing.rs, as a step
    system over every interleaving of their tasks. */
module GatedPasses {

  datatype Outcome = Success | Failure | Panic

  /** Where one spawned task is: before its permit, holding it, doing the work, done
      with the work but still holding the permit, finished. */
  datatype Phase = Waiting | Permitted | Running | Leaving(outcome: Outcome) | Done(outcome: Outcome)

  datatype Lock = Free | Held(task: nat) | Outside

  /** A pass over `count` due ids.  The sync pass works under a write lock that others
      take too; the batch indexer needs only the permit. */
  datatype Pass = Pass(count: nat, concurrency: nat, locked: bool)

  /** `joined` and `results` are what the draining loop has seen and kept. */
  datatype State = State(permits: nat, lock: Lock, phases: seq<Phase>, joined: seq<nat>, results: seq<nat>)

  datatype Step =
    | Acquire(i: nat) | Enter(i: nat) | Finish(i: nat, outcome: Outcome) | Leave(i: nat) | Join(i: nat)
    | OutsideTakes | OutsideGives

  function Start(p: Pass): State {
    State(p.concurrency, Free, seq(p.count, i => Waiting), [], [])
  }

  predicate Enabled(p: Pass, s: State, step: Step) {
    match step
    case Acquire(i) => i < |s.phases| && s.phases[i].Waiting? && s.permits > 0
    case Enter(i) => i < |s.phases| && s.phases[i].Permitted? && (p.locked ==> s.lock.Free?)
    case Finish(i, _) => i < |s.phases| && s.phases[i].Running?
    case Leave(i) => i < |s.phases| && s.phases[i].Leaving?
    case Join(i) => i < |s.phases| && s.phases[i].Done? && i !in s.joined
    case OutsideTakes => p.locked && s.lock.Free?
    case OutsideGives => s.lock.Outside?
  }

  /** A panic unwinds through both guards; otherwise the lock is dropped before the
      result is handed over and the permit after it. */
  function Do(p: Pass, s: State, step: Step): (s2: State)
    requires Enabled(p, s, step)
    ensures |s2.phases| == |s.phases|
  {
    match step
    case Acquire(i) => s.(permits := s.permits - 1, phases := s.phases[i := Permitted])
    case Enter(i) => s.(lock := if p.locked then Held(i) else s.lock, phases := s.phases[i := Running])
    case Finish(i, o) =>
      var lock := if p.locked then Free else s.lock;
      if o.Panic? then s.(lock := lock, permits := s.permits + 1, phases := s.phases[i := Done(Panic)])
      else s.(lock := lock, phases := s.phases[i := Leaving(o)])
    case Leave(i) => s.(permits := s.permits + 1, phases := s.phases[i := Done(s.phases[i].outcome)])
    case Join(i) =>
      s.(joined := s.joined + [i],
         results := if s.phases[i].outcome.Success? then s.results + [i] else s.results)
    case OutsideTakes => s.(lock := Outside)
    case OutsideGives => s.(lock := Free)
  }

  /** A run: steps that were each enabled when they were taken. */
  predicate CanRun(p: Pass, s: State, steps: seq<Step>)
    decreases |steps|
  {
    steps != [] ==> Enabled(p, s, steps[0]) && CanRun(p, Do(p, s, steps[0]), steps[1..])
  }

  function After(p: Pass, s: State, steps: seq<Step>): (s2: State)
    requires CanRun(p, s, steps)
    ensures |s2.phases| == |s.phases|
    decreases |steps|
  {
    if steps == [] then s else After(p, Do(p, s, steps[0]), steps[1..])
  }

  // ------------------------------------------------------------------ counting

  function Total(f: Phase -> nat, phases: seq<Phase>): nat {
    if phases == [] then 0 else f(phases[0]) + Total(f, phases[1..])
  }

  function Holds(ph: Phase): nat { if ph.Permitted? || ph.Running? || ph.Leaving? then 1 else 0 }

  function StepsLeft(ph: Phase): nat {
    match ph
    case Waiting => 4
    case Permitted => 3
    case Running => 2
    case Leaving(_) => 1
    case Done(_) => 0
  }

  lemma {:induction false} TotalUpdate(f: Phase -> nat, phases: seq<Phase>, i: nat, ph: Phase)
    requires i < |phases|
    ensures Total(f, phases[i := ph]) + f(phases[i]) == Total(f, phases) + f(ph)
    decreases |phases|
  {
    if i == 0 {
      assert phases[0 := ph][1..] == phases[1..];
    } else {
      assert phases[i := ph][1..] == phases[1..][i - 1 := ph];
      TotalUpdate(f, phases[1..], i - 1, ph);
    }
  }

  lemma {:induction false} TotalOfStart(f: Phase -> nat, n: nat)
    ensures Total(f, seq(n, i => Waiting)) == n * f(Waiting)
    decreases n
  {
    var s := seq(n, (i: nat) => Waiting);
    if n > 0 {
      assert s == seq(n, i => Waiting) && s[0] == Waiting;
      assert s[1..] == seq(n - 1, i => Waiting);
      TotalOfStart(f, n - 1);
      assert n * f(Waiting) == (n - 1) * f(Waiting) + f(Waiting);
    }
  }

  lemma {:induction false} SomeHolder(phases: seq<Phase>) returns (i: nat)
    requires Total(Holds, phases) > 0
    ensures i < |phases| && Holds(phases[i]) == 1
    decreases |phases|
  {
    if Holds(phases[0]) == 1 {
      i := 0;
    } else {
      var j := SomeHolder(phases[1..]);
      i := j + 1;
    }
  }

  // ----------------------------------------------------------------- invariant

  ghost predicate DistinctIndices(s: seq<nat>) { forall i, j | 0 <= i < j < |s| :: s[i] != s[j] }

  ghost predicate Inv(p: Pass, s: State) {
    && |s.phases| == p.count
    && s.permits + Total(Holds, s.phases) == p.concurrency
    && (p.locked ==> forall i | 0 <= i < p.count :: s.phases[i].Running? <==> s.lock == Held(i))
    && (!p.locked ==> s.lock.Free?)
    && (s.lock.Held? ==> s.lock.task < p.count)
    && DistinctIndices(s.joined) && |s.joined| <= p.count
    && (forall i | i in s.joined :: i < p.count && s.phases[i].Done?)
    && (forall i :: i in s.results <==> i in s.joined && s.phases[i] == Done(Success))
    && DistinctIndices(s.results)
  }

  lemma StartInv(p: Pass)
    ensures Inv(p, Start(p))
  {
    TotalOfStart(Holds, p.count);
  }

  /** How many task steps are still to come. */
  function Measure(p: Pass, s: State): int { Total(StepsLeft, s.phases) + p.count - |s.joined| }

  function Range(n: nat): (r: set<nat>)
    ensures |r| == n && forall i: nat :: i in r <==> i < n
  {
    if n == 0 then {} else Range(n - 1) + {n - 1}
  }

  function Elems(s: seq<nat>): (r: set<nat>)
    ensures forall x :: x in r <==> x in s
  {
    set x | x in s
  }

  /** Distinct indices below n: at most n of them, and if n then all. */
  lemma DistinctBounded(s: seq<nat>, n: nat)
    requires DistinctIndices(s) && forall i | i in s :: i < n
    ensures |s| <= n && (|s| == n <==> forall i: nat | i < n :: i in s)
  {
    SetSize(s);
    SubsetSize(Elems(s), Range(n));
    if forall i: nat | i < n :: i in s { assert Elems(s) == Range(n); }
  }

  lemma SubsetSize(a: set<nat>, b: set<nat>)
    requires a <= b
    ensures |a| <= |b| && (|a| == |b| ==> a == b)
  {
    assert b == a + (b - a);
    assert |b| == |a| + |b - a|;
    if |a| == |b| { assert b - a == {}; }
  }

  lemma {:induction false} SetSize(s: seq<nat>)
    requires DistinctIndices(s)
    ensures |Elems(s)| == |s|
    decreases |s|
  {
    if s != [] {
      var n := |s| - 1;
      SetSize(s[..n]);
      assert s == s[..n] + [s[n]];
      assert Elems(s) == Elems(s[..n]) + {s[n]};
      assert s[n] !in s[..n];
    }
  }

  predicate IsTaskStep(step: Step) { !step.OutsideTakes? && !step.OutsideGives? }

  lemma StepKeepsInv(p: Pass, s: State, step: Step)
    requires Inv(p, s) && Enabled(p, s, step)
    ensures Inv(p, Do(p, s, step))
    ensures Measure(p, Do(p, s, step)) <= Measure(p, s) - (if IsTaskStep(step) then 1 else 0)
  {
    if step.Join? {
      JoinKeepsInv(p, s, step);
    } else {
      if IsTaskStep(step) { PhaseStepCounts(p, s, step); }
    }
  }

  lemma PhaseStepCounts(p: Pass, s: State, step: Step)
    requires Inv(p, s) && Enabled(p, s, step) && IsTaskStep(step) && !step.Join?
    ensures var s2 := Do(p, s, step);
            && s2.permits + Total(Holds, s2.phases) == p.concurrency
            && Total(StepsLeft, s2.phases) < Total(StepsLeft, s.phases)
  {
    var ph := Do(p, s, step).phases[step.i];
    TotalUpdate(Holds, s.phases, step.i, ph);
    TotalUpdate(StepsLeft, s.phases, step.i, ph);
  }

  lemma JoinKeepsInv(p: Pass, s: State, step: Step)
    requires Inv(p, s) && Enabled(p, s, step) && step.Join?
    ensures Inv(p, Do(p, s, step)) && Measure(p, Do(p, s, step)) == Measure(p, s) - 1
  {
    var s2 := Do(p, s, step);
    assert forall i :: i in s2.joined <==> i in s.joined || i == step.i;
    assert forall i :: i in s2.results <==> i in s.results || (i == step.i && s.phases[i] == Done(Success));
    assert step.i !in s.results;
    DistinctBounded(s2.joined, p.count);
  }

  ghost predicate AllJoined(p: Pass, s: State) { |s.joined| == p.count }

  /** In every reachable state some task can move, unless everything is joined, or an
      outside user of the lock has to give it back first, or there are no permits at all. */
  lemma NoDeadlock(p: Pass, s: State)
    requires Inv(p, s) && p.concurrency > 0 && !AllJoined(p, s) && !s.lock.Outside?
    ensures exists step :: IsTaskStep(step) && Enabled(p, s, step)
  {
    if s.permits == 0 {
      var i := SomeHolder(s.phases);
      if s.phases[i].Leaving? {
        assert Enabled(p, s, Leave(i));
      } else if s.phases[i].Running? {
        assert Enabled(p, s, Finish(i, Success));
      } else if p.locked && s.lock.Held? {
        assert Enabled(p, s, Finish(s.lock.task, Success));
      } else {
        assert Enabled(p, s, Enter(i));
      }
    } else {
      var i := SomeUnjoined(p, s);
      match s.phases[i]
      case Waiting => assert Enabled(p, s, Acquire(i));
      case Permitted =>
        if p.locked && s.lock.Held? { assert Enabled(p, s, Finish(s.lock.task, Success)); }
        else { assert Enabled(p, s, Enter(i)); }
      case Running => assert Enabled(p, s, Finish(i, Success));
      case Leaving(_) => assert Enabled(p, s, Leave(i));
      case Done(_) => assert Enabled(p, s, Join(i));
    }
  }

  lemma SomeUnjoined(p: Pass, s: State) returns (i: nat)
    requires Inv(p, s) && !AllJoined(p, s)
    ensures i < p.count && i !in s.joined
  {
    DistinctBounded(s.joined, p.count);
    i :| i < p.count && i !in s.joined;
  }

  // ----------------------------------------------------------------- all runs

  function CountTaskSteps(steps: seq<Step>): nat {
    if steps == [] then 0 else (if IsTaskStep(steps[0]) then 1 else 0) + CountTaskSteps(steps[1..])
  }

  /** How often the work of task i was started. */
  function Starts(steps: seq<Step>, i: nat): nat {
    if steps == [] then 0 else (if steps[0] == Enter(i) then 1 else 0) + Starts(steps[1..], i)
  }

  function Started(ph: Phase): nat { if ph.Waiting? || ph.Permitted? then 0 else 1 }

  lemma {:induction false} RunKeepsInv(p: Pass, s: State, steps: seq<Step>)
    requires Inv(p, s) && CanRun(p, s, steps)
    ensures Inv(p, After(p, s, steps))
    ensures Measure(p, After(p, s, steps)) + CountTaskSteps(steps) <= Measure(p, s)
    decreases |steps|
  {
    if steps != [] {
      StepKeepsInv(p, s, steps[0]);
      RunKeepsInv(p, Do(p, s, steps[0]), steps[1..]);
    }
  }

  /** A task is past its start exactly as often as it was started. */
  lemma {:induction false} StartsCounted(p: Pass, s: State, steps: seq<Step>, i: nat)
    requires i < |s.phases| && CanRun(p, s, steps)
    ensures Starts(steps, i) + Started(s.phases[i]) == Started(After(p, s, steps).phases[i])
    decreases |steps|
  {
    if steps != [] { StartsCounted(p, Do(p, s, steps[0]), steps[1..], i); }
  }

  lemma AllStartsCounted(p: Pass, steps: seq<Step>)
    requires CanRun(p, Start(p), steps)
    ensures forall i | 0 <= i < p.count :: Starts(steps, i) == Started(After(p, Start(p), steps).phases[i])
  {
    forall i | 0 <= i < p.count
      ensures Starts(steps, i) == Started(After(p, Start(p), steps).phases[i])
    {
      StartsCounted(p, Start(p), steps, i);
    }
  }

  /** Safety, for every interleaving, with outside users of the lock: never more
      permits out than the limit, never two syncs under the lock nor one while an
      outsider has it, no work started twice, and no more than five steps per task. */
  lemma PassIsSafe(p: Pass, steps: seq<Step>)
    requires CanRun(p, Start(p), steps)
    ensures var s := After(p, Start(p), steps);
            && Total(Holds, s.phases) <= p.concurrency
            && (p.locked ==> forall i, j | 0 <= i < p.count && 0 <= j < p.count ::
                  s.phases[i].Running? && s.phases[j].Running? ==> i == j && !s.lock.Outside?)
            && (forall i | 0 <= i < p.count :: Starts(steps, i) <= 1)
            && CountTaskSteps(steps) <= 5 * p.count
  {
    StartInv(p);
    RunKeepsInv(p, Start(p), steps);
    AllStartsCounted(p, steps);
    TotalOfStart(StepsLeft, p.count);
  }

  /** Completion: once no task can move any more and the lock is not held outside, a
      pass with at least one permit has run every id exactly once, joined each exactly
      once, kept exactly the successes, and given every permit back. */
  lemma PassCompletes(p: Pass, steps: seq<Step>)
    requires p.concurrency > 0 && CanRun(p, Start(p), steps)
    requires var s := After(p, Start(p), steps);
             !s.lock.Outside? && !exists step :: IsTaskStep(step) && Enabled(p, s, step)
    ensures var s := After(p, Start(p), steps);
            && (forall i | 0 <= i < p.count :: i in s.joined && Starts(steps, i) == 1)
            && |s.joined| == p.count && DistinctIndices(s.results)
            && (forall i | 0 <= i < p.count :: i in s.results <==> s.phases[i] == Done(Success))
            && s.permits == p.concurrency
  {
    StartInv(p);
    RunKeepsInv(p, Start(p), steps);
    AllStartsCounted(p, steps);
    var s := After(p, Start(p), steps);
    if !AllJoined(p, s) { NoDeadlock(p, s); }
    DistinctBounded(s.joined, p.count);
    NoHolders(s.phases);
  }

  lemma {:induction false} NoHolders(phases: seq<Phase>)
    requires forall i | 0 <= i < |phases| :: phases[i].Done?
    ensures Total(Holds, phases) == 0
    decreases |phases|
  {
    if phases != [] { NoHolders(phases[1..]); }
  }

  /** The sync scheduler does not clamp its limit: with concurrency 0 and anything due,
      no run ever joins a task, so the pass hangs.  The batch indexer avoids this by
      using at least one permit. */
  lemma {:induction false} NoPermitsNoProgress(p: Pass, s: State, steps: seq<Step>)
    requires p.concurrency == 0 && |s.phases| == p.count && s.permits == 0 && s.joined == []
    requires forall i | 0 <= i < p.count :: s.phases[i].Waiting?
    requires CanRun(p, s, steps)
    ensures After(p, s, steps).joined == [] && CountTaskSteps(steps) == 0
    decreases |steps|
  {
    if steps != [] { NoPermitsNoProgress(p, Do(p, s, steps[0]), steps[1..]); }
  }

  lemma {:induction false} CanRunSnoc(p: Pass, s: State, steps: seq<Step>, step: Step)
    requires CanRun(p, s, steps) && Enabled(p, After(p, s, steps), step)
    ensures CanRun(p, s, steps + [step]) && After(p, s, steps + [step]) == Do(p, After(p, s, steps), step)
    decreases |steps|
  {
    if steps == [] {
      assert ([step])[1..] == [];
      assert steps + [step] == [step];
    } else {
      assert (steps + [step])[1..] == steps[1..] + [step];
      CanRunSnoc(p, Do(p, s, steps[0]), steps[1..], step);
    }
  }

  ghost predicate Completes(p: Pass, steps: seq<Step>) {
    CanRun(p, Start(p), steps) && AllJoined(p, After(p, Start(p), steps))
  }

  /** A pass can complete exactly when it has a permit to give or nothing to do. */
  lemma CompletesIffPermits(p: Pass)
    ensures (exists steps :: Completes(p, steps)) <==> p.concurrency > 0 || p.count == 0
  {
    StartInv(p);
    if p.concurrency > 0 || p.count == 0 {
      var steps := RunToEnd(p, []);
      assert Completes(p, steps);
    } else {
      forall steps | CanRun(p, Start(p), steps)
        ensures !Completes(p, steps)
      {
        NoPermitsNoProgress(p, Start(p), steps);
      }
    }
  }

  lemma {:induction false} RunToEnd(p: Pass, done: seq<Step>) returns (steps: seq<Step>)
    requires p.concurrency > 0 || p.count == 0
    requires CanRun(p, Start(p), done) && !After(p, Start(p), done).lock.Outside?
    requires Inv(p, After(p, Start(p), done))
    ensures CanRun(p, Start(p), steps) && AllJoined(p, After(p, Start(p), steps))
    decreases Measure(p, After(p, Start(p), done))
  {
    var s := After(p, Start(p), done);
    if AllJoined(p, s) {
      steps := done;
    } else {
      NoDeadlock(p, s);
      var step :| IsTaskStep(step) && Enabled(p, s, step);
      CanRunSnoc(p, Start(p), done, step);
      StepKeepsInv(p, s, step);
      steps := RunToEnd(p, done + [step]);
    }
  }
}
