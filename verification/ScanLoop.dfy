/** The checkpointed, budget-capped scan of src/auto_scanner.rs: the loop over the
    changed files, its checkpoint row, and the commit-hash decision around it. */
module ScanLoop {
  import opened Wrappers

  type Path = string

  /** What `analyze_file` did with one file. */
  datatype Outcome = Analyzed(cost: real, hit: bool, issues: nat) | Failed

  /** The counters that a checkpoint restores. */
  datatype Tally = Tally(analyzed: nat, cached: nat, cost: real)

  const ZERO := Tally(0, 0, 0.0)

  /** The row of scan_checkpoints. */
  datatype Checkpoint = Checkpoint(last: nat, file: Path, tally: Tally, total: nat)

  /** One scan request: the files in the order they are visited, what analysing each
      of them does, and the configured budget (0 or less: no cap). */
  datatype Job = Job(files: seq<Path>, what: Path -> Outcome, budget: real)

  function Add(t: Tally, o: Outcome): Tally {
    match o
    case Failed => t
    case Analyzed(cost, hit, _) =>
      Tally(t.analyzed + 1, if hit then t.cached + 1 else t.cached, t.cost + cost)
  }

  function IssuesOf(o: Outcome): nat { if o.Analyzed? then o.issues else 0 }

  predicate OverBudget(job: Job, t: Tally) { job.budget > 0.0 && t.cost >= job.budget }

  datatype End = End(tally: Tally, issues: nat, halted: bool)

  /** The loop without checkpoints, from index i on. */
  function RunFrom(job: Job, i: nat, t: Tally, issues: nat): End
    decreases |job.files| - i
  {
    if i >= |job.files| then End(t, issues, false)
    else if OverBudget(job, t) then End(t, issues, true)
    else
      var o := job.what(job.files[i]);
      RunFrom(job, i + 1, Add(t, o), issues + IssuesOf(o))
  }

  /** A scan that is never interrupted. */
  function SingleRun(job: Job): End { RunFrom(job, 0, ZERO, 0) }

  /** The tally after the first i files. */
  function After(job: Job, i: nat): Tally
    requires i <= |job.files|
  {
    if i == 0 then ZERO else Add(After(job, i - 1), job.what(job.files[i - 1]))
  }

  // ------------------------------------------------- the scan with its database

  /** Which database calls succeed: reading the row, clearing it, saving it after
      each index. */
  datatype Faults = Faults(loadOk: bool, clearStaleOk: bool, clearEndOk: bool, saveOk: nat -> bool)

  /** The checkpoint row, the files that an analysis was started on, and those that were
      analysed. */
  datatype State = State(row: Option<Checkpoint>, attempted: set<Path>, analysed: set<Path>)

  const EMPTY := State(None, {}, {})

  datatype Run = Run(end: End, state: State)

  /** A checkpoint counts only when the number of files is the same. */
  predicate Usable(row: Option<Checkpoint>, total: nat) { row.Some? && row.value.total == total }

  function Loop(job: Job, f: Faults, i: nat, t: Tally, issues: nat, s: State): Run
    decreases |job.files| - i
  {
    if i >= |job.files| then Run(End(t, issues, false), if f.clearEndOk then s.(row := None) else s)
    else if OverBudget(job, t) then Run(End(t, issues, true), s)
    else
      var o := job.what(job.files[i]);
      Loop(job, f, i + 1, Add(t, o), issues + IssuesOf(o), AfterFile(job, f.saveOk(i), i, t, s))
  }

  /** The database after file i: a failed analysis saves no checkpoint. */
  function AfterFile(job: Job, saveOk: bool, i: nat, t: Tally, s: State): State
    requires i < |job.files|
  {
    var file := job.files[i];
    var ok := job.what(file).Analyzed?;
    State(if ok && saveOk then Some(Checkpoint(i, file, Add(t, job.what(file)), |job.files|)) else s.row,
          s.attempted + {file}, if ok then s.analysed + {file} else s.analysed)
  }

  lemma LoopStep(job: Job, f: Faults, i: nat, t: Tally, issues: nat, s: State)
    requires i < |job.files| && !OverBudget(job, t)
    ensures var o := job.what(job.files[i]);
            Loop(job, f, i, t, issues, s) ==
            Loop(job, f, i + 1, Add(t, o), issues + IssuesOf(o), AfterFile(job, f.saveOk(i), i, t, s))
  {}

  function StartIndex(job: Job, loadOk: bool, s: State): nat {
    if loadOk && Usable(s.row, |job.files|) then s.row.value.last + 1 else 0
  }

  function StartTally(job: Job, loadOk: bool, s: State): Tally {
    if loadOk && Usable(s.row, |job.files|) then s.row.value.tally else ZERO
  }

  function StartState(job: Job, loadOk: bool, clearOk: bool, s: State): State {
    if loadOk && s.row.Some? && !Usable(s.row, |job.files|) && clearOk then s.(row := None) else s
  }

  /** analyze_changed_files_with_progress. */
  function Analyze(job: Job, f: Faults, s: State): Run {
    Loop(job, f, StartIndex(job, f.loadOk, s), StartTally(job, f.loadOk, s), 0,
         StartState(job, f.loadOk, f.clearStaleOk, s))
  }

  /** The rest of what `check_and_scan_repo` depends on: the head it finds, and whether
      the cache opens and the time stamp and the hash are written. */
  datatype Scan = Scan(job: Job, head: Option<string>, cacheOk: bool, stampOk: bool, hashOk: bool, faults: Faults)

  /** The scan ends by storing the commit hash of the head that it found. */
  predicate StoresHash(scan: Scan, db: State) {
    && scan.head.Some? && scan.hashOk
    && (scan.job.files == [] || (scan.cacheOk && scan.stampOk && !Analyze(scan.job, scan.faults, db).end.halted))
  }

  /** No step of the scan that must succeed fails. */
  predicate ScanSucceeds(scan: Scan, db: State) {
    && scan.stampOk && (scan.job.files == [] || scan.cacheOk)
    && (scan.head.None? || scan.hashOk || (scan.job.files != [] && Analyze(scan.job, scan.faults, db).end.halted))
  }

  class Repository {
    var checkpoint: Option<Checkpoint>
    var commitHash: Option<string>
    var attempted: set<Path>
    var analysed: set<Path>

    constructor ()
      ensures Db() == EMPTY && commitHash == None
    {
      checkpoint, commitHash, attempted, analysed := None, None, {}, {};
    }

    function Db(): State
      reads this
    {
      State(checkpoint, attempted, analysed)
    }

    method LoadCheckpoint(total: nat, loadOk: bool, clearOk: bool) returns (cp: Option<Checkpoint>)
      modifies this`checkpoint
      ensures cp == if loadOk && Usable(old(checkpoint), total) then old(checkpoint) else None
      ensures checkpoint ==
              if loadOk && old(checkpoint).Some? && !Usable(old(checkpoint), total) && clearOk then None
              else old(checkpoint)
    {
      if !loadOk || checkpoint.None? {
        return None;
      }
      if checkpoint.value.total == total {
        return checkpoint;
      }
      ClearCheckpoint(clearOk);
      return None;
    }

    method SaveCheckpoint(cp: Checkpoint, ok: bool)
      modifies this`checkpoint
      ensures checkpoint == if ok then Some(cp) else old(checkpoint)
    {
      if ok { checkpoint := Some(cp); }
    }

    method ClearCheckpoint(ok: bool)
      modifies this`checkpoint
      ensures checkpoint == if ok then None else old(checkpoint)
    {
      if ok { checkpoint := None; }
    }

    method AnalyzeChangedFiles(job: Job, f: Faults) returns (end: End)
      modifies this`checkpoint, this`attempted, this`analysed
      ensures Run(end, Db()) == Analyze(job, f, old(Db()))
    {
      var filesAnalyzed, issuesFound, cumulativeCost, cacheHits := 0, 0, 0.0, 0;
      var budgetHalted := false;
      ghost var before := Db();
      var cp := LoadCheckpoint(|job.files|, f.loadOk, f.clearStaleOk);
      var startIndex := 0;
      if cp.Some? {
        cumulativeCost := cp.value.tally.cost;
        filesAnalyzed := cp.value.tally.analyzed;
        cacheHits := cp.value.tally.cached;
        startIndex := cp.value.last + 1;
      }
      var idx := 0;
      while idx < |job.files|
        invariant 0 <= idx <= |job.files|
        invariant !budgetHalted
        invariant Analyze(job, f, before)
               == Loop(job, f, if idx < startIndex then startIndex else idx,
                       Tally(filesAnalyzed, cacheHits, cumulativeCost), issuesFound, Db())
      {
        if idx < startIndex {
          idx := idx + 1;
          continue;
        }
        if job.budget > 0.0 && cumulativeCost >= job.budget {
          budgetHalted := true;
          break;
        }
        ghost var tally, db := Tally(filesAnalyzed, cacheHits, cumulativeCost), Db();
        LoopStep(job, f, idx, tally, issuesFound, db);
        var file := job.files[idx];
        var outcome := job.what(file);
        attempted := attempted + {file};
        match outcome {
          case Analyzed(cost, hit, issues) =>
            analysed := analysed + {file};
            filesAnalyzed := filesAnalyzed + 1;
            issuesFound := issuesFound + issues;
            cumulativeCost := cumulativeCost + cost;
            if hit {
              cacheHits := cacheHits + 1;
            }
            SaveCheckpoint(
              Checkpoint(idx, file, Tally(filesAnalyzed, cacheHits, cumulativeCost), |job.files|), f.saveOk(idx));
          case Failed =>
        }
        assert Tally(filesAnalyzed, cacheHits, cumulativeCost) == Add(tally, outcome);
        assert Db() == AfterFile(job, f.saveOk(idx), idx, tally, db);
        idx := idx + 1;
      }
      if !budgetHalted {
        ClearCheckpoint(f.clearEndOk);
      }
      end := End(Tally(filesAnalyzed, cacheHits, cumulativeCost), issuesFound, budgetHalted);
    }

    /** The commit hash moves only to the head that was scanned, and only when there
        was nothing to scan or the loop was not halted. */
    method CheckAndScan(scan: Scan) returns (ok: bool)
      modifies this
      ensures commitHash == if StoresHash(scan, old(Db())) then scan.head else old(commitHash)
      ensures Db() == if scan.job.files == [] || !scan.cacheOk then old(Db())
                      else Analyze(scan.job, scan.faults, old(Db())).state
      ensures ok <==> ScanSucceeds(scan, old(Db()))
    {
      if scan.job.files == [] {
        if scan.head.Some? {
          if !scan.hashOk { return false; }
          commitHash := scan.head;
        }
        return scan.stampOk;
      }
      if !scan.cacheOk { return false; }
      var end := AnalyzeChangedFiles(scan.job, scan.faults);
      if !scan.stampOk { return false; }
      if !end.halted && scan.head.Some? {
        if !scan.hashOk { return false; }
        commitHash := scan.head;
      }
      return true;
    }
  }

  // ------------------------------------------------------ crashes and restarts

  datatype Proc = Down | Looping(i: nat, tally: Tally, issues: nat) | Finished(end: End)

  datatype Sys = Sys(db: State, proc: Proc)

  /** One step of a process that may be killed between any two of its effects (a kill
      between an analysis and its save is a failed save followed by a kill, and a kill
      after the final clear is a step of its own). */
  ghost predicate Next(job: Job, s: Sys, s2: Sys) {
    match s.proc
    case Down =>
      exists loadOk: bool, clearOk: bool ::
        && s2.proc == Looping(StartIndex(job, loadOk, s.db), StartTally(job, loadOk, s.db), 0)
        && s2.db == StartState(job, loadOk, clearOk, s.db)
    case Looping(i, t, issues) =>
      || s2 == s.(proc := Down)
      || (i >= |job.files| && s2 == Sys(s.db.(row := None), Down))
      || (if i >= |job.files| then
            s2.proc == Finished(End(t, issues, false)) && (s2.db == s.db || s2.db == s.db.(row := None))
          else if OverBudget(job, t) then
            s2 == s.(proc := Finished(End(t, issues, true)))
          else
            var o := job.what(job.files[i]);
            && s2.proc == Looping(i + 1, Add(t, o), issues + IssuesOf(o))
            && exists saveOk: bool :: s2.db == AfterFile(job, saveOk, i, t, s.db))
    case Finished(_) => false
  }

  ghost predicate Trace(job: Job, tr: seq<Sys>) {
    tr != [] && forall k | 0 <= k < |tr| - 1 :: Next(job, tr[k], tr[k + 1])
  }

  /** No earlier index stopped the loop. */
  ghost predicate Reaches(job: Job, i: nat) {
    i <= |job.files| && forall j | 0 <= j < i :: !OverBudget(job, After(job, j))
  }

  /** The first n files were attempted, and analysed unless their analysis fails. */
  ghost predicate Covers(job: Job, n: nat, db: State) {
    n <= |job.files| && forall j | 0 <= j < n :: Done(job, job.files[j], db)
  }

  ghost predicate Done(job: Job, p: Path, db: State) {
    p in db.attempted && (job.what(p).Analyzed? ==> p in db.analysed)
  }

  ghost predicate RowOk(job: Job, db: State) {
    Usable(db.row, |job.files|) ==>
      var cp := db.row.value;
      && cp.last < |job.files|
      && cp.tally == After(job, cp.last + 1)
      && Reaches(job, cp.last + 1)
      && Covers(job, cp.last + 1, db)
  }

  ghost predicate Inv(job: Job, s: Sys) {
    && RowOk(job, s.db)
    && match s.proc
       case Down => true
       case Looping(i, t, _) => Reaches(job, i) && t == After(job, i) && Covers(job, i, s.db)
       case Finished(e) =>
         && e.tally == SingleRun(job).tally && e.halted == SingleRun(job).halted
         && (!e.halted ==> Covers(job, |job.files|, s.db))
  }

  /** The issues in the first i files. */
  function IssuesBefore(job: Job, i: nat): nat
    requires i <= |job.files|
  {
    if i == 0 then 0 else IssuesBefore(job, i - 1) + IssuesOf(job.what(job.files[i - 1]))
  }

  /** A run that got to index i is the rest of the run from there. */
  lemma {:induction false} RunSplits(job: Job, i: nat)
    requires Reaches(job, i)
    ensures SingleRun(job) == RunFrom(job, i, After(job, i), IssuesBefore(job, i))
  {
    if i > 0 {
      assert Reaches(job, i - 1);
      RunSplits(job, i - 1);
    }
  }

  lemma NextKeepsInv(job: Job, s: Sys, s2: Sys)
    requires Inv(job, s) && Next(job, s, s2)
    ensures Inv(job, s2)
  {
    match s.proc
    case Down =>
    case Looping(i, t, issues) =>
      if s2.proc.Finished? { RunSplits(job, i); }
    case Finished(_) =>
  }

  /** Resuming refines running once.  For one fixed file sequence with fixed outcomes,
      however often the process is killed and restarted, whichever saves, clears and
      loads fail, and wherever an unusable row came from: if it finishes, it reports
      the counters, the cost and the halt of a single uninterrupted run, and unless it
      halted, every file was attempted, and analysed unless its analysis fails. */
  lemma {:induction false} ResumeRefinesSingleRun(job: Job, tr: seq<Sys>)
    requires Trace(job, tr) && tr[0].proc == Down && RowOk(job, tr[0].db)
    ensures Inv(job, tr[|tr| - 1])
    ensures var s := tr[|tr| - 1];
            s.proc.Finished? ==>
              && s.proc.end.tally == SingleRun(job).tally
              && s.proc.end.halted == SingleRun(job).halted
              && (!s.proc.end.halted ==> forall p | p in job.files :: Done(job, p, s.db))
    decreases |tr|
  {
    if |tr| > 1 {
      ResumeRefinesSingleRun(job, tr[..|tr| - 1]);
      NextKeepsInv(job, tr[|tr| - 2], tr[|tr| - 1]);
    }
  }

  /** The imperative scan, run without a kill, is one of these traces. */
  lemma {:induction false} LoopIsTrace(job: Job, f: Faults, i: nat, t: Tally, issues: nat, db: State)
    returns (tr: seq<Sys>)
    ensures Trace(job, tr) && tr[0] == Sys(db, Looping(i, t, issues))
    ensures var run := Loop(job, f, i, t, issues, db);
            tr[|tr| - 1] == Sys(run.state, Finished(run.end))
    decreases |job.files| - i
  {
    var s := Sys(db, Looping(i, t, issues));
    var run := Loop(job, f, i, t, issues, db);
    if i >= |job.files| || OverBudget(job, t) {
      tr := [s, Sys(run.state, Finished(run.end))];
    } else {
      var o := job.what(job.files[i]);
      var rest := LoopIsTrace(job, f, i + 1, Add(t, o), issues + IssuesOf(o), AfterFile(job, f.saveOk(i), i, t, db));
      assert Next(job, s, rest[0]);
      tr := [s] + rest;
    }
  }

  lemma AnalyzeIsTrace(job: Job, f: Faults, db: State) returns (tr: seq<Sys>)
    ensures Trace(job, tr) && tr[0] == Sys(db, Down)
    ensures tr[|tr| - 1] == Sys(Analyze(job, f, db).state, Finished(Analyze(job, f, db).end))
  {
    var i, t := StartIndex(job, f.loadOk, db), StartTally(job, f.loadOk, db);
    var start := StartState(job, f.loadOk, f.clearStaleOk, db);
    var rest := LoopIsTrace(job, f, i, t, 0, start);
    assert Next(job, Sys(db, Down), rest[0]);
    tr := [Sys(db, Down)] + rest;
  }

  // ------------------------------------------- what resuming loses: the issues

  /** The index at which the last restart of a trace took up the loop. */
  function LastStart(tr: seq<Sys>): nat {
    if |tr| <= 1 then 0 else StartAfter(LastStart(tr[..|tr| - 1]), tr[|tr| - 2].proc, tr[|tr| - 1].proc)
  }

  function StartAfter(start: nat, before: Proc, now: Proc): nat {
    if before.Down? && now.Looping? then now.i else start
  }

  /** A process that took up the loop at `start` has counted the issues from there on. */
  ghost predicate CountsFrom(job: Job, start: nat, proc: Proc) {
    match proc
    case Down => true
    case Looping(i, _, issues) =>
      start <= i <= |job.files| && issues + IssuesBefore(job, start) == IssuesBefore(job, i)
    case Finished(e) =>
      start <= |job.files| && e.issues + IssuesBefore(job, start) == SingleRun(job).issues
  }

  lemma CountsStep(job: Job, start: nat, s: Sys, s2: Sys)
    requires Inv(job, s) && Next(job, s, s2) && CountsFrom(job, start, s.proc)
    ensures CountsFrom(job, StartAfter(start, s.proc, s2.proc), s2.proc)
  {
    if s.proc.Looping? && s2.proc.Finished? { RunSplits(job, s.proc.i); }
  }

  lemma {:induction false} IssuesOfTrace(job: Job, tr: seq<Sys>)
    requires Trace(job, tr) && tr[0].proc == Down && RowOk(job, tr[0].db)
    ensures CountsFrom(job, LastStart(tr), tr[|tr| - 1].proc)
    decreases |tr|
  {
    if |tr| > 1 {
      var front := tr[..|tr| - 1];
      IssuesOfTrace(job, front);
      ResumeRefinesSingleRun(job, front);
      CountsStep(job, LastStart(front), tr[|tr| - 2], tr[|tr| - 1]);
    }
  }

  /** The issue count is not part of the checkpoint.  However often a scan was killed and
      restarted, it falls short by exactly the issues of the files that its last restart
      skipped, so that it reports the issue count of a single run if and only if there
      were none. */
  lemma ResumeForgetsIssues(job: Job, tr: seq<Sys>)
    requires Trace(job, tr) && tr[0].proc == Down && RowOk(job, tr[0].db)
    requires tr[|tr| - 1].proc.Finished?
    ensures LastStart(tr) <= |job.files|
    ensures var e := tr[|tr| - 1].proc.end;
            && e.issues + IssuesBefore(job, LastStart(tr)) == SingleRun(job).issues
            && (e.issues == SingleRun(job).issues <==> IssuesBefore(job, LastStart(tr)) == 0)
  {
    IssuesOfTrace(job, tr);
  }

  /** It does fall short: one file with one issue, killed behind it and restarted. */
  lemma RestartLosesIssue() returns (job: Job, tr: seq<Sys>)
    ensures job.files == ["a"] && Trace(job, tr) && tr[0] == Sys(EMPTY, Down)
    ensures tr[|tr| - 1].proc == Finished(End(Tally(1, 0, 0.0), 0, false)) && SingleRun(job).issues == 1
  {
    job := Job(["a"], p => Analyzed(0.0, false, 1), 0.0);
    var t := Tally(1, 0, 0.0);
    var db := AfterFile(job, true, 0, ZERO, EMPTY);
    tr := [Sys(EMPTY, Down), Sys(EMPTY, Looping(0, ZERO, 0)), Sys(db, Looping(1, t, 1)), Sys(db, Down),
           Sys(db, Looping(1, t, 0)), Sys(db, Finished(End(t, 0, false)))];
    assert StartState(job, true, true, EMPTY) == EMPTY && StartIndex(job, true, EMPTY) == 0;
    assert Next(job, tr[0], tr[1]);
    assert Next(job, tr[1], tr[2]);
    assert Next(job, tr[2], tr[3]);
    assert StartState(job, true, true, db) == db && StartIndex(job, true, db) == 1;
    assert Next(job, tr[3], tr[4]);
    assert Next(job, tr[4], tr[5]);
    assert SingleRun(job) == RunFrom(job, 1, t, 1);
  }

  /** The same for one scan, from the database it finds. */
  lemma ScanForgetsIssues(job: Job, f: Faults, db: State)
    requires RowOk(job, db)
    ensures var start := StartIndex(job, f.loadOk, db);
            && start <= |job.files|
            && Analyze(job, f, db).end.issues + IssuesBefore(job, start) == SingleRun(job).issues
            && (Analyze(job, f, db).end.issues == SingleRun(job).issues <==> IssuesBefore(job, start) == 0)
  {
    var i, t := StartIndex(job, f.loadOk, db), StartTally(job, f.loadOk, db);
    LoopRuns(job, f, i, t, 0, StartState(job, f.loadOk, f.clearStaleOk, db));
    RunSplits(job, i);
    IssuesAdd(job, i, t, 0, IssuesBefore(job, i));
  }

  /** The checkpoints have no influence on how a scan ends. */
  lemma {:induction false} LoopRuns(job: Job, f: Faults, i: nat, t: Tally, issues: nat, db: State)
    ensures Loop(job, f, i, t, issues, db).end == RunFrom(job, i, t, issues)
    decreases |job.files| - i
  {
    if i < |job.files| && !OverBudget(job, t) {
      var o := job.what(job.files[i]);
      LoopRuns(job, f, i + 1, Add(t, o), issues + IssuesOf(o), AfterFile(job, f.saveOk(i), i, t, db));
    }
  }

  lemma {:induction false} IssuesAdd(job: Job, i: nat, t: Tally, issues: nat, more: nat)
    ensures RunFrom(job, i, t, issues + more) == var e := RunFrom(job, i, t, issues); e.(issues := e.issues + more)
    decreases |job.files| - i
  {
    if i < |job.files| && !OverBudget(job, t) {
      var o := job.what(job.files[i]);
      IssuesAdd(job, i + 1, Add(t, o), issues + IssuesOf(o), more);
    }
  }

  // ------------------------------------------------- what is counted, and where it stops

  /** What analysing the first n files does. */
  function Outcomes(job: Job, n: nat): (os: seq<Outcome>)
    requires n <= |job.files|
    ensures |os| == n
  {
    seq(n, i requires 0 <= i < n => job.what(job.files[i]))
  }

  function Costs(os: seq<Outcome>): real {
    if os == [] then 0.0
    else
      var last := os[|os| - 1];
      Costs(os[..|os| - 1]) + (if last.Analyzed? then last.cost else 0.0)
  }

  function Issues(os: seq<Outcome>): nat {
    if os == [] then 0
    else
      var last := os[|os| - 1];
      Issues(os[..|os| - 1]) + (if last.Analyzed? then last.issues else 0)
  }

  function Successes(os: seq<Outcome>): set<nat> { set i: nat | i < |os| && os[i].Analyzed? }

  function Hits(os: seq<Outcome>): set<nat> { set i: nat | i < |os| && os[i].Analyzed? && os[i].hit }

  /** The counters of a scan that did this: every successful file counts as analysed,
      those from the cache included. */
  ghost predicate Counts(t: Tally, issues: nat, os: seq<Outcome>) {
    && t.analyzed == |Successes(os)| && t.cached == |Hits(os)|
    && t.cost == Costs(os) && issues == Issues(os)
  }

  /** The budget is used up after the first n files. */
  predicate UsedUp(job: Job, n: nat)
    requires n <= |job.files|
  {
    job.budget > 0.0 && Costs(Outcomes(job, n)) >= job.budget
  }

  /** A scan stops behind the first n files: at the end of the list, or at the first
      file that it finds the budget used up for. */
  ghost predicate StopsAt(job: Job, n: nat) {
    && n <= |job.files| && (n < |job.files| ==> UsedUp(job, n))
    && forall i | 0 <= i < n :: !UsedUp(job, i)
  }

  lemma {:induction false} CountsAfter(job: Job, n: nat)
    requires n <= |job.files|
    ensures Counts(After(job, n), IssuesBefore(job, n), Outcomes(job, n))
  {
    var os := Outcomes(job, n);
    if n == 0 {
      assert Successes(os) == {} && Hits(os) == {};
    } else {
      CountsAfter(job, n - 1);
      assert os[..n - 1] == Outcomes(job, n - 1);
      CountSnoc(os);
    }
  }

  lemma CountSnoc(os: seq<Outcome>)
    requires os != []
    ensures var (n, front) := (|os| - 1, os[..|os| - 1]);
            && |Successes(os)| == |Successes(front)| + (if os[n].Analyzed? then 1 else 0)
            && |Hits(os)| == |Hits(front)| + (if os[n].Analyzed? && os[n].hit then 1 else 0)
  {
    var n, front := |os| - 1, os[..|os| - 1];
    assert forall i | 0 <= i < n :: front[i] == os[i];
    OneMore(Successes(os), Successes(front), n, os[n].Analyzed?);
    OneMore(Hits(os), Hits(front), n, os[n].Analyzed? && os[n].hit);
  }

  lemma OneMore(all: set<nat>, front: set<nat>, n: nat, more: bool)
    requires n !in front && forall i: nat :: i in all <==> i in front || (i == n && more)
    ensures |all| == |front| + (if more then 1 else 0)
  {
    assert all == if more then front + {n} else front;
  }

  lemma {:induction false} StopOfRun(job: Job, i: nat) returns (n: nat)
    requires Reaches(job, i)
    ensures i <= n && Reaches(job, n) && (n < |job.files| ==> OverBudget(job, After(job, n)))
    ensures RunFrom(job, i, After(job, i), IssuesBefore(job, i))
         == End(After(job, n), IssuesBefore(job, n), n < |job.files|)
    decreases |job.files| - i
  {
    if i == |job.files| || OverBudget(job, After(job, i)) {
      n := i;
    } else {
      n := StopOfRun(job, i + 1);
    }
  }

  /** What the numbers of a scan mean.  The files it visits are the first n, where n is
      the whole list or the first index at which the budget is used up; it is halted
      exactly in the second case, and it reports how many of these files were analysed,
      how many came from the cache, and the sums of their costs and issues. */
  lemma SingleRunCounts(job: Job) returns (n: nat)
    ensures StopsAt(job, n)
    ensures var e := SingleRun(job);
            Counts(e.tally, e.issues, Outcomes(job, n)) && (e.halted <==> n < |job.files|)
  {
    n := StopOfRun(job, 0);
    CountsAfter(job, n);
    forall i | 0 <= i < n
      ensures !UsedUp(job, i)
    {
      CountsAfter(job, i);
    }
  }

  /** The same for the scan of an empty database, whichever database calls fail, with
      the files that it leaves attempted and analysed. */
  lemma ScanCounts(job: Job, f: Faults) returns (n: nat)
    ensures StopsAt(job, n)
    ensures var run := Analyze(job, f, EMPTY);
            && Counts(run.end.tally, run.end.issues, Outcomes(job, n)) && (run.end.halted <==> n < |job.files|)
            && (forall p :: p in run.state.attempted <==> p in job.files[..n])
            && (forall p :: p in run.state.analysed <==> p in job.files[..n] && job.what(p).Analyzed?)
  {
    n := SingleRunCounts(job);
    LoopRuns(job, f, 0, ZERO, 0, EMPTY);
    var m := LoopVisits(job, f, 0, ZERO, 0, EMPTY);
    StopIsUnique(job, n, m);
  }

  lemma {:induction false} LoopVisits(job: Job, f: Faults, i: nat, t: Tally, issues: nat, db: State) returns (n: nat)
    requires Reaches(job, i) && t == After(job, i)
    ensures i <= n && Reaches(job, n) && (n < |job.files| ==> OverBudget(job, After(job, n)))
    ensures var state := Loop(job, f, i, t, issues, db).state;
            && (forall p :: p in state.attempted <==> p in db.attempted || p in job.files[i..n])
            && (forall p :: p in state.analysed <==>
                            p in db.analysed || (p in job.files[i..n] && job.what(p).Analyzed?))
    decreases |job.files| - i
  {
    if i == |job.files| || OverBudget(job, t) {
      n := i;
    } else {
      var o := job.what(job.files[i]);
      n := LoopVisits(job, f, i + 1, Add(t, o), issues + IssuesOf(o), AfterFile(job, f.saveOk(i), i, t, db));
      assert job.files[i..n] == [job.files[i]] + job.files[i + 1..n];
    }
  }

  lemma StopIsUnique(job: Job, n: nat, m: nat)
    requires StopsAt(job, n) && Reaches(job, m) && (m < |job.files| ==> OverBudget(job, After(job, m)))
    ensures n == m
  {
    CountsAfter(job, n);
    CountsAfter(job, m);
    assert n < m ==> OverBudget(job, After(job, n));
    assert m < n ==> UsedUp(job, m);
  }

  /** When a scan stores the commit hash, and when it succeeds, on any database that
      scans of its list left: an empty list needs no cache, and otherwise the budget
      must not be used up before the last file. */
  lemma HashStoredIff(scan: Scan, db: State)
    requires RowOk(scan.job, db)
    ensures var affordable := forall n | 0 <= n < |scan.job.files| :: !UsedUp(scan.job, n);
            && (StoresHash(scan, db) <==>
                  && scan.head.Some? && scan.hashOk
                  && (scan.job.files == [] || (scan.cacheOk && scan.stampOk && affordable)))
            && (ScanSucceeds(scan, db) <==>
                  && scan.stampOk && (scan.job.files == [] || scan.cacheOk)
                  && (scan.head.Some? && affordable ==> scan.hashOk))
  {
    var job := scan.job;
    var n := SingleRunCounts(job);
    var i, t := StartIndex(job, scan.faults.loadOk, db), StartTally(job, scan.faults.loadOk, db);
    LoopRuns(job, scan.faults, i, t, 0, StartState(job, scan.faults.loadOk, scan.faults.clearStaleOk, db));
    RunSplits(job, i);
    IssuesAdd(job, i, t, 0, IssuesBefore(job, i));
  }

  /** The row of a database that only scans of this list have used: which file it names,
      and that its counters are those of the files up to that one. */
  lemma {:induction false} RowCounts(job: Job, tr: seq<Sys>)
    requires Trace(job, tr) && tr[0] == Sys(EMPTY, Down)
    ensures var row := tr[|tr| - 1].db.row;
            row.Some? ==>
              && row.value.total == |job.files| && row.value.last < |job.files|
              && row.value.file == job.files[row.value.last]
              && Counts(row.value.tally, Issues(Outcomes(job, row.value.last + 1)), Outcomes(job, row.value.last + 1))
    decreases |tr|
  {
    if |tr| > 1 {
      var front := tr[..|tr| - 1];
      RowCounts(job, front);
      ResumeRefinesSingleRun(job, front);
      var s, s2 := tr[|tr| - 2], tr[|tr| - 1];
      assert Next(job, s, s2);
      if s2.db.row != s.db.row && s2.db.row.Some? {
        CountsAfter(job, s2.db.row.value.last + 1);
      }
    }
  }

  // ----------------------------------------- a checkpoint of another file list

  /** The files still to be visited at index i. */
  function Ahead(job: Job, i: nat): seq<Path> { if i < |job.files| then job.files[i..] else [] }

  lemma {:induction false} LoopAttempts(job: Job, f: Faults, i: nat, t: Tally, issues: nat, db: State)
    requires !Loop(job, f, i, t, issues, db).end.halted
    ensures var state := Loop(job, f, i, t, issues, db).state;
            && (forall p :: p in state.attempted <==> p in db.attempted || p in Ahead(job, i))
            && (forall p :: p in state.analysed <==> p in db.analysed || (p in Ahead(job, i) && job.what(p).Analyzed?))
    decreases |job.files| - i
  {
    if i < |job.files| {
      var o := job.what(job.files[i]);
      LoopAttempts(job, f, i + 1, Add(t, o), issues + IssuesOf(o), AfterFile(job, f.saveOk(i), i, t, db));
      assert Ahead(job, i) == [job.files[i]] + Ahead(job, i + 1);
    }
  }

  /** The files that a scan does not visit because it resumes behind them. */
  function Skipped(job: Job, loadOk: bool, db: State): seq<Path> {
    var start := StartIndex(job, loadOk, db);
    if start <= |job.files| then job.files[..start] else job.files
  }

  lemma SkippedOrAhead(job: Job, f: Faults, db: State)
    requires !Analyze(job, f, db).end.halted
    ensures var skipped, ahead := Skipped(job, f.loadOk, db), Ahead(job, StartIndex(job, f.loadOk, db));
            && job.files == skipped + ahead
            && (forall p :: p in Analyze(job, f, db).state.attempted <==> p in db.attempted || p in ahead)
            && (forall p :: p in Analyze(job, f, db).state.analysed <==>
                            p in db.analysed || (p in ahead && job.what(p).Analyzed?))
  {
    var start := StartIndex(job, f.loadOk, db);
    LoopAttempts(job, f, start, StartTally(job, f.loadOk, db), 0, StartState(job, f.loadOk, f.clearStaleOk, db));
  }

  /** A scan that is not halted has attempted every file of its list exactly when the
      files it skipped had been attempted before or come again later.  Equal length,
      which is all that the loader compares, is not enough. */
  lemma ResumeCoversExactly(job: Job, f: Faults, db: State)
    requires !Analyze(job, f, db).end.halted
    ensures (forall p | p in job.files :: p in Analyze(job, f, db).state.attempted) <==>
            (forall p | p in Skipped(job, f.loadOk, db) ::
               p in db.attempted || p in Ahead(job, StartIndex(job, f.loadOk, db)))
  {
    SkippedOrAhead(job, f, db);
    var skipped, ahead := Skipped(job, f.loadOk, db), Ahead(job, StartIndex(job, f.loadOk, db));
    assert forall p :: p in job.files <==> p in skipped || p in ahead;
  }

  /** The comment beside the hash wants it stored only if all files were analysed.  It is
      stored whenever the loop was not halted, and then the files of the list are all
      analysed exactly when each one that the scan visited succeeded or had been analysed
      before, and each one that it skipped had been analysed before or was visited again,
      with success. */
  lemma HashMeansAnalysed(scan: Scan, db: State)
    requires StoresHash(scan, db) && scan.job.files != []
    ensures var job, f := scan.job, scan.faults;
            var skipped, ahead := Skipped(job, f.loadOk, db), Ahead(job, StartIndex(job, f.loadOk, db));
            (forall p | p in job.files :: p in Analyze(job, f, db).state.analysed) <==>
              && (forall p | p in ahead :: job.what(p).Analyzed? || p in db.analysed)
              && (forall p | p in skipped :: p in db.analysed || (p in ahead && job.what(p).Analyzed?))
  {
    var job, f := scan.job, scan.faults;
    SkippedOrAhead(job, f, db);
    var skipped, ahead := Skipped(job, f.loadOk, db), Ahead(job, StartIndex(job, f.loadOk, db));
    assert forall p :: p in job.files <==> p in skipped || p in ahead;
  }

  /** Nothing was analysed whose analysis fails. */
  ghost predicate OnlyAnalysed(job: Job, db: State) {
    forall p | p in job.files && p in db.analysed :: job.what(p).Analyzed?
  }

  lemma {:induction false} TraceOnlyAnalyses(job: Job, tr: seq<Sys>)
    requires Trace(job, tr) && OnlyAnalysed(job, tr[0].db)
    ensures OnlyAnalysed(job, tr[|tr| - 1].db)
    decreases |tr|
  {
    if |tr| > 1 {
      TraceOnlyAnalyses(job, tr[..|tr| - 1]);
      assert Next(job, tr[|tr| - 2], tr[|tr| - 1]);
    }
  }

  /** For a scan of the same list on the database that its own earlier scans left, with
      whatever kills and failing calls: where the hash is stored, all files are analysed
      if and only if no analysis fails. */
  lemma HashMeansNoFailure(scan: Scan, tr: seq<Sys>)
    requires Trace(scan.job, tr) && tr[0] == Sys(EMPTY, Down)
    requires StoresHash(scan, tr[|tr| - 1].db) && scan.job.files != []
    ensures (forall p | p in scan.job.files :: p in Analyze(scan.job, scan.faults, tr[|tr| - 1].db).state.analysed) <==>
            (forall p | p in scan.job.files :: scan.job.what(p).Analyzed?)
  {
    var job, f, db := scan.job, scan.faults, tr[|tr| - 1].db;
    ResumeRefinesSingleRun(job, tr);
    TraceOnlyAnalyses(job, tr);
    SkippedOrAhead(job, f, db);
    var skipped, ahead := Skipped(job, f.loadOk, db), Ahead(job, StartIndex(job, f.loadOk, db));
    assert forall p :: p in job.files <==> p in skipped || p in ahead;
    assert forall p | p in skipped :: Done(job, p, db);
  }

  /** So one file that cannot be analysed does not keep the hash back. */
  lemma HashStoredOverFailure() returns (scan: Scan)
    ensures scan.job.files == ["a"] && scan.job.what("a").Failed? && StoresHash(scan, EMPTY)
    ensures "a" !in Analyze(scan.job, scan.faults, EMPTY).state.analysed
  {
    var job := Job(["a"], p => Failed, 0.0);
    var f := Faults(true, true, true, i => true);
    scan := Scan(job, Some("h"), true, true, true, f);
    var db := AfterFile(job, true, 0, ZERO, EMPTY);
    assert db == State(None, {"a"}, {});
    assert Analyze(job, f, EMPTY) == Loop(job, f, 1, ZERO, 0, db) == Run(End(ZERO, 0, false), db);
  }

  /** The same files in some order, with the same outcomes. */
  ghost predicate SameFiles(a: Job, b: Job) {
    multiset(a.files) == multiset(b.files) && a.what == b.what && a.budget == b.budget
  }

  ghost predicate Faultless(f: Faults) { f.loadOk && f.clearStaleOk && f.clearEndOk && forall i :: f.saveOk(i) }

  /** A first scan is killed behind its first file.  The next one finds the same two
      files in the other order: one is analysed twice, the other never, and nothing is
      reported as halted. */
  lemma EqualLengthIsNotEnough() returns (first: Job, tr: seq<Sys>, job: Job, f: Faults)
    ensures Trace(first, tr) && tr[0] == Sys(EMPTY, Down) && tr[|tr| - 1].proc == Down
    ensures SameFiles(first, job) && multiset(job.files) == multiset{"a", "b"} && Faultless(f)
    ensures !Analyze(job, f, tr[|tr| - 1].db).end.halted
    ensures "b" in job.files && "b" !in Analyze(job, f, tr[|tr| - 1].db).state.attempted
  {
    var what: Path -> Outcome := p => Analyzed(0.0, false, 0);
    first, job := Job(["a", "b"], what, 0.0), Job(["b", "a"], what, 0.0);
    f := Faults(true, true, true, i => true);
    var t1 := Tally(1, 0, 0.0);
    var db1 := State(Some(Checkpoint(0, "a", t1, 2)), {"a"}, {"a"});
    tr := [Sys(EMPTY, Down), Sys(EMPTY, Looping(0, ZERO, 0)), Sys(db1, Looping(1, t1, 0)), Sys(db1, Down)];
    assert StartState(first, true, true, EMPTY) == EMPTY && StartIndex(first, true, EMPTY) == 0;
    assert Next(first, tr[0], tr[1]);
    assert AfterFile(first, true, 0, ZERO, EMPTY) == db1;
    assert Next(first, tr[1], tr[2]);
    assert Next(first, tr[2], tr[3]);
    var run := Loop(job, f, 1, t1, 0, db1);
    assert Analyze(job, f, db1) == run;
    assert run == Loop(job, f, 2, Tally(2, 0, 0.0), 0, AfterFile(job, true, 1, t1, db1));
    assert run.state.attempted == {"a"};
    assert job.files[0] == "b";
  }

  // ------------------------------------------------------------------- budget

  ghost predicate CostsWithin(job: Job, m: real) {
    forall p | p in job.files && job.what(p).Analyzed? :: 0.0 <= job.what(p).cost <= m
  }

  lemma {:induction false} RunWithinBudget(job: Job, i: nat, t: Tally, issues: nat, m: real)
    requires job.budget > 0.0 && CostsWithin(job, m) && 0.0 <= m && t.cost < job.budget + m
    ensures RunFrom(job, i, t, issues).tally.cost < job.budget + m
    ensures RunFrom(job, i, t, issues).halted ==> RunFrom(job, i, t, issues).tally.cost >= job.budget
    decreases |job.files| - i
  {
    if i < |job.files| && !OverBudget(job, t) {
      var o := job.what(job.files[i]);
      RunWithinBudget(job, i + 1, Add(t, o), issues + IssuesOf(o), m);
    }
  }

  /** With a cap and no negative costs, a scan that began without a usable checkpoint
      and was killed and restarted in any way ends below the budget plus the largest
      single cost, and it is halted only at or over the budget. */
  lemma BudgetBound(job: Job, tr: seq<Sys>, m: real)
    requires job.budget > 0.0 && CostsWithin(job, m) && 0.0 <= m
    requires Trace(job, tr) && tr[0].proc == Down && !Usable(tr[0].db.row, |job.files|)
    requires tr[|tr| - 1].proc.Finished?
    ensures var e := tr[|tr| - 1].proc.end;
            e.tally.cost < job.budget + m && (e.halted ==> e.tally.cost >= job.budget)
  {
    ResumeRefinesSingleRun(job, tr);
    RunWithinBudget(job, 0, ZERO, 0, m);
  }

  /** A checkpoint that was saved when the loop halted: over budget, with files left. */
  predicate Spent(budget: real, n: nat, db: State) {
    Usable(db.row, n) && db.row.value.last + 1 < n && budget > 0.0 && db.row.value.tally.cost >= budget
  }

  /** When every save worked, the row always holds the running tally. */
  lemma {:induction false} LoopSavesTally(job: Job, f: Faults, i: nat, t: Tally, issues: nat, db: State)
    requires forall j :: f.saveOk(j)
    requires t == ZERO || (Usable(db.row, |job.files|) && db.row.value.last < i && db.row.value.tally == t)
    requires Loop(job, f, i, t, issues, db).end.halted
    ensures Spent(job.budget, |job.files|, Loop(job, f, i, t, issues, db).state)
    decreases |job.files| - i
  {
    if i < |job.files| && !OverBudget(job, t) {
      var o := job.what(job.files[i]);
      LoopSavesTally(job, f, i + 1, Add(t, o), issues + IssuesOf(o), AfterFile(job, f.saveOk(i), i, t, db));
    }
  }

  /** A halted scan whose saves worked leaves a spent checkpoint ... */
  lemma HaltLeavesSpentCheckpoint(job: Job, f: Faults, db: State)
    requires (forall j :: f.saveOk(j)) && Analyze(job, f, db).end.halted
    ensures Spent(job.budget, |job.files|, Analyze(job, f, db).state)
  {
    LoopSavesTally(job, f, StartIndex(job, f.loadOk, db), StartTally(job, f.loadOk, db), 0,
                   StartState(job, f.loadOk, f.clearStaleOk, db));
  }

  /** ... and that is exactly when a scan is stuck: it halts with the tally it began with
      if and only if it loads a spent checkpoint.  Otherwise the next scan goes on, as the
      comment beside the commit hash expects. */
  lemma StuckIffSpent(job: Job, f: Faults, db: State)
    ensures var run := Analyze(job, f, db);
            run.end.halted && run.end.tally == StartTally(job, f.loadOk, db) <==>
            f.loadOk && Spent(job.budget, |job.files|, db)
  {
    var i, t := StartIndex(job, f.loadOk, db), StartTally(job, f.loadOk, db);
    LoopRuns(job, f, i, t, 0, StartState(job, f.loadOk, f.clearStaleOk, db));
    HaltsOverBudget(job, i, t, 0);
  }

  lemma {:induction false} HaltsOverBudget(job: Job, i: nat, t: Tally, issues: nat)
    ensures RunFrom(job, i, t, issues).halted ==> i < |job.files| && OverBudget(job, RunFrom(job, i, t, issues).tally)
    decreases |job.files| - i
  {
    if i < |job.files| && !OverBudget(job, t) {
      var o := job.what(job.files[i]);
      HaltsOverBudget(job, i + 1, Add(t, o), issues + IssuesOf(o));
    }
  }

  /** It does happen: two files that cost the whole budget each, from an empty database.
      The second scan halts at once, and the second file is never attempted. */
  lemma SecondScanIsStuck() returns (job: Job, f: Faults)
    ensures job.files == ["a", "b"] && job.budget > 0.0 && Faultless(f)
    ensures var first := Analyze(job, f, EMPTY);
            && first.end.halted && "b" !in first.state.attempted
            && Analyze(job, f, first.state) == Run(End(first.end.tally, 0, true), first.state)
  {
    job := Job(["a", "b"], p => Analyzed(1.0, false, 0), 1.0);
    f := Faults(true, true, true, i => true);
    var db := AfterFile(job, true, 0, ZERO, EMPTY);
    var t := Tally(1, 0, 1.0);
    assert Analyze(job, f, EMPTY) == Loop(job, f, 1, t, 0, db) == Run(End(t, 0, true), db);
  }

  /** Then no later scan of that many files, whichever files they are, gets
      anything done: it halts before its first file, the row stays spent, and so does
      the scan after it.  The remaining files are never reached from the cache. */
  lemma {:induction false} SpentCheckpointSticks(jobs: seq<Job>, fs: seq<Faults>, budget: real, n: nat, db: State)
    requires |jobs| == |fs| && Spent(budget, n, db)
    requires forall k | 0 <= k < |jobs| :: |jobs[k].files| == n && jobs[k].budget == budget && fs[k].loadOk
    ensures Scans(jobs, fs, db) == db
    ensures forall k | 0 <= k < |jobs| ::
              Analyze(jobs[k], fs[k], db) == Run(End(db.row.value.tally, 0, true), db)
    decreases |jobs|
  {
    if jobs != [] {
      SpentCheckpointSticks(jobs[1..], fs[1..], budget, n, db);
      forall k | 0 <= k < |jobs|
        ensures Analyze(jobs[k], fs[k], db) == Run(End(db.row.value.tally, 0, true), db)
      {
        if k > 0 { assert jobs[1..][k - 1] == jobs[k] && fs[1..][k - 1] == fs[k]; }
      }
    }
  }

  /** The database after a sequence of scans. */
  function Scans(jobs: seq<Job>, fs: seq<Faults>, db: State): State
    requires |jobs| == |fs|
    decreases |jobs|
  {
    if jobs == [] then db else Scans(jobs[1..], fs[1..], Analyze(jobs[0], fs[0], db).state)
  }
}
