/** The task-file watcher of src/task_watcher.rs: repeated directory scans that send
    each settled file on a channel at most once. */
module TaskWatcher {
  import opened Wrappers

  type Path = string

  /** One directory entry as a scan finds it.  `parses` is whether the file loads and
      validates at that moment. */
  datatype Entry =
    | Unreadable
    | Item(path: Path, isFile: bool, extension: Option<string>, inResults: bool, parses: bool)

  /** One scan: what the directory holds, and whether the send for each entry works. */
  datatype Snapshot = Snapshot(isDir: bool, listable: bool, entries: seq<Entry>, sendOk: nat -> bool)

  function Lower(c: char): char { if 'A' <= c <= 'Z' then (c as int + 32) as char else c }

  predicate EqIgnoreCase(a: string, b: string) {
    |a| == |b| && forall i | 0 <= i < |a| :: Lower(a[i]) == Lower(b[i])
  }

  predicate HasExtension(e: Entry, ext: string)
    requires e.Item?
  {
    e.extension.Some? && EqIgnoreCase(e.extension.value, ext)
  }

  /** A visible task file. */
  predicate Visible(e: Entry) {
    e.Item? && e.isFile && !HasExtension(e, "tmp") && HasExtension(e, "json") && !e.inResults
  }

  datatype Progress = Progress(seen: set<Path>, sent: seq<Path>)

  /** What one entry does to the seen set and the channel. */
  function Settle(w: Progress, e: Entry, sendOk: bool): Progress {
    if !Visible(e) || e.path in w.seen then w
    else if !e.parses then w.(seen := w.seen + {e.path})
    else if sendOk then Progress(w.seen + {e.path}, w.sent + [e.path])
    else w
  }

  function ScanFrom(w: Progress, s: Snapshot, i: nat): Progress
    decreases |s.entries| - i
  {
    if i >= |s.entries| then w else ScanFrom(Settle(w, s.entries[i], s.sendOk(i)), s, i + 1)
  }

  /** scan_and_process_tasks. */
  function ScanOnce(w: Progress, s: Snapshot): Progress {
    if !s.isDir || !s.listable then w else ScanFrom(w, s, 0)
  }

  function ScanAll(w: Progress, scans: seq<Snapshot>): Progress
    decreases |scans|
  {
    if scans == [] then w else ScanAll(ScanOnce(w, scans[0]), scans[1..])
  }

  class Watcher {
    var seenFiles: set<Path>
    var channel: seq<Path>

    function Progressed(): Progress
      reads this
    {
      Progress(seenFiles, channel)
    }

    constructor ()
      ensures Progressed() == Progress({}, [])
    {
      seenFiles, channel := {}, [];
    }

    method ScanAndProcess(s: Snapshot) returns (ok: bool)
      modifies this
      ensures Progressed() == ScanOnce(old(Progressed()), s)
      ensures ok <==> !s.isDir || s.listable
    {
      if !s.isDir { return true; }
      if !s.listable { return false; }
      for i := 0 to |s.entries|
        invariant ScanFrom(Progressed(), s, i) == ScanFrom(old(Progressed()), s, 0)
      {
        var e := s.entries[i];
        if e.Unreadable? { continue; }
        if !e.isFile { continue; }
        if HasExtension(e, "tmp") { continue; }
        if !HasExtension(e, "json") { continue; }
        if e.inResults { continue; }
        if e.path in seenFiles { continue; }
        if e.parses {
          if s.sendOk(i) {
            channel := channel + [e.path];
            seenFiles := seenFiles + {e.path};
          }
        } else {
          seenFiles := seenFiles + {e.path};
        }
      }
      return true;
    }

    /** The watch loop, for as many ticks as it has run: a failed scan only logs. */
    method Watch(scans: seq<Snapshot>)
      modifies this
      ensures Progressed() == ScanAll(old(Progressed()), scans)
    {
      for i := 0 to |scans|
        invariant ScanAll(Progressed(), scans[i..]) == ScanAll(old(Progressed()), scans)
      {
        assert scans[i..][1..] == scans[i + 1..];
        var _ := ScanAndProcess(scans[i]);
      }
    }
  }

  // ------------------------------------------------------------------ delivery

  /** No path is sent twice, and whatever was sent is seen. */
  ghost predicate Inv(w: Progress) {
    && (forall i, j | 0 <= i < j < |w.sent| :: w.sent[i] != w.sent[j])
    && (forall p | p in w.sent :: p in w.seen)
  }

  /** Later scans add to what is settled and never change it. */
  ghost predicate Extends(w: Progress, w2: Progress) {
    && w.seen <= w2.seen && w.sent <= w2.sent
    && (forall p | p in w.seen :: p in w2.sent <==> p in w.sent)
  }

  /** Where a scan that was at entry i with w stands at entry k. */
  function ScanTo(w: Progress, s: Snapshot, i: nat, k: nat): Progress
    decreases k - i
  {
    if i >= k || i >= |s.entries| then w else ScanTo(Settle(w, s.entries[i], s.sendOk(i)), s, i + 1, k)
  }

  /** Entry k settles path p in a scan that was at entry i with w: p was not seen right
      before entry k and is seen right after it.  The entry is visible, and it parses
      exactly if p is delivered. */
  ghost predicate SettledBy(w: Progress, s: Snapshot, i: nat, k: nat, p: Path, delivered: bool) {
    && i <= k < |s.entries| && Visible(s.entries[k]) && s.entries[k].path == p
    && p !in ScanTo(w, s, i, k).seen && p in ScanTo(w, s, i, k + 1).seen
    && s.entries[k].parses == delivered && (delivered ==> s.sendOk(k))
  }

  ghost predicate SettledIn(w: Progress, s: Snapshot, i: nat, p: Path, delivered: bool) {
    exists k :: SettledBy(w, s, i, k, p, delivered)
  }

  lemma {:induction false} ScanFromKeeps(w: Progress, s: Snapshot, i: nat)
    requires Inv(w)
    ensures var w2 := ScanFrom(w, s, i);
            && Inv(w2) && Extends(w, w2)
            && (forall p | p in w2.seen && p !in w.seen :: SettledIn(w, s, i, p, p in w2.sent))
    decreases |s.entries| - i
  {
    if i < |s.entries| {
      var e := s.entries[i];
      var w1 := Settle(w, e, s.sendOk(i));
      ScanFromKeeps(w1, s, i + 1);
      var w2 := ScanFrom(w1, s, i + 1);
      assert Extends(w, w2);
      forall p | p in w2.seen && p !in w.seen
        ensures SettledIn(w, s, i, p, p in w2.sent)
      {
        if p in w1.seen {
          assert p == e.path && (p in w1.sent <==> e.parses);
          assert ScanTo(w, s, i, i) == w && ScanTo(w, s, i, i + 1) == w1;
          assert SettledBy(w, s, i, i, p, p in w2.sent);
        } else {
          var k: nat :| SettledBy(w1, s, i + 1, k, p, p in w2.sent);
          assert SettledBy(w, s, i, k, p, p in w2.sent);
        }
      }
    }
  }

  /** A visible file that is not settled by the end of a scan parsed, and every attempt
      to send it failed: a failed send leaves the file eligible. */
  lemma {:induction false} UnsettledFailed(w: Progress, s: Snapshot, i: nat, k: nat)
    requires Inv(w) && i <= k < |s.entries| && Visible(s.entries[k])
    ensures s.entries[k].path !in ScanFrom(w, s, i).seen ==> s.entries[k].parses && !s.sendOk(k)
    decreases k - i
  {
    var w1 := Settle(w, s.entries[i], s.sendOk(i));
    if i < k {
      UnsettledFailed(w1, s, i + 1, k);
    } else {
      ScanFromKeeps(w1, s, i + 1);
    }
  }

  /** Scan a of those that began with w settles the path, from where the scans before
      it had left off. */
  ghost predicate SettledAt(w: Progress, scans: seq<Snapshot>, a: nat, p: Path, delivered: bool) {
    && a < |scans| && scans[a].isDir && scans[a].listable
    && SettledIn(ScanAll(w, scans[..a]), scans[a], 0, p, delivered)
  }

  ghost predicate SettledDuring(w: Progress, scans: seq<Snapshot>, p: Path, delivered: bool) {
    exists a :: SettledAt(w, scans, a, p, delivered)
  }

  lemma {:induction false} ScanAllKeeps(w: Progress, scans: seq<Snapshot>)
    requires Inv(w)
    ensures var w2 := ScanAll(w, scans);
            && Inv(w2) && Extends(w, w2)
            && (forall p | p in w2.seen && p !in w.seen :: SettledDuring(w, scans, p, p in w2.sent))
    decreases |scans|
  {
    if scans != [] {
      var s := scans[0];
      var w1 := ScanOnce(w, s);
      if s.isDir && s.listable { ScanFromKeeps(w, s, 0); }
      ScanAllKeeps(w1, scans[1..]);
      var w2 := ScanAll(w1, scans[1..]);
      forall p | p in w2.seen && p !in w.seen
        ensures SettledDuring(w, scans, p, p in w2.sent)
      {
        if p in w1.seen {
          assert ScanAll(w, scans[..0]) == w;
          assert SettledAt(w, scans, 0, p, p in w2.sent);
        } else {
          var a: nat :| SettledAt(w1, scans[1..], a, p, p in w2.sent);
          assert scans[..a + 1][0] == s && scans[..a + 1][1..] == scans[1..][..a];
          assert SettledAt(w, scans, a + 1, p, p in w2.sent);
        }
      }
    }
  }

  /** Delivery, over any sequence of scans, directory contents and channel failures
      from a new watcher: each path is sent at most once; every seen path was settled by
      one entry of one scan, not seen right before it and seen right after, and the path
      is delivered exactly when that entry parsed; and when the last scan completed and
      no send in it failed, every visible file is settled. */
  lemma Delivery(scans: seq<Snapshot>)
    ensures var w := ScanAll(Progress({}, []), scans);
            && (forall i, j | 0 <= i < j < |w.sent| :: w.sent[i] != w.sent[j])
            && (forall p | p in w.sent :: p in w.seen)
            && (forall p | p in w.seen :: SettledDuring(Progress({}, []), scans, p, p in w.sent))
    ensures scans != [] && Completed(scans[|scans| - 1]) ==>
              AllSettled(scans[|scans| - 1], ScanAll(Progress({}, []), scans))
  {
    var start := Progress({}, []);
    ScanAllKeeps(start, scans);
    if scans != [] && Completed(scans[|scans| - 1]) {
      var last := scans[|scans| - 1];
      var before := scans[..|scans| - 1];
      ScanAllSnoc(start, before, last);
      assert before + [last] == scans;
      ScanAllKeeps(start, before);
      forall k | 0 <= k < |last.entries| && Visible(last.entries[k])
        ensures last.entries[k].path in ScanAll(start, scans).seen
      {
        UnsettledFailed(ScanAll(start, before), last, 0, k);
      }
    }
  }

  ghost predicate AllSettled(s: Snapshot, w: Progress) {
    forall k | 0 <= k < |s.entries| && Visible(s.entries[k]) :: s.entries[k].path in w.seen
  }

  ghost predicate Completed(s: Snapshot) { s.isDir && s.listable && forall i :: s.sendOk(i) }

  lemma {:induction false} ScanAllSnoc(w: Progress, scans: seq<Snapshot>, s: Snapshot)
    ensures ScanAll(w, scans + [s]) == ScanOnce(ScanAll(w, scans), s)
    decreases |scans|
  {
    if scans == [] {
      assert scans + [s] == [s] && [s][1..] == [];
    } else {
      assert (scans + [s])[1..] == scans[1..] + [s];
      ScanAllSnoc(ScanOnce(w, scans[0]), scans[1..], s);
    }
  }

  // ----------------------------------------------------------- which files these are

  /** A regular file outside the results directory whose extension is json in any case. */
  predicate IsTaskFile(e: Entry) {
    && e.Item? && e.isFile && !e.inResults && e.extension.Some?
    && var x := e.extension.value;
       && |x| == 4
       && (x[0] == 'j' || x[0] == 'J') && (x[1] == 's' || x[1] == 'S')
       && (x[2] == 'o' || x[2] == 'O') && (x[3] == 'n' || x[3] == 'N')
  }

  lemma VisibleIff(e: Entry)
    ensures Visible(e) <==> IsTaskFile(e)
  {
    if e.Item? && e.extension.Some? {
      var x := e.extension.value;
      assert forall c: char :: Lower(c) == 'j' <==> c == 'j' || c == 'J';
      assert forall c: char :: Lower(c) == 's' <==> c == 's' || c == 'S';
      assert forall c: char :: Lower(c) == 'o' <==> c == 'o' || c == 'O';
      assert forall c: char :: Lower(c) == 'n' <==> c == 'n' || c == 'N';
      assert |x| == 4 ==> (EqIgnoreCase(x, "json") <==>
        && Lower(x[0]) == Lower('j') && Lower(x[1]) == Lower('s')
        && Lower(x[2]) == Lower('o') && Lower(x[3]) == Lower('n'));
    }
  }

  ghost predicate DistinctPaths(s: Snapshot) {
    forall i, j | 0 <= i < j < |s.entries| && s.entries[i].Item? && s.entries[j].Item? ::
      s.entries[i].path != s.entries[j].path
  }

  /** One scan of a directory, and what becomes of each file in it that is not yet seen:
      a task file is delivered exactly if it parses and its send works, and it stays
      unseen exactly if it parses and its send fails; nothing else is touched. */
  lemma ScanTreats(w: Progress, s: Snapshot, k: nat)
    requires Inv(w) && s.isDir && s.listable && DistinctPaths(s)
    requires k < |s.entries| && s.entries[k].Item? && s.entries[k].path !in w.seen
    ensures var (e, w2) := (s.entries[k], ScanOnce(w, s));
            && (e.path in w2.sent <==> IsTaskFile(e) && e.parses && s.sendOk(k))
            && (e.path in w2.seen <==> IsTaskFile(e) && (e.parses ==> s.sendOk(k)))
  {
    VisibleIff(s.entries[k]);
    ScanFromTreats(w, s, 0, k);
  }

  lemma {:induction false} ScanFromTreats(w: Progress, s: Snapshot, i: nat, k: nat)
    requires Inv(w) && DistinctPaths(s)
    requires k < |s.entries| && s.entries[k].Item? && (i <= k ==> s.entries[k].path !in w.seen)
    ensures var (e, w2) := (s.entries[k], ScanFrom(w, s, i));
            if i <= k then
              && (e.path in w2.sent <==> Visible(e) && e.parses && s.sendOk(k))
              && (e.path in w2.seen <==> Visible(e) && (e.parses ==> s.sendOk(k)))
            else
              (e.path in w2.sent <==> e.path in w.sent) && (e.path in w2.seen <==> e.path in w.seen)
    decreases |s.entries| - i
  {
    if i < |s.entries| {
      var w1 := Settle(w, s.entries[i], s.sendOk(i));
      SettleTouches(w, s.entries[i], s.sendOk(i));
      ScanFromTreats(w1, s, i + 1, k);
    }
  }

  lemma SettleTouches(w: Progress, e: Entry, sendOk: bool)
    requires Inv(w)
    ensures var w1 := Settle(w, e, sendOk);
            && Inv(w1)
            && (forall p | !e.Item? || p != e.path ::
                  (p in w1.sent <==> p in w.sent) && (p in w1.seen <==> p in w.seen))
            && (e.Item? && e.path !in w.seen ==>
                  && (e.path in w1.sent <==> Visible(e) && e.parses && sendOk)
                  && (e.path in w1.seen <==> Visible(e) && (e.parses ==> sendOk)))
  {
    var w1 := Settle(w, e, sendOk);
    if w1.sent != w.sent { assert forall p :: p in w1.sent <==> p in w.sent || p == e.path; }
  }

  /** And over any sequence of scans: what was sent is a task file that parsed, and after a
      scan in which nothing fails every task file in the directory is seen. */
  lemma TaskFilesAreSeen(scans: seq<Snapshot>)
    ensures var w := ScanAll(Progress({}, []), scans);
            && (forall p | p in w.sent :: SentFrom(scans, p))
            && (scans != [] && Completed(scans[|scans| - 1]) ==>
                  forall e | e in scans[|scans| - 1].entries && IsTaskFile(e) :: e.path in w.seen)
  {
    Delivery(scans);
    var start := Progress({}, []);
    var w := ScanAll(start, scans);
    ScanAllKeeps(start, scans);
    forall p | p in w.sent
      ensures SentFrom(scans, p)
    {
      assert p in w.seen;
      assert SettledDuring(start, scans, p, true);
      var a: nat :| SettledAt(start, scans, a, p, true);
      var k: nat :| SettledBy(ScanAll(start, scans[..a]), scans[a], 0, k, p, true);
      VisibleIff(scans[a].entries[k]);
      assert IsSent(scans[a], k, p);
    }
    if scans != [] && Completed(scans[|scans| - 1]) {
      var last := scans[|scans| - 1];
      forall e | e in last.entries && IsTaskFile(e)
        ensures e.path in w.seen
      {
        VisibleIff(e);
        var k :| 0 <= k < |last.entries| && last.entries[k] == e;
      }
    }
  }

  ghost predicate SentFrom(scans: seq<Snapshot>, p: Path) {
    exists a, k :: 0 <= a < |scans| && 0 <= k < |scans[a].entries| && IsSent(scans[a], k, p)
  }

  predicate IsSent(s: Snapshot, k: nat, p: Path)
    requires k < |s.entries|
  {
    IsTaskFile(s.entries[k]) && s.entries[k].path == p && s.entries[k].parses && s.sendOk(k)
  }
}
