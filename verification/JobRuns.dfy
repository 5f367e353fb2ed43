/** What the runs of the worker protocol do, beyond keeping its invariant: which jobs a removal frees
    and which it leaves, the order in which jobs run, where results come from, and that every removal
    and every job comes to its end. */
module JobRuns {
  import opened Common
  import opened JobProtocol

  /* Jobs run in the order in which they were scheduled. */

  ghost predicate Increasing(js: seq<Job>) {
    forall i, k :: 0 <= i < k < |js| ==> js[i].id < js[k].id
  }

  /** The jobs that have run, then those in the queue; `n` jobs have been scheduled. */
  ghost predicate InLine(ran: seq<Job>, queue: seq<Job>, n: nat) {
    Increasing(ran + queue) && forall j :: j in ran + queue ==> j.id < n
  }

  lemma LineAdd(ran: seq<Job>, queue: seq<Job>, n: nat, j: Job)
    requires InLine(ran, queue, n) && j.id == n
    ensures InLine(ran, queue + [j], n + 1)
  {
    assert ran + (queue + [j]) == (ran + queue) + [j];
  }

  lemma LineDrop(ran: seq<Job>, queue: seq<Job>, n: nat, at: nat)
    requires InLine(ran, queue, n) && at < |queue|
    ensures InLine(ran, queue[..at] + queue[at + 1..], n)
  {
    var all, k := ran + queue, |ran| + at;
    assert ran + (queue[..at] + queue[at + 1..]) == all[..k] + all[k + 1..];
  }

  lemma LineTake(ran: seq<Job>, queue: seq<Job>)
    requires queue != []
    ensures (ran + [queue[0]]) + queue[1..] == ran + queue
  {
  }

  lemma AddInLine(s: State, kind: Kind, pl: Playlist)
    requires InLine(s.ran, s.queue, |s.scheduled|)
    ensures var t := AddJob(s, kind, pl); InLine(t.ran, t.queue, |t.scheduled|)
  {
    LineAdd(s.ran, s.queue, |s.scheduled|, Job(|s.scheduled|, kind, pl));
  }

  lemma StepInLine(s: State, a: Action, t: State)
    requires InLine(s.ran, s.queue, |s.scheduled|) && Do(s, a) == Some(t)
    ensures InLine(t.ran, t.queue, |t.scheduled|)
  {
    match a
    case Create(_) => AddInLine(s.(live := s.live + {s.created}, created := s.created + 1), Kind(PL, ADD), s.created);
    case AddTo(target) => AddInLine(s, Kind(PL, ADD), if target.Visible? then s.visible else s.marked);
    case Schedule(kind, pl) => AddInLine(s, kind, pl);
    case Proceed =>
      if s.main.Returned? && s.main.goal.Some? {
        AddInLine(s.(main := Ready), Kind(PL, DELETE), s.main.goal.value);
      }
    case Scan =>
      if s.main.at < |s.queue| {
        LineDrop(s.ran, s.queue, |s.scheduled|, s.main.at);
      }
    case Take => LineTake(s.ran, s.queue);
    case _ =>
  }

  /** In every run, jobs have run in the order in which they were scheduled, and the queue goes on in
      that order. */
  lemma {:induction false} RunOrder(run: seq<State>, i: nat)
    requires Run(run) && i < |run|
    ensures InLine(run[i].ran, run[i].queue, |run[i].scheduled|)
  {
    if i > 0 {
      RunOrder(run, i - 1);
      var a := StepOf(run, i);
      StepInLine(run[i - 1], a, run[i]);
    }
  }

  lemma StepOf(run: seq<State>, i: nat) returns (a: Action)
    requires Run(run) && 0 < i < |run|
    ensures Do(run[i - 1], a) == Some(run[i])
  {
    assert StepAt(run, i);
    var s, t := run[i - 1], run[i];
    a :| Do(s, a) == Some(t);
  }

  /** There is a run, and it goes on with each step that can be taken. */
  lemma Beginning() returns (run: seq<State>)
    ensures Run(run) && |run| == 1
  {
    run := [State([], None, false, [], Ready, {0}, 0, 0, 1, [], [], [], [])];
  }

  lemma RunGoesOn(run: seq<State>, a: Action, next: State)
    requires Run(run) && Do(run[|run| - 1], a) == Some(next)
    ensures Run(run + [next])
  {
    hide Do, Init;
    var more := run + [next];
    forall i | 0 < i < |more| ensures StepAt(more, i) {
      if i < |run| {
        assert StepAt(run, i);
      } else {
        assert more[i - 1] == run[|run| - 1] && more[i] == next;
      }
    }
  }

  /* Removals. */

  /** What a removal is for, said of a job's kind and playlist: the jobs that add to the playlist which
      is being deleted, or those with one of the areas or acts asked for. */
  predicate Meant(p: Pattern, j: Job) {
    match p
    case AddJobsOf(pl) => j.kind == Kind(PL, ADD) && j.pl == pl
    case ByType(areas, acts) => j.kind.area in areas || j.kind.act in acts
  }

  lemma MatchesMeant(p: Pattern, j: Job)
    ensures Matches(p, j) <==> Meant(p, j)
  {
  }

  /** The jobs of a queue that a removal is not for, in their order. */
  function Without(queue: seq<Job>, p: Pattern): seq<Job> {
    if queue == [] then []
    else
      var last := queue[|queue| - 1];
      Without(queue[..|queue| - 1], p) + if Meant(p, last) then [] else [last]
  }

  lemma WithoutNext(queue: seq<Job>, p: Pattern, k: nat)
    requires k < |queue|
    ensures Without(queue[..k + 1], p) == Without(queue[..k], p) + if Meant(p, queue[k]) then [] else [queue[k]]
  {
    assert queue[..k + 1][..k] == queue[..k];
  }

  /** A removal that began with `queue`, seen `k` jobs of it later. */
  ghost predicate Looked(s: State, queue: seq<Job>, k: nat)
    requires s.main.Removing?
  {
    var kept := if k <= |queue| then Without(queue[..k], s.main.pat) else [];
    k <= |queue| && s.main.at == |kept| && s.queue == kept + queue[k..]
  }

  lemma Behind(all: seq<Job>, kept: seq<Job>, queue: seq<Job>, k: nat)
    requires k < |queue| && all == kept + queue[k..]
    ensures |kept| < |all| && all[|kept|] == queue[k]
    ensures all[..|kept|] + all[|kept| + 1..] == kept + queue[k + 1..]
    ensures all == kept + [queue[k]] + queue[k + 1..]
  {
    assert queue[k..] == [queue[k]] + queue[k + 1..];
    Assoc(kept, [queue[k]], queue[k + 1..]);
    assert all[..|kept|] == kept && all[|kept| + 1..] == queue[k + 1..];
  }

  lemma LookNext(s: State, queue: seq<Job>, k: nat)
    requires s.main.Removing? && Looked(s, queue, k) && k < |queue|
    ensures ScanStep(s).main.Removing? && ScanStep(s).main.pat == s.main.pat && ScanStep(s).ran == s.ran
    ensures Looked(ScanStep(s), queue, k + 1)
  {
    hide Without, Meant, Matches;
    MatchesMeant(s.main.pat, queue[k]);
    WithoutNext(queue, s.main.pat, k);
    Behind(s.queue, Without(queue[..k], s.main.pat), queue, k);
  }

  /** The loop comes to its end. */
  lemma LookEnd(s: State, queue: seq<Job>, k: nat)
    requires s.main.Removing? && Looked(s, queue, k) && k == |queue|
    ensures !ScanStep(s).main.Removing? && s.queue == Without(queue, s.main.pat) && ScanStep(s).queue == s.queue && ScanStep(s).ran == s.ran
    ensures ScanStep(s).main.pat == s.main.pat
  {
    assert queue[..k] == queue && queue[k..] == [];
  }

  /** Behind the loop, jobs only go from the queue to those that run. */
  lemma LineStays(s: State, a: Action, t: State)
    requires Do(s, a) == Some(t) && !s.main.Ready? && !s.main.Removing? && !t.main.Ready?
    ensures t.ran + t.queue == s.ran + s.queue && !t.main.Removing? && t.main.pat == s.main.pat
  {
    if a.Take? {
      LineTake(s.ran, s.queue);
    }
  }

  /** While the loop runs nothing else touches the queue. */
  lemma LoopAlone(s: State, a: Action, t: State)
    requires Do(s, a) == Some(t) && s.main.Removing?
    ensures a.Scan? || a.Push?
    ensures !a.Scan? ==> t.main == s.main && t.queue == s.queue && t.ran == s.ran
  {
  }

  lemma RemovalStep(s: State, a: Action, t: State, ran: seq<Job>, queue: seq<Job>, p: Pattern, k: nat) returns (k': nat)
    requires Do(s, a) == Some(t) && !t.main.Ready?
    requires Removed(s, ran, queue, p, k)
    ensures Removed(t, ran, queue, p, k')
  {
    k' := k;
    if s.main.Removing? {
      LoopAlone(s, a, t);
      if a.Scan? {
        if k < |queue| {
          LookNext(s, queue, k);
          k' := k + 1;
        } else {
          LookEnd(s, queue, k);
        }
      }
    } else {
      LineStays(s, a, t);
    }
  }

  /** How far a removal of what `p` is for has come that began with these jobs. */
  ghost predicate Removed(s: State, ran: seq<Job>, queue: seq<Job>, p: Pattern, k: nat) {
    && !s.main.Ready? && s.main.pat == p
    && if s.main.Removing? then s.ran == ran && Looked(s, queue, k) else s.ran + s.queue == ran + Without(queue, p)
  }

  lemma {:induction false} RemovalSoFar(run: seq<State>, k: nat, i: nat) returns (seen: nat)
    requires Run(run) && k <= i < |run| && run[k].main.Removing? && run[k].main.at == 0
    requires forall m :: k <= m <= i ==> !run[m].main.Ready?
    ensures Removed(run[i], run[k].ran, run[k].queue, run[k].main.pat, seen)
    decreases i
  {
    if i == k {
      seen := 0;
      assert run[k].queue[..0] == [] && run[k].queue[0..] == run[k].queue;
    } else {
      seen := RemovalSoFar(run, k, i - 1);
      var a := StepOf(run, i);
      seen := RemovalStep(run[i - 1], a, run[i], run[k].ran, run[k].queue, run[k].main.pat, seen);
    }
  }

  /** When worker_remove_jobs_by_cb returns, the queue is what it was at the beginning without the jobs
      the removal is for, in the same order, but for jobs at its front that the worker has begun to
      run in the meantime. No other job has gone. */
  lemma OthersStay(run: seq<State>, k: nat, i: nat)
    requires Run(run) && k <= i < |run| && run[k].main.Removing? && run[k].main.at == 0 && run[i].main.Returned?
    requires forall m :: k <= m <= i ==> !run[m].main.Ready?
    ensures run[i].ran + run[i].queue == run[k].ran + Without(run[k].queue, run[k].main.pat)
  {
    var _ := RemovalSoFar(run, k, i);
  }

  /* Jobs that were freed without having run. */

  /** A removal is going on that is for the job `j` of the queue. */
  ghost predicate Removes(s: State, j: Job) {
    s.main.Removing? && j in s.queue && Meant(s.main.pat, j)
  }

  lemma FreedByRemoval(s: State, a: Action, t: State, j: Job)
    requires Do(s, a) == Some(t) && j in t.freed && j !in t.ran && !(j in s.freed && j !in s.ran)
    requires s.cur.Some? ==> s.cur.value in s.ran
    ensures Removes(s, j)
  {
    if a.Scan? {
      MatchesMeant(s.main.pat, j);
    }
  }

  lemma CurrentRuns(s: State, a: Action, t: State)
    requires (s.cur.Some? ==> s.cur.value in s.ran) && Do(s, a) == Some(t)
    ensures t.cur.Some? ==> t.cur.value in t.ran
  {
  }

  lemma {:induction false} CurrentRan(run: seq<State>, i: nat)
    requires Run(run) && i < |run|
    ensures run[i].cur.Some? ==> run[i].cur.value in run[i].ran
  {
    if i > 0 {
      CurrentRan(run, i - 1);
      var a := StepOf(run, i);
      CurrentRuns(run[i - 1], a, run[i]);
    }
  }

  /** A job that was freed without having run was in the queue during a removal that was for it. */
  lemma {:induction false} FreedUnrun(run: seq<State>, i: nat, j: Job) returns (k: nat)
    requires Run(run) && i < |run| && j in run[i].freed && j !in run[i].ran
    ensures k < i && Removes(run[k], j)
  {
    if i > 0 {
      if j in run[i - 1].freed && j !in run[i - 1].ran {
        k := FreedUnrun(run, i - 1, j);
      } else {
        CurrentRan(run, i - 1);
        var a := StepOf(run, i);
        FreedByRemoval(run[i - 1], a, run[i], j);
        k := i - 1;
      }
    }
  }

  /* Waiting. */

  ghost predicate WaitOk(s: State) {
    s.main.Waiting? && s.cancel ==> s.cur.Some? && Meant(s.main.pat, s.cur.value)
  }

  lemma WaitStep(s: State, a: Action, t: State)
    requires WaitOk(s) && RemovalOk(s) && Do(s, a) == Some(t)
    ensures WaitOk(t)
  {
    if a.Scan? && s.cur.Some? {
      MatchesMeant(s.main.pat, s.cur.value);
    }
  }

  /** worker_remove_jobs_by_cb cancels and waits for the running job only if it is for that job. */
  lemma {:induction false} WaitsOnlyForMeant(run: seq<State>, i: nat)
    requires Run(run) && i < |run|
    ensures var s := run[i]; s.main.Waiting? && s.cancel ==> s.cur.Some? && Meant(s.main.pat, s.cur.value)
  {
    if i > 0 {
      WaitsOnlyForMeant(run, i - 1);
      RunInv(run, i - 1);
      var a := StepOf(run, i);
      WaitStep(run[i - 1], a, run[i]);
    }
  }

  /* Results. */

  ghost predicate DeleteIn(js: seq<Job>, pl: Playlist) {
    exists i :: 0 <= i < |js| && js[i].kind == Kind(PL, DELETE) && js[i].pl == pl
  }

  ghost predicate AddIn(js: seq<Job>, pl: Playlist) {
    exists i :: 0 <= i < |js| && js[i].kind == Kind(PL, ADD) && js[i].pl == pl
  }

  /** `rs` reports the deletions among the jobs `freed`, and additions by jobs in `ran` only. */
  ghost predicate Reported(rs: seq<Result>, freed: seq<Job>, ran: seq<Job>) {
    && (forall pl :: Deleted(pl) in rs <==> DeleteIn(freed, pl))
    && forall pl :: Added(pl) in rs ==> AddIn(ran, pl)
  }

  lemma DeleteInMore(js: seq<Job>, j: Job, pl: Playlist)
    ensures DeleteIn(js + [j], pl) <==> DeleteIn(js, pl) || (j.kind == Kind(PL, DELETE) && j.pl == pl)
  {
    if DeleteIn(js, pl) {
      var i :| 0 <= i < |js| && js[i].kind == Kind(PL, DELETE) && js[i].pl == pl;
      assert (js + [j])[i] == js[i];
    }
    assert (js + [j])[|js|] == j;
  }

  lemma AddInMore(js: seq<Job>, j: Job, pl: Playlist)
    ensures AddIn(js + [j], pl) <==> AddIn(js, pl) || (j.kind == Kind(PL, ADD) && j.pl == pl)
  {
    if AddIn(js, pl) {
      var i :| 0 <= i < |js| && js[i].kind == Kind(PL, ADD) && js[i].pl == pl;
      assert (js + [j])[i] == js[i];
    }
    assert (js + [j])[|js|] == j;
  }

  lemma FreedReported(rs: seq<Result>, freed: seq<Job>, ran: seq<Job>, j: Job)
    requires Reported(rs, freed, ran)
    ensures Reported(rs + FreeResults(j), freed + [j], ran)
  {
    forall pl ensures Deleted(pl) in rs + FreeResults(j) <==> DeleteIn(freed + [j], pl) {
      DeleteInMore(freed, j, pl);
    }
  }

  lemma RanReported(rs: seq<Result>, freed: seq<Job>, ran: seq<Job>, j: Job)
    requires Reported(rs, freed, ran)
    ensures Reported(rs, freed, ran + [j])
  {
    forall pl | Added(pl) in rs ensures AddIn(ran + [j], pl) {
      AddInMore(ran, j, pl);
    }
  }

  lemma PushReported(rs: seq<Result>, freed: seq<Job>, ran: seq<Job>, j: Job)
    requires Reported(rs, freed, ran) && j in ran
    ensures Reported(rs + [if IsAdd(j) then Added(j.pl) else Other], freed, ran)
  {
    var i :| 0 <= i < |ran| && ran[i] == j;
    if IsAdd(j) {
      assert AddIn(ran, j.pl);
    }
  }

  lemma ReportedStep(s: State, a: Action, t: State)
    requires Reported(AllResults(s), s.freed, s.ran) && Do(s, a) == Some(t) && (s.cur.Some? ==> s.cur.value in s.ran)
    ensures Reported(AllResults(t), t.freed, t.ran)
  {
    match a
    case Scan =>
      if s.main.at < |s.queue| {
        var j := s.queue[s.main.at];
        FreedReported(AllResults(s), s.freed, s.ran, j);
        Assoc(s.handled, s.results, FreeResults(j));
      }
    case Finish =>
      FreedReported(AllResults(s), s.freed, s.ran, s.cur.value);
      Assoc(s.handled, s.results, FreeResults(s.cur.value));
    case Take =>
      RanReported(AllResults(s), s.freed, s.ran, s.queue[0]);
    case Push =>
      PushReported(AllResults(s), s.freed, s.ran, s.cur.value);
      Assoc(s.handled, s.results, [if IsAdd(s.cur.value) then Added(s.cur.value.pl) else Other]);
    case Handle =>
      assert AllResults(t) == AllResults(s);
    case _ =>
  }

  /** A playlist is reported as deleted if and only if its delete job has been freed, and additions to
      it only if a job that adds to it has run. */
  lemma {:induction false} RunReported(run: seq<State>, i: nat)
    requires Run(run) && i < |run|
    ensures Reported(AllResults(run[i]), run[i].freed, run[i].ran)
  {
    if i > 0 {
      RunReported(run, i - 1);
      CurrentRan(run, i - 1);
      var a := StepOf(run, i);
      ReportedStep(run[i - 1], a, run[i]);
    }
  }

  /* Deletions. */

  /** A playlist that was taken off the list has a delete job, one only, or will get it when the removal
      returns; no other playlist has one. */
  ghost predicate Deletions(s: State) {
    && (forall pl :: DeleteIn(s.scheduled, pl) <==> Gone(s, pl))
    && forall i, k :: 0 <= i < k < |s.scheduled| && IsDelete(s.scheduled[i]) && IsDelete(s.scheduled[k]) ==> s.scheduled[i].pl != s.scheduled[k].pl
  }

  lemma DeletionsAdd(s: State, kind: Kind, pl: Playlist, t: State)
    requires Deletions(s) && t.scheduled == AddJob(s, kind, pl).scheduled
    requires forall p :: Gone(t, p) <==> Gone(s, p) || (kind == Kind(PL, DELETE) && p == pl)
    requires kind == Kind(PL, DELETE) ==> !Gone(s, pl)
    ensures Deletions(t)
  {
    var j := Job(|s.scheduled|, kind, pl);
    forall p ensures DeleteIn(t.scheduled, p) <==> Gone(t, p) {
      DeleteInMore(s.scheduled, j, p);
    }
    forall i | 0 <= i < |s.scheduled| && IsDelete(s.scheduled[i]) && IsDelete(j) ensures s.scheduled[i].pl != pl {
      assert DeleteIn(s.scheduled, s.scheduled[i].pl);
    }
  }

  lemma DeletionsSame(s: State, t: State)
    requires Deletions(s) && t.scheduled == s.scheduled && forall p :: Gone(t, p) <==> Gone(s, p)
    ensures Deletions(t)
  {
  }

  lemma DeletionsStep(s: State, a: Action, t: State)
    requires Deletions(s) && Inv(s) && Do(s, a) == Some(t)
    ensures Deletions(t)
  {
    match a
    case Create(load) =>
      if load {
        DeletionsAdd(s, Kind(PL, ADD), s.created, t);
      } else {
        DeletionsSame(s, t);
      }
    case AddTo(target) => DeletionsAdd(s, Kind(PL, ADD), if target.Visible? then s.visible else s.marked, t);
    case Schedule(kind, pl) => DeletionsAdd(s, kind, pl, t);
    case Proceed =>
      if s.main.Returned? && s.main.goal.Some? {
        DeletionsAdd(s, Kind(PL, DELETE), s.main.goal.value, t);
      } else {
        DeletionsSame(s, t);
      }
    case _ => DeletionsSame(s, t);
  }

  lemma {:induction false} RunDeletions(run: seq<State>, i: nat)
    requires Run(run) && i < |run|
    ensures Deletions(run[i])
  {
    if i > 0 {
      RunDeletions(run, i - 1);
      RunInv(run, i - 1);
      var a := StepOf(run, i);
      DeletionsStep(run[i - 1], a, run[i]);
    }
  }

  /* Everything comes to its end. */

  /** The steps that neither begin anything nor deliver results of a running job. */
  predicate Works(a: Action) {
    a.Scan? || a.Proceed? || a.Take? || a.Finish?
  }

  function MainWork(s: State): nat {
    match s.main
    case Ready => 0
    case Returned(_, _) => 3
    case Waiting(_, _) => 4
    case Removing(_, _, at) => 5 + if at <= |s.queue| then |s.queue| - at else 0
  }

  /** What is still to be done. */
  function Work(s: State): nat {
    2 * |s.queue| + (if s.cur.Some? then 1 else 0) + MainWork(s)
  }

  /** Each such step brings the end closer. */
  lemma WorkFalls(s: State, a: Action, t: State)
    requires Do(s, a) == Some(t) && Works(a) && (s.main.Removing? ==> s.main.at <= |s.queue|)
    ensures Work(t) < Work(s)
  {
  }

  /** And as long as there is a job or the main thread is in a removal, there is one, in every state of
      every run: no removal waits forever, and no job is left. */
  lemma NeverStuck(run: seq<State>, i: nat) returns (a: Action)
    requires Run(run) && i < |run| && (run[i].queue != [] || run[i].cur.Some? || !run[i].main.Ready?)
    ensures Works(a) && Do(run[i], a).Some? && Work(Do(run[i], a).value) < Work(run[i])
  {
    var s := run[i];
    RunInv(run, i);
    a := if s.main.Removing? then Scan
         else if s.cur.Some? then Finish
         else if !s.main.Ready? then Proceed
         else Take;
    WorkFalls(s, a, Do(s, a).value);
  }
}
