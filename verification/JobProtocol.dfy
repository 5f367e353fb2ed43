/** The background worker of app/worker.c with the result queue of app/job.c and the deferred
    playlist deletion of app/pl.c, as a transition system.

    The main thread schedules jobs, cancels them, deletes playlists and handles results; the
    worker thread takes jobs, runs them and frees them. One action is what one thread does between
    two points where the other one can do something; actions interleave in any order. */
module JobProtocol {
  import opened Common

  type Playlist = nat

  /** A job type: one bit for what the job is for and one for what it does. */
  datatype Area = LIB | PL | QUEUE
  datatype Act = ADD | UPDATE | UPDATE_CACHE | DELETE
  datatype Kind = Kind(area: Area, act: Act)

  /** struct worker_job; `pl` is the playlist its data refers to, if any. */
  datatype Job = Job(id: nat, kind: Kind, pl: Playlist)

  predicate IsAdd(j: Job) {
    j.kind == Kind(PL, ADD)
  }

  predicate IsDelete(j: Job) {
    j.kind == Kind(PL, DELETE)
  }

  /** The match callbacks: worker_matches_type with a mask, and pl_match_add_job. */
  datatype Pattern = ByType(areas: set<Area>, acts: set<Act>) | AddJobsOf(pl: Playlist)

  predicate Matches(p: Pattern, j: Job) {
    match p
    case ByType(areas, acts) => j.kind.area in areas || j.kind.act in acts
    case AddJobsOf(pl) => IsAdd(j) && j.pl == pl
  }

  datatype Result = Added(pl: Playlist) | Deleted(pl: Playlist) | Other

  /** JOB_TYPE_ANY. */
  const ANY := ByType({LIB, PL, QUEUE}, {ADD, UPDATE, UPDATE_CACHE, DELETE})

  /** Where the main thread is. Removing: inside worker_remove_jobs_by_cb, with worker_mutex held and
      the first `at` jobs of the queue looked at. Waiting: until the current job ends. Returned:
      worker_remove_jobs_by_cb has just returned. `goal` is the playlist that
      pl_delete_selected_pl goes on to delete. */
  datatype Main =
    | Ready
    | Removing(pat: Pattern, goal: Option<Playlist>, at: nat)
    | Waiting(pat: Pattern, goal: Option<Playlist>)
    | Returned(pat: Pattern, goal: Option<Playlist>)

  /** `live` are the playlists in the list, `visible` and `marked` the pointers into it.
      `scheduled`, `ran`, `freed` and `handled` are history: the jobs ever scheduled, started
      and freed, and the results already handled. */
  datatype State = State(
    queue: seq<Job>, cur: Option<Job>, cancel: bool, results: seq<Result>,
    main: Main, live: set<Playlist>, visible: Playlist, marked: Playlist, created: nat,
    scheduled: seq<Job>, ran: seq<Job>, freed: seq<Job>, handled: seq<Result>)

  /** After pl_init there is a playlist, and it is visible and marked. */
  predicate Init(s: State) {
    && s.live == {0} && s.visible == s.marked == 0 && s.created == 1
    && s.queue == [] && s.cur.None? && !s.cancel && s.results == [] && s.main.Ready?
    && s.scheduled == [] && s.ran == [] && s.freed == [] && s.handled == []
  }

  datatype Target = Visible | Marked

  /** Create: a new playlist, loaded from a file or empty. Select, Mark: the user moves the cursor or
      marks a playlist of the list. AddTo: files are added to the visible or the marked playlist.
      Schedule: any other job. Scan: the main thread's next step inside the removal loop. */
  datatype Action =
    | Create(load: bool)
    | Select(pl: Playlist)
    | Mark(pl: Playlist)
    | AddTo(target: Target)
    | Schedule(kind: Kind, pl: Playlist)
    | Remove(pat: Pattern)
    | DeletePl(next: Playlist)
    | Scan
    | Proceed
    | Handle
    | Take
    | Push
    | Finish

  /** worker_add_job; the job gets a fresh identity. */
  function AddJob(s: State, kind: Kind, pl: Playlist): State {
    var j := Job(|s.scheduled|, kind, pl);
    s.(queue := s.queue + [j], scheduled := s.scheduled + [j])
  }

  /** What a free callback pushes: free_pl_delete_job reports the deletion. */
  function FreeResults(j: Job): seq<Result> {
    if IsDelete(j) then [Deleted(j.pl)] else []
  }

  /** The job at position `at` of the queue is unlinked and freed. */
  function DropAt(s: State, at: nat): State
    requires at < |s.queue|
  {
    var j := s.queue[at];
    s.(queue := s.queue[..at] + s.queue[at + 1..], freed := s.freed + [j], results := s.results + FreeResults(j))
  }

  /** The list without the visible playlist `pl`; the cursor goes to `next`, and so does the mark if
      it was on `pl`. */
  function Unlisted(s: State, next: Playlist): State {
    var pl := s.visible;
    s.(live := s.live - {pl}, visible := next, marked := if s.marked == pl then next else s.marked,
       main := Removing(AddJobsOf(pl), Some(pl), 0))
  }

  /** The next step of the loop in worker_remove_jobs_by_cb, or what it does behind the loop. */
  function ScanStep(s: State): State
    requires s.main.Removing?
  {
    var m := s.main;
    if m.at < |s.queue| then
      if Matches(m.pat, s.queue[m.at]) then DropAt(s, m.at) else s.(main := Removing(m.pat, m.goal, m.at + 1))
    else if s.cur.Some? && Matches(m.pat, s.cur.value) then s.(cancel := true, main := Waiting(m.pat, m.goal))
    else s.(main := Returned(m.pat, m.goal))
  }

  /** The effect of an action, or None where the thread cannot take it. */
  function Do(s: State, a: Action): Option<State> {
    match a
    case Create(load) =>
      if !s.main.Ready? then None
      else
        var t := s.(live := s.live + {s.created}, created := s.created + 1);
        Some(if load then AddJob(t, Kind(PL, ADD), s.created) else t)
    case Select(pl) => if s.main.Ready? && pl in s.live then Some(s.(visible := pl)) else None
    case Mark(pl) => if s.main.Ready? && pl in s.live then Some(s.(marked := pl)) else None
    case AddTo(target) =>
      if s.main.Ready? then Some(AddJob(s, Kind(PL, ADD), if target.Visible? then s.visible else s.marked)) else None
    case Schedule(kind, pl) =>
      if s.main.Ready? && kind != Kind(PL, ADD) && kind != Kind(PL, DELETE) then Some(AddJob(s, kind, pl)) else None
    case Remove(pat) =>
      if s.main.Ready? then Some(s.(main := Removing(pat, None, 0))) else None
    case DeletePl(next) =>
      // the last playlist cannot be deleted
      if s.main.Ready? && next in s.live && next != s.visible then Some(Unlisted(s, next)) else None
    case Scan =>
      if s.main.Removing? then Some(ScanStep(s)) else None
    case Proceed =>
      if s.main.Ready? || s.main.Removing? || (s.main.Waiting? && s.cancel) then None
      else if s.main.Waiting? then Some(s.(main := Returned(s.main.pat, s.main.goal)))
      else if s.main.goal.Some? then Some(AddJob(s.(main := Ready), Kind(PL, DELETE), s.main.goal.value))
      else Some(s.(main := Ready))
    case Handle =>
      if s.main.Ready? && s.results != [] then Some(s.(handled := s.handled + [s.results[0]], results := s.results[1..])) else None
    case Take =>
      // taking and finishing a job need worker_mutex
      if s.cur.None? && s.queue != [] && !s.main.Removing?
      then Some(s.(cur := Some(s.queue[0]), queue := s.queue[1..], ran := s.ran + [s.queue[0]])) else None
    case Push =>
      // the running job delivers a result, at any time: add jobs any number of times, for their playlist
      if s.cur.None? || IsDelete(s.cur.value) then None
      else Some(s.(results := s.results + [if IsAdd(s.cur.value) then Added(s.cur.value.pl) else Other]))
    case Finish =>
      if s.cur.None? || s.main.Removing? then None
      else Some(s.(cur := None, freed := s.freed + [s.cur.value], results := s.results + FreeResults(s.cur.value), cancel := false))
  }

  ghost predicate Run(run: seq<State>) {
    && run != [] && Init(run[0])
    && forall i :: 0 < i < |run| ==> StepAt(run, i)
  }

  ghost predicate StepAt(run: seq<State>, i: int)
    requires 0 < i < |run|
  {
    Step(run[i - 1], run[i])
  }

  ghost predicate Step(s: State, t: State) {
    exists a :: Do(s, a) == Some(t)
  }

  /* Every job is in exactly one place. */

  function Current(s: State): seq<Job> {
    if s.cur.None? then [] else [s.cur.value]
  }

  ghost predicate Conserved(s: State) {
    InPlace(s.scheduled, s.queue, Current(s), s.freed, s.ran)
  }

  ghost predicate InPlace(scheduled: seq<Job>, queue: seq<Job>, current: seq<Job>, freed: seq<Job>, ran: seq<Job>) {
    && multiset(scheduled) == multiset(queue) + multiset(current) + multiset(freed)
    && multiset(ran) <= multiset(current) + multiset(freed)
    && forall i :: 0 <= i < |scheduled| ==> scheduled[i].id == i
  }

  lemma ConservedAdd(s: State, kind: Kind, pl: Playlist)
    requires Conserved(s)
    ensures Conserved(AddJob(s, kind, pl))
  {
    OneMore(s.scheduled, s.queue, Current(s), s.freed, s.ran, Job(|s.scheduled|, kind, pl));
  }

  lemma OneMore(scheduled: seq<Job>, queue: seq<Job>, current: seq<Job>, freed: seq<Job>, ran: seq<Job>, j: Job)
    requires InPlace(scheduled, queue, current, freed, ran) && j.id == |scheduled|
    ensures InPlace(scheduled + [j], queue + [j], current, freed, ran)
  {
  }

  lemma ConservedDrop(s: State, at: nat)
    requires Conserved(s) && at < |s.queue|
    ensures Conserved(DropAt(s, at))
  {
    OneFreed(s.scheduled, s.queue, Current(s), s.freed, s.ran, at);
  }

  lemma OneFreed(scheduled: seq<Job>, queue: seq<Job>, current: seq<Job>, freed: seq<Job>, ran: seq<Job>, at: nat)
    requires InPlace(scheduled, queue, current, freed, ran) && at < |queue|
    ensures InPlace(scheduled, queue[..at] + queue[at + 1..], current, freed + [queue[at]], ran)
  {
    assert queue == queue[..at] + ([queue[at]] + queue[at + 1..]);
  }

  lemma ConservedTake(s: State, s': State)
    requires Conserved(s) && Do(s, Take) == Some(s')
    ensures Conserved(s')
  {
    OneTaken(s.scheduled, s.queue, s.freed, s.ran);
  }

  lemma OneTaken(scheduled: seq<Job>, queue: seq<Job>, freed: seq<Job>, ran: seq<Job>)
    requires queue != [] && InPlace(scheduled, queue, [], freed, ran)
    ensures InPlace(scheduled, queue[1..], [queue[0]], freed, ran + [queue[0]])
  {
    assert queue == [queue[0]] + queue[1..];
  }

  lemma ConservedFinish(s: State, s': State)
    requires Conserved(s) && Do(s, Finish) == Some(s')
    ensures Conserved(s')
  {
    OneFinished(s.scheduled, s.queue, s.cur.value, s.freed, s.ran);
  }

  lemma OneFinished(scheduled: seq<Job>, queue: seq<Job>, j: Job, freed: seq<Job>, ran: seq<Job>)
    requires InPlace(scheduled, queue, [j], freed, ran)
    ensures InPlace(scheduled, queue, [], freed + [j], ran)
  {
  }

  /** Actions that move no job. */
  lemma ConservedSame(s: State, s': State)
    requires Conserved(s) && s'.queue == s.queue && s'.cur == s.cur
    requires s'.scheduled == s.scheduled && s'.ran == s.ran && s'.freed == s.freed
    ensures Conserved(s')
  {
  }

  lemma ConservedScan(s: State)
    requires Conserved(s) && s.main.Removing?
    ensures Conserved(ScanStep(s))
  {
    var m := s.main;
    if m.at < |s.queue| {
      if Matches(m.pat, s.queue[m.at]) {
        ConservedDrop(s, m.at);
      } else {
        ConservedSame(s, s.(main := Removing(m.pat, m.goal, m.at + 1)));
      }
    } else if s.cur.Some? && Matches(m.pat, s.cur.value) {
      ConservedSame(s, s.(cancel := true, main := Waiting(m.pat, m.goal)));
    } else {
      ConservedSame(s, s.(main := Returned(m.pat, m.goal)));
    }
  }

  lemma ConservedCreate(s: State, load: bool, s': State)
    requires Conserved(s) && Do(s, Create(load)) == Some(s')
    ensures Conserved(s')
  {
    var t := s.(live := s.live + {s.created}, created := s.created + 1);
    ConservedSame(s, t);
    ConservedAdd(t, Kind(PL, ADD), s.created);
  }

  lemma ConservedProceed(s: State, s': State)
    requires Conserved(s) && Do(s, Proceed) == Some(s')
    ensures Conserved(s')
  {
    if s.main.Returned? && s.main.goal.Some? {
      ConservedSame(s, s.(main := Ready));
      ConservedAdd(s.(main := Ready), Kind(PL, DELETE), s.main.goal.value);
    } else {
      ConservedSame(s, s');
    }
  }

  lemma ConservedSchedule(s: State, a: Action, s': State)
    requires Conserved(s) && Do(s, a) == Some(s') && (a.AddTo? || a.Schedule?)
    ensures Conserved(s')
  {
    match a
    case AddTo(target) => ConservedAdd(s, Kind(PL, ADD), if target.Visible? then s.visible else s.marked);
    case Schedule(kind, pl) => ConservedAdd(s, kind, pl);
  }

  lemma ConservedRest(s: State, a: Action, s': State)
    requires Conserved(s) && Do(s, a) == Some(s') && (a.Select? || a.Mark? || a.Remove? || a.DeletePl? || a.Handle? || a.Push?)
    ensures Conserved(s')
  {
    ConservedSame(s, s');
  }

  lemma ConservedStep(s: State, a: Action, s': State)
    requires Conserved(s) && Do(s, a) == Some(s')
    ensures Conserved(s')
  {
    match a
    case Create(load) => ConservedCreate(s, load, s');
    case AddTo(_) => ConservedSchedule(s, a, s');
    case Schedule(_, _) => ConservedSchedule(s, a, s');
    case Scan => ConservedScan(s);
    case Proceed => ConservedProceed(s, s');
    case Take => ConservedTake(s, s');
    case Finish => ConservedFinish(s, s');
    case _ => ConservedRest(s, a, s');
  }

  lemma {:induction false} RunConserved(run: seq<State>, i: nat)
    requires Run(run) && i < |run|
    ensures Conserved(run[i])
  {
    if i > 0 {
      RunConserved(run, i - 1);
      assert StepAt(run, i);
      var s, t := run[i - 1], run[i];
      var a :| Do(s, a) == Some(t);
      ConservedStep(run[i - 1], a, run[i]);
    }
  }

  /* Playlists are deleted after everything that refers to them. */

  /** The main thread is inside pl_delete_selected_pl for `pl`. */
  predicate Pending(s: State, pl: Playlist) {
    !s.main.Ready? && s.main.goal == Some(pl)
  }

  predicate Gone(s: State, pl: Playlist) {
    pl < s.created && pl !in s.live && !Pending(s, pl)
  }

  /** pl_visible and pl_marked name playlists of the list. */
  ghost predicate ListOk(s: State) {
    && s.visible in s.live && s.marked in s.live
    && (forall pl :: pl in s.live ==> pl < s.created)
    && (!s.main.Ready? && s.main.goal.Some? ==>
          s.main.goal.value < s.created && s.main.goal.value !in s.live && s.main.pat == AddJobsOf(s.main.goal.value))
  }

  /** A queued or running add job is for a playlist of the list, or is about to be removed. */
  ghost predicate JobsOk(s: State) {
    && (forall i :: 0 <= i < |s.queue| && IsAdd(s.queue[i]) ==>
          s.queue[i].pl in s.live || (Pending(s, s.queue[i].pl) && s.main.Removing? && i >= s.main.at))
    && (forall i :: 0 <= i < |s.queue| && IsDelete(s.queue[i]) ==> Gone(s, s.queue[i].pl))
    && (s.cur.Some? && IsAdd(s.cur.value) ==>
          s.cur.value.pl in s.live || (Pending(s, s.cur.value.pl) && (s.main.Removing? || (s.main.Waiting? && s.cancel))))
    && (s.cur.Some? && IsDelete(s.cur.value) ==> Gone(s, s.cur.value.pl))
  }

  /** worker_remove_jobs_by_cb has removed what it matches as far as it has come, except a job it
      waits for. */
  ghost predicate RemovalOk(s: State) {
    && (s.cancel ==> s.main.Waiting? && s.cur.Some?)
    && (s.main.Removing? ==> s.main.at <= |s.queue| && forall i :: 0 <= i < s.main.at ==> !Matches(s.main.pat, s.queue[i]))
    && (s.main.Waiting? || s.main.Returned? ==> forall i :: 0 <= i < |s.queue| ==> !Matches(s.main.pat, s.queue[i]))
    && ((s.main.Waiting? || s.main.Returned?) && s.cur.Some? && !s.cancel ==> !Matches(s.main.pat, s.cur.value))
  }

  /** No result adds to a playlist behind the result that deletes it. */
  ghost predicate Ordered(rs: seq<Result>) {
    forall i, j :: 0 <= i < j < |rs| && rs[i].Deleted? && rs[j].Added? ==> rs[i].pl != rs[j].pl
  }

  /** All results so far, handled or waiting. */
  function AllResults(s: State): seq<Result> {
    s.handled + s.results
  }

  ghost predicate DeletedGone(rs: seq<Result>, s: State) {
    forall i :: 0 <= i < |rs| && rs[i].Deleted? ==> Gone(s, rs[i].pl)
  }

  ghost predicate ResultsOk(s: State) {
    Ordered(AllResults(s)) && DeletedGone(AllResults(s), s)
  }

  ghost predicate Inv(s: State) {
    ListOk(s) && JobsOk(s) && RemovalOk(s) && ResultsOk(s)
  }

  lemma OrderedAppend(rs: seq<Result>, more: seq<Result>, s: State)
    requires Ordered(rs) && DeletedGone(rs, s) && DeletedGone(more, s)
    requires forall i :: 0 <= i < |more| ==> !more[i].Added?
    ensures Ordered(rs + more) && DeletedGone(rs + more, s)
  {
  }

  lemma OrderedPush(rs: seq<Result>, r: Result, s: State)
    requires Ordered(rs) && DeletedGone(rs, s) && !r.Deleted? && (r.Added? ==> !Gone(s, r.pl))
    ensures Ordered(rs + [r]) && DeletedGone(rs + [r], s)
  {
  }

  /** Deletions reported while `s` was current stay gone later. */
  lemma StillGone(rs: seq<Result>, s: State, s': State)
    requires DeletedGone(rs, s) && forall pl :: Gone(s, pl) ==> Gone(s', pl)
    ensures DeletedGone(rs, s')
  {
  }

  /** The results of freeing one job. */
  lemma FreedResults(s: State, j: Job, s': State)
    requires ResultsOk(s) && (IsDelete(j) ==> Gone(s, j.pl)) && (forall pl :: Gone(s, pl) ==> Gone(s', pl))
    requires s'.handled == s.handled && s'.results == s.results + FreeResults(j)
    ensures ResultsOk(s')
  {
    OrderedAppend(AllResults(s), FreeResults(j), s);
    Assoc(s.handled, s.results, FreeResults(j));
    StillGone(AllResults(s'), s, s');
  }

  lemma DropStep(s: State, at: nat)
    requires Inv(s) && s.main.Removing? && s.main.at == at < |s.queue| && Matches(s.main.pat, s.queue[at])
    ensures Inv(DropAt(s, at))
  {
    var s', j := DropAt(s, at), s.queue[at];
    FreedResults(s, j, s');
    assert forall i :: 0 <= i < |s'.queue| ==> s'.queue[i] == if i < at then s.queue[i] else s.queue[i + 1];
  }

  lemma SameResults(s: State, s': State)
    requires ResultsOk(s) && AllResults(s') == AllResults(s) && forall pl :: Gone(s, pl) ==> Gone(s', pl)
    ensures ResultsOk(s')
  {
    StillGone(AllResults(s), s, s');
  }

  lemma ScanKeepsInv(s: State)
    requires Inv(s) && s.main.Removing?
    ensures Inv(ScanStep(s))
  {
    if s.main.at < |s.queue| && Matches(s.main.pat, s.queue[s.main.at]) {
      DropStep(s, s.main.at);
    } else {
      SameResults(s, ScanStep(s));
    }
  }

  lemma DeleteStep(s: State, next: Playlist)
    requires Inv(s) && s.main.Ready? && next in s.live && next != s.visible
    ensures Inv(Unlisted(s, next))
  {
    SameResults(s, Unlisted(s, next));
  }

  lemma PushStep(s: State, s': State)
    requires Inv(s) && Do(s, Push) == Some(s')
    ensures Inv(s')
  {
    var r := s'.results[|s.results|];
    OrderedPush(AllResults(s), r, s);
    assert AllResults(s') == AllResults(s) + [r];
    StillGone(AllResults(s'), s, s');
  }

  lemma FinishStep(s: State, s': State)
    requires Inv(s) && Do(s, Finish) == Some(s')
    ensures Inv(s')
  {
    FreedResults(s, s.cur.value, s');
  }

  lemma ScheduleStep(s: State, kind: Kind, pl: Playlist)
    requires Inv(s) && s.main.Ready? && (kind == Kind(PL, ADD) ==> pl in s.live) && (kind == Kind(PL, DELETE) ==> Gone(s, pl))
    ensures Inv(AddJob(s, kind, pl))
  {
    SameResults(s, AddJob(s, kind, pl));
  }

  lemma CreateStep(s: State, load: bool, s': State)
    requires Inv(s) && Do(s, Create(load)) == Some(s')
    ensures Inv(s')
  {
    var t := s.(live := s.live + {s.created}, created := s.created + 1);
    SameResults(s, t);
    if load {
      ScheduleStep(t, Kind(PL, ADD), s.created);
    }
  }

  lemma ReturnStep(s: State)
    requires Inv(s) && (s.main.Waiting? ==> !s.cancel)
    ensures s.main.Waiting? ==> Inv(s.(main := Returned(s.main.pat, s.main.goal)))
    ensures s.main.Returned? ==> Inv(s.(main := Ready))
  {
    if s.main.Waiting? {
      SameResults(s, s.(main := Returned(s.main.pat, s.main.goal)));
    } else if s.main.Returned? {
      SameResults(s, s.(main := Ready));
    }
  }

  lemma ProceedStep(s: State, s': State)
    requires Inv(s) && Do(s, Proceed) == Some(s')
    ensures Inv(s')
  {
    ReturnStep(s);
    if s.main.Returned? && s.main.goal.Some? {
      ScheduleStep(s.(main := Ready), Kind(PL, DELETE), s.main.goal.value);
    }
  }

  lemma TakeStep(s: State, s': State)
    requires Inv(s) && Do(s, Take) == Some(s')
    ensures Inv(s')
  {
    SameResults(s, s');
    assert forall i :: 0 <= i < |s'.queue| ==> s'.queue[i] == s.queue[i + 1];
  }

  /** The user's actions on the list, a removal that begins, and a result that is handled. */
  lemma PlainStep(s: State, a: Action, s': State)
    requires Inv(s) && Do(s, a) == Some(s') && (a.Select? || a.Mark? || a.Remove? || a.Handle?)
    ensures Inv(s')
  {
    if a.Handle? {
      assert s.handled + s.results == (s.handled + [s.results[0]]) + s.results[1..];
    }
    SameResults(s, s');
  }

  lemma StepKeepsInv(s: State, a: Action, s': State)
    requires Inv(s) && Do(s, a) == Some(s')
    ensures Inv(s')
  {
    match a
    case Create(load) => CreateStep(s, load, s');
    case AddTo(target) => ScheduleStep(s, Kind(PL, ADD), if target.Visible? then s.visible else s.marked);
    case Schedule(kind, pl) => ScheduleStep(s, kind, pl);
    case DeletePl(next) => DeleteStep(s, next);
    case Scan => ScanKeepsInv(s);
    case Proceed => ProceedStep(s, s');
    case Take => TakeStep(s, s');
    case Push => PushStep(s, s');
    case Finish => FinishStep(s, s');
    case _ => PlainStep(s, a, s');
  }

  lemma {:induction false} RunInv(run: seq<State>, i: nat)
    requires Run(run) && i < |run|
    ensures Inv(run[i])
  {
    if i > 0 {
      RunInv(run, i - 1);
      assert StepAt(run, i);
      var s, t := run[i - 1], run[i];
      var a :| Do(s, a) == Some(t);
      StepKeepsInv(run[i - 1], a, run[i]);
    }
  }

  /* What the protocol promises, in every state of every run. */

  /** No job is freed twice or run twice, and none is freed while it is queued or running. */
  lemma FreedOnce(run: seq<State>, i: nat, j: Job)
    requires Run(run) && i < |run|
    ensures var s := run[i];
      && multiset(s.queue)[j] + multiset(Current(s))[j] + multiset(s.freed)[j] == (if j in s.scheduled then 1 else 0)
      && multiset(s.ran)[j] <= 1
  {
    RunConserved(run, i);
    var s := run[i];
    ScheduledOnce(s.scheduled, j);
  }

  lemma {:induction false} ScheduledOnce(js: seq<Job>, j: Job)
    requires forall i :: 0 <= i < |js| ==> js[i].id == i
    ensures multiset(js)[j] == if j in js then 1 else 0
  {
    if js != [] {
      var k := |js| - 1;
      ScheduledOnce(js[..k], j);
      assert js == js[..k] + [js[k]];
    }
  }

  /** When worker_remove_jobs_by_cb returns, no queued or running job matches. */
  lemma RemovedOnReturn(run: seq<State>, i: nat)
    requires Run(run) && i < |run| && run[i].main.Returned?
    ensures forall j :: j in run[i].queue + Current(run[i]) ==> !Matches(run[i].main.pat, j)
  {
    RunInv(run, i);
  }

  /** When the removal of job_exit has returned, every job ever scheduled has been freed, once. */
  lemma AllFreedAtExit(run: seq<State>, i: nat)
    requires Run(run) && i < |run| && run[i].main.Returned? && run[i].main.pat == ANY
    ensures multiset(run[i].freed) == multiset(run[i].scheduled)
  {
    var s := run[i];
    RunConserved(run, i);
    RemovedOnReturn(run, i);
    if s.queue != [] {
      assert s.queue[0] in s.queue + Current(s);
      MatchesAny(s.queue[0]);
    }
    if s.cur.Some? {
      assert s.cur.value in s.queue + Current(s);
      MatchesAny(s.cur.value);
    }
  }

  lemma MatchesAny(j: Job)
    ensures Matches(ANY, j)
  {
    match j.kind.area
    case LIB =>
    case PL =>
    case QUEUE =>
  }

  /** No result that adds to a playlist is handled after the result that frees the playlist. */
  lemma NoAddAfterDelete(run: seq<State>, i: nat, a: nat, b: nat)
    requires Run(run) && i < |run| && a < b < |run[i].handled|
    requires run[i].handled[a].Deleted? && run[i].handled[b].Added?
    ensures run[i].handled[a].pl != run[i].handled[b].pl
  {
    RunInv(run, i);
    var s := run[i];
    assert AllResults(s)[a] == s.handled[a] && AllResults(s)[b] == s.handled[b];
  }
}
