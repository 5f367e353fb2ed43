/** The first-in-first-out mutex of app/locking.c, as a transition system.

    Each thread owns one stack-allocated waiter, so a waiter is named by its thread. A step is one
    atomic action: an atomic exchange, compare-and-swap, load or store, or one action on the
    underlying mutex and condition variable. Steps interleave in any order (sequential
    consistency); condition variables may wake up spuriously. */
module FifoMutex {
  import opened Common

  type Tid = nat

  /** What a thread does next.
      Idle: outside; its next step is the exchange on `tail` that begins fifo_mutex_lock.
      Link: store itself into the `next` of its predecessor. Mutex: lock the inner mutex.
      Check: test whether it must wait. Asleep: in pthread_cond_wait. Woken: signalled, needs the
      inner mutex back. Cas: compare-and-swap on `tail`. Spin: wait for its own `next`.
      SetHead: store `head`. Critical: fifo_mutex_lock has returned. Unlock: signalled the next
      thread, about to release the inner mutex. */
  datatype Pc = Idle | Link | Mutex | Check | Asleep | Woken | Cas | Spin | SetHead | Critical | Unlock

  /** A thread with the locals of fifo_mutex_lock (`oldTail`, `got` for the local `next`) and
      the `next` field of its waiter. */
  datatype Thread = Thread(pc: Pc, oldTail: Option<Tid>, next: Option<Tid>, got: Option<Tid>)

  /** `exchanged` and `acquired` record the order of the exchanges and of the acquisitions. */
  datatype State = State(threads: seq<Thread>, tail: Option<Tid>, head: Option<Tid>, owner: Option<Tid>,
                         exchanged: seq<Tid>, acquired: seq<Tid>)

  predicate Init(s: State) {
    && s.tail.None? && s.head.None? && s.owner.None? && s.exchanged == [] && s.acquired == []
    && forall t :: 0 <= t < |s.threads| ==> s.threads[t].pc == Idle
  }

  function Set(s: State, t: Tid, th: Thread): State
    requires t < |s.threads|
  {
    s.(threads := s.threads[t := th])
  }

  function Goto(s: State, t: Tid, pc: Pc): State
    requires t < |s.threads|
  {
    Set(s, t, s.threads[t].(pc := pc))
  }

  /** The next step of thread `t`, or None if it is blocked. A pointer to a thread that does not
      exist is a wild access and also gives None. */
  function Step(s: State, t: Tid): Option<State>
    requires t < |s.threads|
  {
    var th := s.threads[t];
    match th.pc
    case Idle =>
      Some(Set(s, t, Thread(if s.tail.None? then Mutex else Link, s.tail, None, None))
           .(tail := Some(t), exchanged := s.exchanged + [t]))
    case Link =>
      if th.oldTail.Some? && th.oldTail.value < |s.threads| then
        var p := th.oldTail.value;
        var linked := Set(s, p, s.threads[p].(next := Some(t)));
        Some(Goto(linked, t, Mutex))
      else None
    case Mutex =>
      if s.owner.None? then Some(Goto(s, t, Check).(owner := Some(t))) else None
    case Check =>
      if th.oldTail.Some? && s.head != Some(t) then Some(Goto(s, t, Asleep).(owner := None))
      else Some(Goto(s, t, Cas))
    case Asleep =>
      Some(Goto(s, t, Woken))
    case Woken =>
      if s.owner.None? then Some(Goto(s, t, Check).(owner := Some(t))) else None
    case Cas =>
      var s' := s.(acquired := s.acquired + [t]);
      if s.tail == Some(t) then Some(Set(s', t, th.(pc := SetHead, got := None)).(tail := None))
      else Some(Goto(s', t, Spin))
    case Spin =>
      if th.next.None? then None else Some(Set(s, t, th.(pc := SetHead, got := th.next)))
    case SetHead =>
      Some(Goto(s, t, Critical).(head := th.got))
    case Critical =>
      if s.head.None? then Some(Goto(s, t, Unlock))
      else if s.head.value < |s.threads| then
        var h := s.head.value;
        var signalled := if s.threads[h].pc == Asleep then Goto(s, h, Woken) else s;
        Some(Goto(signalled, t, Unlock))
      else None
    case Unlock =>
      Some(Goto(s, t, Idle).(owner := None))
  }

  predicate Next(s: State, s': State) {
    exists t :: 0 <= t < |s.threads| && Step(s, t) == Some(s')
  }

  /** A run: any finite sequence of steps from an initial state. */
  predicate Run(run: seq<State>) {
    && run != [] && Init(run[0])
    && forall i :: 0 < i < |run| ==> StepAt(run, i)
  }

  predicate StepAt(run: seq<State>, i: int)
    requires 0 < i < |run|
  {
    Next(run[i - 1], run[i])
  }

  /** There is a run for any number of threads, and it goes on with each step that a thread can take. */
  lemma Beginning(n: nat) returns (run: seq<State>)
    ensures Run(run) && |run| == 1 && |run[0].threads| == n
  {
    var idle := Thread(Idle, None, None, None);
    run := [State(seq(n, i => idle), None, None, None, [], [])];
  }

  lemma RunGoesOn(run: seq<State>, t: Tid, next: State)
    requires Run(run) && t < |run[|run| - 1].threads| && Step(run[|run| - 1], t) == Some(next)
    ensures Run(run + [next])
  {
    hide Step, Init;
    var more := run + [next];
    forall i | 0 < i < |more| ensures StepAt(more, i) {
      if i < |run| {
        assert StepAt(run, i);
      } else {
        assert more[i - 1] == run[|run| - 1] && more[i] == next;
      }
    }
  }

  /* The invariant. */

  /** Between the exchange and the acquisition. */
  predicate Queued(pc: Pc) {
    pc in {Link, Mutex, Check, Asleep, Woken, Cas}
  }

  predicate Holds(pc: Pc) {
    pc in {Check, Cas, Spin, SetHead, Critical, Unlock}
  }

  /** The waiter on the thread's stack is alive from the exchange until `head` has been stored. */
  predicate InLock(pc: Pc) {
    Queued(pc) || pc in {Spin, SetHead}
  }

  function PcOf(s: State, t: Tid): Pc {
    if t < |s.threads| then s.threads[t].pc else Idle
  }

  /** `q` holds exactly the threads that have exchanged and not yet acquired, in order of exchange. */
  ghost predicate QueueOk(s: State, q: seq<Tid>) {
    && s.exchanged == s.acquired + q
    && (forall i :: 0 <= i < |q| ==> q[i] < |s.threads| && Queued(s.threads[q[i]].pc))
    && (forall i, j :: 0 <= i < j < |q| ==> q[i] != q[j])
    && (forall t :: 0 <= t < |s.threads| && Queued(s.threads[t].pc) ==> t in q)
    && s.tail == if q == [] then None else Some(q[|q| - 1])
  }

  /** `t` came directly behind `p`: it knows `p`, and `p` knows it once it has linked itself. */
  ghost predicate Neighbours(s: State, p: Tid, t: Tid) {
    && p < |s.threads| && t < |s.threads|
    && s.threads[t].oldTail == Some(p)
    && s.threads[p].next == if s.threads[t].pc == Link then None else Some(t)
  }

  ghost predicate LinksOk(s: State, q: seq<Tid>)
    requires QueueOk(s, q)
  {
    && (forall i, j :: 0 <= i < j < |q| && j == i + 1 ==> Neighbours(s, q[i], q[j]))
    && (q != [] ==> s.threads[q[|q| - 1]].next == None)
  }

  ghost predicate OwnerOk(s: State) {
    && (s.owner.Some? ==> s.owner.value < |s.threads| && Holds(s.threads[s.owner.value].pc))
    && (forall t :: 0 <= t < |s.threads| && Holds(s.threads[t].pc) ==> s.owner == Some(t))
  }

  /** The owner has acquired but not yet stored `head`. */
  predicate HandingOver(s: State) {
    s.owner.Some? && PcOf(s, s.owner.value) in {Spin, SetHead}
  }

  /** Where the hand-over to the front of the queue stands. */
  ghost predicate FrontOk(s: State, q: seq<Tid>)
    requires QueueOk(s, q) && OwnerOk(s)
  {
    if q == [] || s.threads[q[0]].oldTail.None? then
      && (q != [] ==> s.threads[q[0]].pc !in {Link, Asleep, Woken})
      && if HandingOver(s) then s.threads[s.owner.value].pc == SetHead && s.threads[s.owner.value].got.None?
         else s.head.None?
    else
      var f, h := q[0], s.threads[q[0]].oldTail.value;
      if HandingOver(s) then
        && s.owner == Some(h)
        && if s.threads[h].pc == Spin then s.threads[h].next == if s.threads[f].pc == Link then None else Some(f)
           else s.threads[h].got == Some(f) && s.threads[f].pc != Link
      else
        && s.head == Some(f) && s.threads[f].pc != Link
        && (s.threads[f].pc == Asleep ==> s.owner.Some? && s.threads[s.owner.value].pc == Critical)
  }

  ghost predicate CasOk(s: State, q: seq<Tid>) {
    forall t :: 0 <= t < |s.threads| && s.threads[t].pc == Cas ==> q != [] && q[0] == t
  }

  ghost predicate InvWith(s: State, q: seq<Tid>) {
    QueueOk(s, q) && LinksOk(s, q) && OwnerOk(s) && FrontOk(s, q) && CasOk(s, q)
  }

  ghost predicate Inv(s: State) {
    |s.acquired| <= |s.exchanged| && InvWith(s, s.exchanged[|s.acquired|..])
  }

  ghost predicate StepFrom(s: State, q: seq<Tid>, t: Tid, pc: Pc, s': State) {
    InvWith(s, q) && t < |s.threads| && s.threads[t].pc == pc && Step(s, t) == Some(s')
  }

  /** A step that keeps everybody's place in the queue. */
  ghost predicate SamePlaces(s: State, s': State) {
    && |s'.threads| == |s.threads| && s'.exchanged == s.exchanged && s'.acquired == s.acquired && s'.tail == s.tail
    && forall t :: 0 <= t < |s.threads| ==>
         && s'.threads[t].oldTail == s.threads[t].oldTail && s'.threads[t].next == s.threads[t].next
         && (Queued(s'.threads[t].pc) <==> Queued(s.threads[t].pc)) && (s'.threads[t].pc == Link <==> s.threads[t].pc == Link)
  }

  lemma QueueStays(s: State, q: seq<Tid>, s': State)
    requires QueueOk(s, q) && LinksOk(s, q) && SamePlaces(s, s')
    ensures QueueOk(s', q) && LinksOk(s', q)
  {
    forall i, j | 0 <= i < j < |q| && j == i + 1 ensures Neighbours(s', q[i], q[j]) {
      assert Neighbours(s, q[i], q[j]);
    }
  }

  lemma IdleQueue(s: State, q: seq<Tid>, t: Tid, s': State)
    requires StepFrom(s, q, t, Idle, s')
    ensures QueueOk(s', q + [t])
  {
    assert s.exchanged + [t] == s.acquired + (q + [t]);
  }

  lemma IdleLinks(s: State, q: seq<Tid>, t: Tid, s': State)
    requires StepFrom(s, q, t, Idle, s') && QueueOk(s', q + [t])
    ensures LinksOk(s', q + [t])
  {
    var q' := q + [t];
    forall i, j | 0 <= i < j < |q'| && j == i + 1 ensures Neighbours(s', q'[i], q'[j]) {
      if j < |q| {
        assert Neighbours(s, q[i], q[j]);
      }
    }
  }

  lemma IdleStep(s: State, q: seq<Tid>, t: Tid, s': State)
    requires StepFrom(s, q, t, Idle, s')
    ensures InvWith(s', q + [t])
  {
    IdleQueue(s, q, t, s');
    IdleLinks(s, q, t, s');
  }

  lemma LinkLinks(s: State, q: seq<Tid>, t: Tid, s': State)
    requires StepFrom(s, q, t, Link, s') && QueueOk(s', q)
    ensures LinksOk(s', q)
  {
    var k :| 0 <= k < |q| && q[k] == t;
    if k > 0 {
      assert Neighbours(s, q[k - 1], q[k]);
    }
    var p := s.threads[t].oldTail.value;
    forall i, j | 0 <= i < j < |q| && j == i + 1 ensures Neighbours(s', q[i], q[j]) {
      assert Neighbours(s, q[i], q[j]);
      assert q[i] == p <==> j == k;
    }
  }

  lemma LinkFront(s: State, q: seq<Tid>, t: Tid, s': State)
    requires StepFrom(s, q, t, Link, s') && QueueOk(s', q) && OwnerOk(s')
    ensures FrontOk(s', q)
  {
    var k :| 0 <= k < |q| && q[k] == t;
    if k > 0 {
      assert Neighbours(s, q[k - 1], q[k]);
    }
  }

  lemma LinkStep(s: State, q: seq<Tid>, t: Tid, s': State)
    requires StepFrom(s, q, t, Link, s')
    ensures InvWith(s', q)
  {
    LinkQueue(s, q, t, s');
    LinkLinks(s, q, t, s');
    LinkFront(s, q, t, s');
  }

  lemma LinkQueue(s: State, q: seq<Tid>, t: Tid, s': State)
    requires StepFrom(s, q, t, Link, s')
    ensures QueueOk(s', q) && OwnerOk(s') && CasOk(s', q)
  {
    assert SameRoles(s, s');
    RolesStay(s, q, s');
  }

  /** A step that leaves the queue, the owner and who is queued or holds the mutex as they are. */
  ghost predicate SameRoles(s: State, s': State) {
    && |s'.threads| == |s.threads| && s'.exchanged == s.exchanged && s'.acquired == s.acquired && s'.tail == s.tail && s'.owner == s.owner
    && forall t :: 0 <= t < |s.threads| ==> SameRole(s.threads[t].pc, s'.threads[t].pc)
  }

  predicate SameRole(a: Pc, b: Pc) {
    (Queued(a) <==> Queued(b)) && (Holds(a) <==> Holds(b)) && (a == Cas <==> b == Cas)
  }

  lemma RolesStay(s: State, q: seq<Tid>, s': State)
    requires QueueOk(s, q) && OwnerOk(s) && CasOk(s, q) && SameRoles(s, s')
    ensures QueueOk(s', q) && OwnerOk(s') && CasOk(s', q)
  {
  }

  lemma CheckStep(s: State, q: seq<Tid>, t: Tid, s': State)
    requires StepFrom(s, q, t, Check, s')
    ensures InvWith(s', q)
  {
    QueueStays(s, q, s');
    var k :| 0 <= k < |q| && q[k] == t;
    if k > 0 {
      assert Neighbours(s, q[k - 1], q[k]);
    }
  }

  lemma CasQueue(s: State, q: seq<Tid>, t: Tid, s': State)
    requires StepFrom(s, q, t, Cas, s')
    ensures q != [] && t == q[0] && QueueOk(s', q[1..])
  {
    assert s.exchanged == s.acquired + ([t] + q[1..]) == (s.acquired + [t]) + q[1..];
    forall u | 0 <= u < |s'.threads| && Queued(s'.threads[u].pc) ensures u in q[1..] {
      assert u != t && u in q;
    }
  }

  lemma CasLinks(s: State, q: seq<Tid>, t: Tid, s': State)
    requires StepFrom(s, q, t, Cas, s') && q != [] && t == q[0] && QueueOk(s', q[1..])
    ensures LinksOk(s', q[1..])
  {
    forall i, j | 0 <= i < j < |q[1..]| && j == i + 1 ensures Neighbours(s', q[1..][i], q[1..][j]) {
      assert Neighbours(s, q[i + 1], q[j + 1]);
    }
  }

  lemma CasStep(s: State, q: seq<Tid>, t: Tid, s': State)
    requires StepFrom(s, q, t, Cas, s')
    ensures q != [] && t == q[0] && InvWith(s', q[1..])
  {
    CasQueue(s, q, t, s');
    CasLinks(s, q, t, s');
    if |q| > 1 {
      assert Neighbours(s, q[0], q[1]);
    }
  }

  lemma CriticalStep(s: State, q: seq<Tid>, t: Tid, s': State)
    requires StepFrom(s, q, t, Critical, s')
    ensures InvWith(s', q)
  {
    CriticalChange(s, t, s');
    RolesStay(s, q, s');
    QueueStays(s, q, s');
  }

  lemma CriticalChange(s: State, t: Tid, s': State)
    requires t < |s.threads| && s.threads[t].pc == Critical && Step(s, t) == Some(s')
    ensures SamePlaces(s, s') && SameRoles(s, s')
  {
  }

  lemma MutexStep(s: State, q: seq<Tid>, t: Tid, s': State)
    requires StepFrom(s, q, t, Mutex, s')
    ensures InvWith(s', q)
  {
    QueueStays(s, q, s');
  }

  lemma WaitStep(s: State, q: seq<Tid>, t: Tid, s': State)
    requires StepFrom(s, q, t, Woken, s') || StepFrom(s, q, t, Asleep, s')
    ensures InvWith(s', q)
  {
    QueueStays(s, q, s');
  }

  lemma HandOverStep(s: State, q: seq<Tid>, t: Tid, s': State)
    requires StepFrom(s, q, t, Spin, s') || StepFrom(s, q, t, SetHead, s')
    ensures InvWith(s', q)
  {
    QueueStays(s, q, s');
  }

  lemma UnlockStep(s: State, q: seq<Tid>, t: Tid, s': State)
    requires StepFrom(s, q, t, Unlock, s')
    ensures InvWith(s', q)
  {
    QueueStays(s, q, s');
  }

  lemma StepKeepsInv(s: State, q: seq<Tid>, t: Tid, s': State)
    requires InvWith(s, q) && t < |s.threads| && Step(s, t) == Some(s')
    ensures exists q' :: InvWith(s', q')
  {
    match s.threads[t].pc
    case Idle => IdleStep(s, q, t, s');
    case Link => LinkStep(s, q, t, s');
    case Mutex => MutexStep(s, q, t, s');
    case Check => CheckStep(s, q, t, s');
    case Asleep => WaitStep(s, q, t, s');
    case Woken => WaitStep(s, q, t, s');
    case Cas => CasStep(s, q, t, s');
    case Spin => HandOverStep(s, q, t, s');
    case SetHead => HandOverStep(s, q, t, s');
    case Critical => CriticalStep(s, q, t, s');
    case Unlock => UnlockStep(s, q, t, s');
  }

  lemma InvOf(s: State, q: seq<Tid>)
    requires InvWith(s, q)
    ensures Inv(s) && s.exchanged[|s.acquired|..] == q
  {
  }

  /** Every state of every run satisfies the invariant. */
  lemma {:induction false} RunInv(run: seq<State>, i: nat)
    requires Run(run) && i < |run|
    ensures Inv(run[i])
  {
    if i == 0 {
      InvOf(run[0], []);
    } else {
      RunInv(run, i - 1);
      assert StepAt(run, i);
      NextKeepsInv(run[i - 1], run[i]);
    }
  }

  lemma NextKeepsInv(s: State, s': State)
    requires Inv(s) && Next(s, s')
    ensures Inv(s')
  {
    var t :| 0 <= t < |s.threads| && Step(s, t) == Some(s');
    StepKeepsInv(s, s.exchanged[|s.acquired|..], t, s');
    var q :| InvWith(s', q);
    InvOf(s', q);
  }

  /* What the mutex promises. */

  /** Threads acquire exactly in the order of their exchange on `tail`, one at a time. */
  lemma Fifo(run: seq<State>, i: nat)
    requires Run(run) && i < |run|
    ensures run[i].acquired <= run[i].exchanged
    ensures forall t, u :: 0 <= t < u < |run[i].threads| ==> !(Holds(run[i].threads[t].pc) && Holds(run[i].threads[u].pc))
  {
    RunInv(run, i);
  }

  /** A store into another thread's waiter, and a signal to one, finds that waiter alive. */
  ghost predicate WaiterAlive(s: State) {
    && (forall t :: 0 <= t < |s.threads| && s.threads[t].pc == Link ==>
          s.threads[t].oldTail.Some? && InLock(PcOf(s, s.threads[t].oldTail.value)))
    && (forall t :: 0 <= t < |s.threads| && s.threads[t].pc == Critical && s.head.Some? ==>
          InLock(PcOf(s, s.head.value)))
  }

  lemma AlwaysAlive(run: seq<State>, i: nat)
    requires Run(run) && i < |run|
    ensures WaiterAlive(run[i])
  {
    RunInv(run, i);
    var s := run[i];
    var q := s.exchanged[|s.acquired|..];
    forall t | 0 <= t < |s.threads| && s.threads[t].pc == Link
      ensures s.threads[t].oldTail.Some? && InLock(PcOf(s, s.threads[t].oldTail.value))
    {
      var k :| 0 <= k < |q| && q[k] == t;
      if k > 0 {
        assert Neighbours(s, q[k - 1], q[k]);
      }
    }
  }

  /** No lost wake-up and no deadlock: whenever somebody is queued, the owner or the first in the
      queue can take a step other than waking up by chance. */
  lemma Progress(run: seq<State>, i: nat)
    requires Run(run) && i < |run| && |run[i].acquired| < |run[i].exchanged|
    ensures var s := run[i]; var f := s.exchanged[|s.acquired|];
      exists t :: 0 <= t < |s.threads| && (t == f || s.owner == Some(t)) && Working(s.threads[t].pc) && Step(s, t).Some?
  {
    RunInv(run, i);
    var s := run[i];
    var q := s.exchanged[|s.acquired|..];
    var f := q[0];
    if s.owner.None? {
      assert Working(s.threads[f].pc) && Step(s, f).Some?;
    } else {
      var h := s.owner.value;
      if Step(s, h).None? {
        assert s.threads[h].pc == Spin;
        assert s.threads[f].pc == Link && Step(s, f).Some?;
      } else {
        assert Working(s.threads[h].pc);
      }
    }
  }

  /* These steps lead somewhere: a measure that only arrivals and spurious wake-ups raise. */

  /** Neither outside nor asleep: a step is neither an arrival nor a spurious wake-up. */
  predicate Working(pc: Pc) {
    pc != Idle && pc != Asleep
  }

  /** An upper bound for the steps that a thread has before it; the one that signals pays for the
      way back to sleep of the one it wakes. */
  function Weight(pc: Pc): nat {
    match pc
    case Idle => 0
    case Unlock => 1
    case Critical => 4
    case SetHead => 5
    case Spin => 6
    case Cas => 7
    case Asleep => 7
    case Check => 8
    case Woken => 9
    case Mutex => 9
    case Link => 10
  }

  function Total(ths: seq<Thread>): nat {
    if ths == [] then 0 else Weight(ths[0].pc) + Total(ths[1..])
  }

  lemma {:induction false} TotalSet(ths: seq<Thread>, t: nat, th: Thread)
    requires t < |ths|
    ensures Total(ths[t := th]) == Total(ths) - Weight(ths[t].pc) + Weight(th.pc)
  {
    if t == 0 {
      assert ths[t := th][1..] == ths[1..];
    } else {
      TotalSet(ths[1..], t - 1, th);
      assert ths[t := th][1..] == ths[1..][t - 1 := th];
    }
  }

  lemma {:induction false} TotalIdle(ths: seq<Thread>)
    requires forall t :: 0 <= t < |ths| ==> ths[t].pc == Idle
    ensures Total(ths) == 0
  {
    if ths != [] {
      TotalIdle(ths[1..]);
    }
  }

  lemma {:induction false} TotalBound(ths: seq<Thread>)
    ensures Total(ths) <= 10 * |ths|
  {
    if ths != [] {
      TotalBound(ths[1..]);
    }
  }

  /** Every step of a working thread lowers the measure, whatever the state. */
  lemma StepFalls(s: State, t: Tid, s': State)
    requires t < |s.threads| && Step(s, t) == Some(s')
    ensures Working(s.threads[t].pc) ==> Total(s'.threads) < Total(s.threads)
    ensures s.threads[t].pc == Idle ==> Total(s'.threads) <= Total(s.threads) + 10
    ensures s.threads[t].pc == Asleep ==> Total(s'.threads) == Total(s.threads) + 2
  {
    var ths := s.threads;
    if ths[t].pc == Link {
      var p := ths[t].oldTail.value;
      TotalSet(ths, p, ths[p].(next := Some(t)));
      ths := ths[p := ths[p].(next := Some(t))];
    } else if ths[t].pc == Critical && s.head.Some? && ths[s.head.value].pc == Asleep {
      var h := s.head.value;
      TotalSet(ths, h, ths[h].(pc := Woken));
      ths := ths[h := ths[h].(pc := Woken)];
    }
    TotalSet(ths, t, s'.threads[t]);
    assert s'.threads == ths[t := s'.threads[t]];
  }

  lemma StepPays(s: State, t: Tid, s': State)
    requires t < |s.threads| && Step(s, t) == Some(s')
    ensures var pc := s.threads[t].pc;
      (if Working(pc) then 1 else 0) + Total(s'.threads)
        <= Total(s.threads) + 10 * (if pc == Idle then 1 else 0) + 2 * (if pc == Asleep then 1 else 0)
  {
    StepFalls(s, t, s');
  }

  /** Step `i` of the run is one of thread `who[i]`. */
  ghost predicate Steps(run: seq<State>, who: seq<Tid>) {
    |who| + 1 == |run| && forall i :: 0 <= i < |who| ==> StepBy(run, who, i)
  }

  ghost predicate StepBy(run: seq<State>, who: seq<Tid>, i: int)
    requires 0 <= i < |who| && |who| + 1 == |run|
  {
    who[i] < |run[i].threads| && Step(run[i], who[i]) == Some(run[i + 1])
  }

  /** Every run is one of steps of certain threads. */
  lemma StepsOf(run: seq<State>) returns (who: seq<Tid>)
    requires Run(run)
    ensures Steps(run, who)
  {
    hide Step, Init;
    who := [];
    for i := 1 to |run|
      invariant |who| == i - 1
      invariant forall k :: 0 <= k < |who| ==> who[k] < |run[k].threads| && Step(run[k], who[k]) == Some(run[k + 1])
    {
      assert StepAt(run, i);
      var t: Tid :| t < |run[i - 1].threads| && Step(run[i - 1], t) == Some(run[i]);
      who := who + [t];
    }
    forall i | 0 <= i < |who| ensures StepBy(run, who, i) {
    }
  }

  /** How many of the steps i..j are those of a thread whose place satisfies `p`. */
  ghost function Count(run: seq<State>, who: seq<Tid>, p: Pc -> bool, i: nat, j: nat): nat
    requires i <= j < |run| && Steps(run, who)
    decreases j
  {
    if i == j then 0
    else
      assert StepBy(run, who, j - 1);
      Count(run, who, p, i, j - 1) + if p(run[j - 1].threads[who[j - 1]].pc) then 1 else 0
  }

  predicate Outside(pc: Pc) {
    pc == Idle
  }

  predicate Sleeping(pc: Pc) {
    pc == Asleep
  }

  /** The work done between two states of a run is bounded by what there was to do and what came in:
      at most ten steps for each thread in between and each arrival, and two for each spurious
      wake-up. */
  lemma {:induction false} WorkBound(run: seq<State>, who: seq<Tid>, i: nat, j: nat)
    requires i <= j < |run| && Steps(run, who)
    ensures Count(run, who, Working, i, j) + Total(run[j].threads)
         <= Total(run[i].threads) + 10 * Count(run, who, Outside, i, j) + 2 * Count(run, who, Sleeping, i, j)
    ensures Total(run[i].threads) <= 10 * |run[i].threads|
    decreases j
  {
    TotalBound(run[i].threads);
    if i < j {
      assert StepBy(run, who, j - 1);
      WorkBound(run, who, i, j - 1);
      StepPays(run[j - 1], who[j - 1], run[j]);
    }
  }

  /** Once no working thread can step any more, everybody who came has got the lock and given it up. */
  lemma Drained(run: seq<State>, i: nat)
    requires Run(run) && i < |run|
    requires forall t :: 0 <= t < |run[i].threads| && Working(run[i].threads[t].pc) ==> Step(run[i], t).None?
    ensures run[i].acquired == run[i].exchanged && run[i].owner.None?
  {
    var s := run[i];
    RunInv(run, i);
    Acquired(s);
    if |s.acquired| < |s.exchanged| {
      Progress(run, i);
    }
    if s.owner.Some? {
      OwnerSteps(s);
    }
  }

  lemma OwnerSteps(s: State)
    requires Inv(s) && s.acquired == s.exchanged && s.owner.Some?
    ensures s.owner.value < |s.threads| && Working(s.threads[s.owner.value].pc) && Step(s, s.owner.value).Some?
  {
    assert s.exchanged[|s.acquired|..] == [];
  }

  /** fifo_mutex_yield releases the lock exactly if somebody is queued. */
  predicate YieldReleases(s: State) {
    s.head.Some? || s.tail.Some?
  }

  lemma YieldIffQueued(run: seq<State>, i: nat, t: Tid)
    requires Run(run) && i < |run| && PcOf(run[i], t) == Critical
    ensures YieldReleases(run[i]) <==> |run[i].acquired| < |run[i].exchanged|
  {
    RunInv(run, i);
    assert run[i].owner == Some(t);
  }

  lemma {:induction false} HistoryGrows(run: seq<State>, i: nat, j: nat)
    requires Run(run) && i <= j < |run|
    ensures run[i].exchanged <= run[j].exchanged && run[i].acquired <= run[j].acquired
  {
    if i < j {
      HistoryGrows(run, i, j - 1);
      assert StepAt(run, j);
      var t :| 0 <= t < |run[j - 1].threads| && Step(run[j - 1], t) == Some(run[j]);
    }
  }

  /** A thread that gives the lock up at `i` and has it again at `j` has let everybody pass
      who was queued at `i`. */
  lemma YielderGoesBehind(run: seq<State>, i: nat, j: nat, t: Tid)
    requires Run(run) && i <= j < |run| && PcOf(run[i], t) == Critical
    requires |run[i].acquired| <= |run[j].acquired| && t in run[j].acquired[|run[i].acquired|..]
    ensures run[i].exchanged <= run[j].acquired
  {
    RunInv(run, i);
    RunInv(run, j);
    HistoryGrows(run, i, j);
    OwnerNotQueued(run[i], t);
    Acquired(run[j]);
    Behind(run[i].acquired, run[i].exchanged, run[j].acquired, run[j].exchanged, t);
  }

  lemma Acquired(s: State)
    requires Inv(s)
    ensures s.acquired <= s.exchanged
  {
  }

  lemma OwnerNotQueued(s: State, t: Tid)
    requires Inv(s) && PcOf(s, t) == Critical
    ensures s.acquired <= s.exchanged && t !in s.exchanged[|s.acquired|..]
  {
  }

  lemma Behind(acquired: seq<Tid>, exchanged: seq<Tid>, acquired': seq<Tid>, exchanged': seq<Tid>, t: Tid)
    requires acquired <= exchanged <= exchanged' && |acquired| <= |acquired'| && acquired' <= exchanged'
    requires t !in exchanged[|acquired|..] && t in acquired'[|acquired|..]
    ensures exchanged <= acquired'
  {
    var m :| |acquired| <= m < |acquired'| && acquired'[m] == t;
    assert forall i :: |acquired| <= i < |exchanged| ==> exchanged[i] in exchanged[|acquired|..];
  }
}
