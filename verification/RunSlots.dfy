/** Per-workflow admission of runs (`SessionManager._run_slot` and `run_status`).

    A step is what one task does between two awaits. The semaphore is `asyncio.Semaphore` as of
    CPython 3.12: a queue of futures, a permit handed over when a future is resolved, a
    hand-over that may be undone if the task is cancelled before it resumes, and a resumed
    task that wakes others in a loop while permits last. */
module RunSlots {
  import opened Commons

  type WorkflowId = string
  type Task = nat

  /** State of a queued task's future: unresolved; resolved with a permit; resolved but the
      task has been cancelled since; cancelled while unresolved. */
  datatype Ticket = Pending | Granted | Doomed | Cancelled

  datatype Waiter = Waiter(task: Task, ticket: Ticket)

  /** One workflow: semaphore value and waiters, tasks inside the slot, the two counters. */
  datatype Slot = Slot(permits: nat, queue: seq<Waiter>, running: set<Task>, active: int, waiting: int)

  datatype Event =
    | Arrive(task: Task)   // enter `_run_slot`, up to the first suspension
    | Cancel(task: Task)   // cancel a task that is queued
    | Resume(task: Task)   // the event loop resumes a queued task
    | Leave(task: Task)    // the run returns, raises or is cancelled inside the slot

  predicate HoldsPermit(t: Ticket) {
    t == Granted || t == Doomed
  }

  function FirstPending(q: seq<Waiter>): (i: nat)
    ensures i <= |q| && (forall j | 0 <= j < i :: q[j].ticket != Pending) && (i < |q| ==> q[i].ticket == Pending)
  {
    if q == [] || q[0].ticket == Pending then 0 else 1 + FirstPending(q[1..])
  }

  function IndexOf(q: seq<Waiter>, t: Task): (i: nat)
    ensures i <= |q| && (forall j | 0 <= j < i :: q[j].task != t) && (i < |q| ==> q[i].task == t)
  {
    if q == [] || q[0].task == t then 0 else 1 + IndexOf(q[1..], t)
  }

  /** `locked()`: no permit, or some waiter that is not cancelled. */
  predicate Locked(s: Slot) {
    s.permits == 0 || Live(s.queue)
  }

  /** Some waiter is not cancelled. */
  predicate Live(q: seq<Waiter>) {
    exists w <- q :: w.ticket != Cancelled
  }

  /** `_wake_up_next`: hand a permit to the first unresolved waiter, if there is one. */
  function WakeNext(s: Slot): Slot
    requires s.permits > 0
  {
    var i := FirstPending(s.queue);
    if i == |s.queue| then s
    else s.(permits := s.permits - 1, queue := s.queue[i := s.queue[i].(ticket := Granted)])
  }

  /** The loop at the end of `acquire`. */
  function WakeAll(s: Slot): Slot
    decreases s.permits
  {
    if s.permits == 0 || FirstPending(s.queue) == |s.queue| then s else WakeAll(WakeNext(s))
  }

  predicate Enabled(s: Slot, e: Event) {
    match e
    case Arrive(t) => IndexOf(s.queue, t) == |s.queue| && t !in s.running
    case Cancel(t) => var i := IndexOf(s.queue, t);
      i < |s.queue| && (s.queue[i].ticket == Pending || s.queue[i].ticket == Granted)
    case Resume(t) => var i := IndexOf(s.queue, t); i < |s.queue| && s.queue[i].ticket != Pending
    case Leave(t) => t in s.running
  }

  /** The slot after an enabled event. */
  function Next(s: Slot, e: Event): Slot
    requires Enabled(s, e)
  {
    match e
    case Arrive(t) => AfterArrive(s, t)
    case Cancel(t) => AfterCancel(s, IndexOf(s.queue, t))
    case Resume(t) => AfterResume(s, IndexOf(s.queue, t))
    case Leave(t) => AfterLeave(s, t)
  }

  function AfterArrive(s: Slot, t: Task): Slot {
    if !Locked(s) then Entered(s.(permits := s.permits - 1), t)
    else s.(queue := s.queue + [Waiter(t, Pending)], waiting := s.waiting + 1)
  }

  function Entered(s: Slot, t: Task): Slot {
    s.(running := s.running + {t}, active := s.active + 1)
  }

  function AfterCancel(s: Slot, i: nat): Slot
    requires i < |s.queue|
  {
    var w := s.queue[i];
    s.(queue := s.queue[i := w.(ticket := if w.ticket == Pending then Cancelled else Doomed)])
  }

  /** The future at index `i` is gone, and a permit it can no longer use is returned. */
  function Gone(s: Slot, i: nat): Slot
    requires i < |s.queue|
  {
    s.(queue := Without(s.queue, i), permits := s.permits + if s.queue[i].ticket == Doomed then 1 else 0)
  }

  function AfterResume(s: Slot, i: nat): Slot
    requires i < |s.queue|
  {
    var r := WakeAll(Gone(s, i));
    var out := r.(waiting := r.waiting - 1);
    if s.queue[i].ticket == Granted then Entered(out, s.queue[i].task) else out
  }

  function AfterLeave(s: Slot, t: Task): Slot {
    WakeNext(s.(active := s.active - 1, running := s.running - {t}, permits := s.permits + 1))
  }

  function Without(q: seq<Waiter>, i: nat): seq<Waiter>
    requires i < |q|
  {
    q[..i] + q[i + 1..]
  }

  // The invariant

  function InTransit(q: seq<Waiter>): nat {
    if q == [] then 0 else (if HoldsPermit(q[0].ticket) then 1 else 0) + InTransit(q[1..])
  }

  ghost predicate Distinct(s: Slot) {
    && (forall i, j | 0 <= i < j < |s.queue| :: s.queue[i].task != s.queue[j].task)
    && (forall w <- s.queue :: w.task !in s.running)
  }

  /** Permits are conserved, the counters are exact, no task is in two places. */
  ghost predicate Balanced(s: Slot, max: nat) {
    && s.permits + InTransit(s.queue) + |s.running| == max
    && s.active == |s.running| && s.waiting == |s.queue|
    && Distinct(s)
  }

  /** A permit is never free while a task waits, unless a resumption that will hand it on
      is already under way; and permits go out in order of arrival. */
  ghost predicate Fair(s: Slot) {
    && (s.permits > 0 && FirstPending(s.queue) < |s.queue| ==> InTransit(s.queue) > 0)
    && Ordered(s.queue)
  }

  ghost predicate Ordered(q: seq<Waiter>) {
    forall i, j | 0 <= i < j < |q| && HoldsPermit(q[j].ticket) :: q[i].ticket != Pending
  }

  ghost predicate Inv(s: Slot, max: nat) {
    Balanced(s, max) && Fair(s)
  }

  lemma {:induction false} TransitConcat(a: seq<Waiter>, b: seq<Waiter>)
    ensures InTransit(a + b) == InTransit(a) + InTransit(b)
    decreases |a|
  {
    if a == [] {
      assert a + b == b;
    } else {
      assert (a + b)[1..] == a[1..] + b;
      TransitConcat(a[1..], b);
    }
  }

  lemma TransitSplit(q: seq<Waiter>, i: nat)
    requires i < |q|
    ensures InTransit(q) == InTransit(q[..i]) + (if HoldsPermit(q[i].ticket) then 1 else 0) + InTransit(q[i + 1..])
  {
    assert q == q[..i] + q[i..] && q[i..] == [q[i]] + q[i + 1..];
    TransitConcat(q[..i], q[i..]);
    TransitConcat([q[i]], q[i + 1..]);
  }

  lemma TransitUpdate(q: seq<Waiter>, i: nat, w: Waiter)
    requires i < |q|
    ensures InTransit(q[i := w]) ==
            InTransit(q) - (if HoldsPermit(q[i].ticket) then 1 else 0) + (if HoldsPermit(w.ticket) then 1 else 0)
  {
    var r := q[i := w];
    TransitSplit(q, i);
    TransitSplit(r, i);
    assert r[..i] == q[..i] && r[i + 1..] == q[i + 1..];
  }

  lemma WakeNextKeeps(s: Slot, max: nat)
    requires Balanced(s, max) && s.permits > 0 && Ordered(s.queue)
    ensures Inv(WakeNext(s), max)
  {
    var i := FirstPending(s.queue);
    if i < |s.queue| {
      TransitUpdate(s.queue, i, s.queue[i].(ticket := Granted));
    }
  }

  lemma {:induction false} WakeAllKeeps(s: Slot, max: nat)
    requires Balanced(s, max) && Ordered(s.queue)
    ensures Inv(WakeAll(s), max)
    decreases s.permits
  {
    if s.permits > 0 && FirstPending(s.queue) < |s.queue| {
      WakeNextKeeps(s, max);
      WakeAllKeeps(WakeNext(s), max);
    }
  }

  function Idle(max: nat): Slot {
    Slot(max, [], {}, 0, 0)
  }

  lemma ArriveKeeps(s: Slot, max: nat, t: Task)
    requires Inv(s, max) && Enabled(s, Arrive(t))
    ensures Inv(AfterArrive(s, t), max)
  {
    if Locked(s) {
      if s.permits > 0 { LockedHasTransit(s); }
      TransitConcat(s.queue, [Waiter(t, Pending)]);
      var r := AfterArrive(s, t);
      assert r.queue == s.queue + [Waiter(t, Pending)];
      assert Ordered(r.queue);
      assert Distinct(r);
    }
  }

  /** A lock with a permit left is held by a waiter that is about to resume. */
  lemma LockedHasTransit(s: Slot)
    requires Fair(s) && Locked(s) && s.permits > 0
    ensures InTransit(s.queue) > 0
  {
    var w :| w in s.queue && w.ticket != Cancelled;
    var i :| 0 <= i < |s.queue| && s.queue[i] == w;
    TransitSplit(s.queue, i);
  }

  lemma CancelKeeps(s: Slot, max: nat, t: Task)
    requires Inv(s, max) && Enabled(s, Cancel(t))
    ensures Inv(AfterCancel(s, IndexOf(s.queue, t)), max)
  {
    var i := IndexOf(s.queue, t);
    var r := AfterCancel(s, i);
    TransitUpdate(s.queue, i, r.queue[i]);
    if FirstPending(r.queue) < |r.queue| {
      assert s.queue[FirstPending(r.queue)].ticket == Pending;
    }
  }

  lemma WithoutKeeps(q: seq<Waiter>, i: nat)
    requires i < |q| && Ordered(q) && forall j, k | 0 <= j < k < |q| :: q[j].task != q[k].task
    ensures var r := Without(q, i);
      && |r| == |q| - 1 && Ordered(r)
      && InTransit(r) == InTransit(q) - (if HoldsPermit(q[i].ticket) then 1 else 0)
      && (forall j, k | 0 <= j < k < |r| :: r[j].task != r[k].task)
      && (forall w <- r :: w in q && w.task != q[i].task)
  {
    TransitSplit(q, i);
    TransitConcat(q[..i], q[i + 1..]);
  }

  /** A resumption before it wakes others: the future gone, the counters settled. `acquire` wakes
      others before its caller settles the counters; the order is immaterial. */
  function Settled(s: Slot, i: nat): Slot
    requires i < |s.queue|
  {
    var out := Gone(s, i).(waiting := s.waiting - 1);
    if s.queue[i].ticket == Granted then Entered(out, s.queue[i].task) else out
  }

  lemma SettledKeeps(s: Slot, max: nat, i: nat)
    requires Inv(s, max) && i < |s.queue| && s.queue[i].ticket != Pending
    ensures Balanced(Settled(s, i), max) && Ordered(Settled(s, i).queue)
  {
    WithoutKeeps(s.queue, i);
  }

  lemma ResumeKeeps(s: Slot, max: nat, t: Task)
    requires Inv(s, max) && Enabled(s, Resume(t))
    ensures Inv(AfterResume(s, IndexOf(s.queue, t)), max)
  {
    var i := IndexOf(s.queue, t);
    SettledKeeps(s, max, i);
    WakeAllKeeps(Settled(s, i), max);
    WakeCommutes(Gone(s, i), Settled(s, i));
    assert AfterResume(s, i) == WakeAll(Settled(s, i));
  }

  /** Waking looks at permits and queue only. */
  lemma {:induction false} WakeCommutes(a: Slot, b: Slot)
    requires a.permits == b.permits && a.queue == b.queue
    ensures WakeAll(b) == b.(permits := WakeAll(a).permits, queue := WakeAll(a).queue)
    ensures WakeAll(a) == a.(permits := WakeAll(a).permits, queue := WakeAll(a).queue)
    decreases a.permits
  {
    if a.permits > 0 && FirstPending(a.queue) < |a.queue| { WakeCommutes(WakeNext(a), WakeNext(b)); }
  }

  lemma LeaveKeeps(s: Slot, max: nat, t: Task)
    requires Inv(s, max) && Enabled(s, Leave(t))
    ensures Inv(AfterLeave(s, t), max)
  {
    WakeNextKeeps(s.(active := s.active - 1, running := s.running - {t}, permits := s.permits + 1), max);
  }

  // Runs over all workflows

  type World = map<WorkflowId, Slot>

  function SlotOf(m: World, w: WorkflowId, max: nat): Slot {
    Get(m, w, Idle(max))
  }

  datatype Happening = Happening(workflow: WorkflowId, event: Event)

  /** Events that cannot happen in the current state do not happen. */
  function Apply(m: World, h: Happening, max: nat): World {
    var s := SlotOf(m, h.workflow, max);
    if Enabled(s, h.event) then m[h.workflow := Next(s, h.event)] else m
  }

  function Play(hs: seq<Happening>, max: nat): World {
    if hs == [] then map[] else Apply(Play(hs[..|hs| - 1], max), hs[|hs| - 1], max)
  }

  lemma NextKeeps(s: Slot, max: nat, e: Event)
    requires Inv(s, max) && Enabled(s, e)
    ensures Inv(Next(s, e), max)
  {
    match e
    case Arrive(t) => ArriveKeeps(s, max, t);
    case Cancel(t) => CancelKeeps(s, max, t);
    case Resume(t) => ResumeKeeps(s, max, t);
    case Leave(t) => LeaveKeeps(s, max, t);
  }

  /** In every state of every interleaving, each workflow's permits are conserved, its
      counters exact, its queue served in order, and no permit idles past a waiter. */
  lemma {:induction false} EveryRunKeepsInv(hs: seq<Happening>, w: WorkflowId, max: nat)
    ensures Inv(SlotOf(Play(hs, max), w, max), max)
    decreases |hs|
  {
    if hs == [] {
      assert Inv(Idle(max), max);
    } else {
      var front, h := hs[..|hs| - 1], hs[|hs| - 1];
      EveryRunKeepsInv(front, w, max);
      var s := SlotOf(Play(front, max), h.workflow, max);
      if h.workflow == w && Enabled(s, h.event) { NextKeeps(s, max, h.event); }
    }
  }

  /** The events of workflow `w` alone. */
  function Only(hs: seq<Happening>, w: WorkflowId): seq<Happening> {
    if hs == [] then []
    else if hs[|hs| - 1].workflow == w then Only(hs[..|hs| - 1], w) + [hs[|hs| - 1]]
    else Only(hs[..|hs| - 1], w)
  }

  /** A workflow's slot is what its own events alone would have made it. */
  lemma {:induction false} WorkflowsIndependent(hs: seq<Happening>, w: WorkflowId, max: nat)
    ensures SlotOf(Play(hs, max), w, max) == SlotOf(Play(Only(hs, w), max), w, max)
    decreases |hs|
  {
    if hs != [] {
      var front, h := hs[..|hs| - 1], hs[|hs| - 1];
      WorkflowsIndependent(front, w, max);
      if h.workflow == w {
        var own := Only(hs, w);
        assert own[..|own| - 1] == Only(front, w) && own[|own| - 1] == h;
      }
    }
  }

  /** The documented bound, and what a blocked task may conclude: if nothing is in transit
      and some task waits, exactly `max` runs are executing. */
  lemma AdmissionBound(hs: seq<Happening>, w: WorkflowId, max: nat)
    ensures var s := SlotOf(Play(hs, max), w, max);
      && 0 <= s.active <= max
      && (s.queue == [] && s.running == {} ==> s == Idle(max))
      && (s.queue != [] && (forall v <- s.queue :: v.ticket == Pending) ==> s.active == max && s.permits == 0)
  {
    EveryRunKeepsInv(hs, w, max);
    var s := SlotOf(Play(hs, max), w, max);
    if s.queue != [] && forall v <- s.queue :: v.ticket == Pending {
      NoneInTransit(s.queue);
      assert s.queue[0] in s.queue;
    }
  }

  lemma {:induction false} NoneInTransit(q: seq<Waiter>)
    requires forall v <- q :: v.ticket == Pending
    ensures InTransit(q) == 0
    decreases |q|
  {
    if q != [] {
      assert q[0] in q;
      NoneInTransit(q[1..]);
    }
  }

  // What becomes of one task

  datatype Standing = Nowhere | Inside | Waiting(ticket: Ticket)

  function StandingOf(s: Slot, t: Task): Standing {
    var i := IndexOf(s.queue, t);
    if t in s.running then Inside else if i < |s.queue| then Waiting(s.queue[i].ticket) else Nowhere
  }

  /** What a step may do to a task: its own events move it on, those of others at most hand it
      a permit. */
  ghost predicate MovesOn(a: Standing, b: Standing, e: Event, t: Task) {
    if e.task != t then b == a || (a == Waiting(Pending) && b == Waiting(Granted))
    else match e
      case Arrive(_) => a == Nowhere && b in {Inside, Waiting(Pending)}
      case Cancel(_) => (a, b) in {(Waiting(Pending), Waiting(Cancelled)), (Waiting(Granted), Waiting(Doomed))}
      case Resume(_) =>
        (a, b) in {(Waiting(Granted), Inside), (Waiting(Doomed), Nowhere), (Waiting(Cancelled), Nowhere)}
      case Leave(_) => a == Inside && b == Nowhere
  }

  /** Waking moves no task and touches no ticket but unresolved ones. */
  ghost predicate OnlyWoken(q: seq<Waiter>, r: seq<Waiter>) {
    |r| == |q| && forall i | 0 <= i < |q| ::
      r[i] == q[i] || (r[i].task == q[i].task && q[i].ticket == Pending && r[i].ticket == Granted)
  }

  lemma {:induction false} WakeAllWakes(s: Slot)
    ensures WakeAll(s).running == s.running && OnlyWoken(s.queue, WakeAll(s).queue)
    decreases s.permits
  {
    if s.permits > 0 && FirstPending(s.queue) < |s.queue| { WakeAllWakes(WakeNext(s)); }
  }

  /** It ends when no permit is left or nobody waits for one. */
  lemma {:induction false} WakeAllSpends(s: Slot)
    ensures WakeAll(s).permits == 0 || forall v <- WakeAll(s).queue :: v.ticket != Pending
    decreases s.permits
  {
    if s.permits > 0 && FirstPending(s.queue) < |s.queue| { WakeAllSpends(WakeNext(s)); }
  }

  lemma IndexUnique(q: seq<Waiter>, t: Task, i: nat)
    requires i < |q| && q[i].task == t && forall j | 0 <= j < i :: q[j].task != t
    ensures IndexOf(q, t) == i
  {
  }

  lemma WokenStanding(s: Slot, r: Slot, t: Task)
    requires r.running == s.running && OnlyWoken(s.queue, r.queue)
    ensures var a, b := StandingOf(s, t), StandingOf(r, t);
      b == a || (a == Waiting(Pending) && b == Waiting(Granted))
  {
    var i := IndexOf(s.queue, t);
    if i < |s.queue| { IndexUnique(r.queue, t, i); }
  }

  lemma WithoutIndex(q: seq<Waiter>, i: nat, t: Task)
    requires i < |q| && forall j, k | 0 <= j < k < |q| :: q[j].task != q[k].task
    ensures var k, r := IndexOf(q, t), Without(q, i);
      IndexOf(r, t) == if k == i then |r| else if k < i then k else k - 1
  {
    var k, r := IndexOf(q, t), Without(q, i);
    if k < |q| && k != i { IndexUnique(r, t, if k < i then k else k - 1); }
  }

  lemma GoneStanding(s: Slot, max: nat, i: nat, t: Task)
    requires Inv(s, max) && i < |s.queue| && s.queue[i].ticket != Pending
    ensures var r := Settled(s, i);
      if t != s.queue[i].task then StandingOf(r, t) == StandingOf(s, t)
      else StandingOf(r, t) == if s.queue[i].ticket == Granted then Inside else Nowhere
  {
    WithoutIndex(s.queue, i, t);
    if t == s.queue[i].task { IndexUnique(s.queue, t, i); }
  }

  lemma ArriveMoves(s: Slot, u: Task, t: Task)
    requires Enabled(s, Arrive(u))
    ensures MovesOn(StandingOf(s, t), StandingOf(AfterArrive(s, u), t), Arrive(u), t)
  {
    var r, k := AfterArrive(s, u), IndexOf(s.queue, t);
    if k < |r.queue| && r.queue[k].task == t { IndexUnique(r.queue, t, k); }
  }

  lemma CancelMoves(s: Slot, max: nat, u: Task, t: Task)
    requires Inv(s, max) && Enabled(s, Cancel(u))
    ensures MovesOn(StandingOf(s, t), StandingOf(AfterCancel(s, IndexOf(s.queue, u)), t), Cancel(u), t)
  {
    var r, k := AfterCancel(s, IndexOf(s.queue, u)), IndexOf(s.queue, t);
    if k < |s.queue| { IndexUnique(r.queue, t, k); }
  }

  lemma ResumeMoves(s: Slot, max: nat, u: Task, t: Task)
    requires Inv(s, max) && Enabled(s, Resume(u))
    ensures MovesOn(StandingOf(s, t), StandingOf(AfterResume(s, IndexOf(s.queue, u)), t), Resume(u), t)
  {
    var i := IndexOf(s.queue, u);
    GoneStanding(s, max, i, t);
    ResumedIsWoken(s, i);
    WokenStanding(Settled(s, i), AfterResume(s, i), t);
    if u == t { assert StandingOf(s, t) == Waiting(s.queue[i].ticket); }
  }

  /** A resumption ends with the others woken. */
  lemma ResumedIsWoken(s: Slot, i: nat)
    requires i < |s.queue|
    ensures var r := AfterResume(s, i);
      && r.running == Settled(s, i).running && OnlyWoken(Settled(s, i).queue, r.queue)
      && (r.permits == 0 || forall v <- r.queue :: v.ticket != Pending)
  {
    WakeAllWakes(Gone(s, i));
    WakeAllSpends(Gone(s, i));
  }

  lemma LeaveMoves(s: Slot, u: Task, t: Task)
    requires Enabled(s, Leave(u)) && IndexOf(s.queue, u) == |s.queue|
    ensures MovesOn(StandingOf(s, t), StandingOf(AfterLeave(s, u), t), Leave(u), t)
  {
    var left := s.(active := s.active - 1, running := s.running - {u}, permits := s.permits + 1);
    assert OnlyWoken(left.queue, WakeNext(left).queue);
    WokenStanding(left, WakeNext(left), t);
  }

  /** In every reachable state an event moves the task it names on, and no other. */
  lemma TaskMovesOn(s: Slot, max: nat, e: Event, t: Task)
    requires Inv(s, max) && Enabled(s, e)
    ensures MovesOn(StandingOf(s, t), StandingOf(Next(s, e), t), e, t)
  {
    match e
    case Arrive(u) => ArriveMoves(s, u, t);
    case Cancel(u) => CancelMoves(s, max, u, t);
    case Resume(u) => ResumeMoves(s, max, u, t);
    case Leave(u) =>
      assert IndexOf(s.queue, u) == |s.queue|;
      LeaveMoves(s, u, t);
  }

  ghost function StandingIn(hs: seq<Happening>, w: WorkflowId, max: nat, t: Task): Standing {
    StandingOf(SlotOf(Play(hs, max), w, max), t)
  }

  lemma OneMore(hs: seq<Happening>, h: Happening, w: WorkflowId, max: nat, t: Task)
    ensures var a, b := StandingIn(hs, w, max, t), StandingIn(hs + [h], w, max, t);
      if h.workflow == w && Enabled(SlotOf(Play(hs, max), w, max), h.event) then MovesOn(a, b, h.event, t) else b == a
  {
    assert (hs + [h])[..|hs|] == hs;
    EveryRunKeepsInv(hs, w, max);
    if h.workflow == w && Enabled(SlotOf(Play(hs, max), w, max), h.event) {
      TaskMovesOn(SlotOf(Play(hs, max), w, max), max, h.event, t);
    }
  }

  lemma {:induction false} CancelledStanding(before: seq<Happening>, w: WorkflowId, t: Task, after: seq<Happening>,
      max: nat)
    requires exists v <- SlotOf(Play(before, max), w, max).queue :: v.task == t
    requires Happening(w, Arrive(t)) !in after
    ensures var a := StandingIn(before + [Happening(w, Cancel(t))] + after, w, max, t);
      if Happening(w, Resume(t)) in after then a == Nowhere
      else a in {Nowhere, Waiting(Doomed), Waiting(Cancelled)}
    decreases |after|
  {
    var start := before + [Happening(w, Cancel(t))];
    if after == [] {
      EveryRunKeepsInv(before, w, max);
      OneMore(before, Happening(w, Cancel(t)), w, max, t);
      assert start + after == start;
    } else {
      var front, h := after[..|after| - 1], after[|after| - 1];
      assert after == front + [h] && start + after == start + front + [h];
      CancelledStanding(before, w, t, front, max);
      OneMore(start + front, h, w, max, t);
    }
  }

  /** A task that was cancelled while it waited, with or without a permit, is not let in, and once
      it has resumed it has left the queue, whatever else happens until it arrives anew. */
  lemma CancelledStaysOut(before: seq<Happening>, w: WorkflowId, t: Task, after: seq<Happening>, max: nat)
    requires exists v <- SlotOf(Play(before, max), w, max).queue :: v.task == t
    requires Happening(w, Arrive(t)) !in after
    ensures var s := SlotOf(Play(before + [Happening(w, Cancel(t))] + after, max), w, max);
      t !in s.running && (Happening(w, Resume(t)) in after ==> forall v <- s.queue :: v.task != t)
  {
    CancelledStanding(before, w, t, after, max);
  }

  /** A task that arrives and is neither cancelled nor done is inside, or waits without having been
      passed over: with a permit in hand its next step takes it inside, and out when it is done. */
  lemma {:induction false} UncancelledGetsIn(before: seq<Happening>, w: WorkflowId, t: Task, after: seq<Happening>,
      max: nat)
    requires StandingIn(before, w, max, t) == Nowhere
    requires Happening(w, Cancel(t)) !in after && Happening(w, Leave(t)) !in after
    ensures var hs := before + [Happening(w, Arrive(t))] + after;
      && StandingIn(hs, w, max, t) in {Inside, Waiting(Pending), Waiting(Granted)}
      && (StandingIn(hs, w, max, t) == Waiting(Granted) ==>
            t in SlotOf(Play(hs + [Happening(w, Resume(t))], max), w, max).running)
      && (StandingIn(hs, w, max, t) == Inside ==> StandingIn(hs + [Happening(w, Leave(t))], w, max, t) == Nowhere)
    decreases |after|
  {
    var start := before + [Happening(w, Arrive(t))];
    if after == [] {
      OneMore(before, Happening(w, Arrive(t)), w, max, t);
      assert start + after == start;
    } else {
      var front, h := after[..|after| - 1], after[|after| - 1];
      assert after == front + [h] && start + after == start + front + [h];
      UncancelledGetsIn(before, w, t, front, max);
      OneMore(start + front, h, w, max, t);
    }
    OneMore(start + after, Happening(w, Resume(t)), w, max, t);
    OneMore(start + after, Happening(w, Leave(t)), w, max, t);
  }

  // The manager's dictionaries

  datatype Semaphore = Semaphore(value: nat, waiters: seq<Waiter>)

  class SessionManager {
    const maxConcurrentRuns: nat
    var runSlots: map<WorkflowId, Semaphore>
    var activeRuns: map<WorkflowId, int>
    var waitingRuns: map<WorkflowId, int>
    /** Tasks suspended at the `yield` of `_run_slot`. */
    ghost var inside: map<WorkflowId, set<Task>>

    constructor (maxConcurrentRuns: nat)
      ensures this.maxConcurrentRuns == maxConcurrentRuns && Keyed()
      ensures forall w :: View(w) == Idle(maxConcurrentRuns)
    {
      this.maxConcurrentRuns := maxConcurrentRuns;
      runSlots, activeRuns, waitingRuns, inside := map[], map[], map[], map[];
    }

    ghost function View(w: WorkflowId): Slot
      reads this
    {
      var sem := Get(runSlots, w, Semaphore(maxConcurrentRuns, []));
      Slot(sem.value, sem.waiters, Get(inside, w, {}), Get(activeRuns, w, 0), Get(waitingRuns, w, 0))
    }

    /** Everything a step may do: workflow `w` moves to `s`, the others stay. */
    twostate predicate Moves(w: WorkflowId, s: Slot)
      reads this
    {
      View(w) == s && forall v | v != w :: View(v) == old(View(v))
    }

    /** Which keys the dictionaries have: none of the lookups below can fail. */
    ghost predicate Keyed()
      reads this
    {
      waitingRuns.Keys == runSlots.Keys && activeRuns.Keys == inside.Keys && activeRuns.Keys <= runSlots.Keys
    }

    /** `run_status`. */
    method RunStatus(w: WorkflowId) returns (active: int, waiting: int, max: nat)
      ensures active == View(w).active && waiting == View(w).waiting && max == maxConcurrentRuns
    {
      active := Get(activeRuns, w, 0);
      waiting := Get(waitingRuns, w, 0);
      max := maxConcurrentRuns;
    }

    /** `_run_slot` from its start: in at once, or suspended on a new future. */
    method Arrive(w: WorkflowId, t: Task) returns (entered: bool)
      requires Keyed()
      modifies this
      ensures Keyed() && Moves(w, AfterArrive(old(View(w)), t))
      ensures entered <==> old(View(w)).permits > 0 && forall v <- old(View(w)).queue :: v.ticket == Cancelled
      ensures if entered then t in View(w).running else View(w).queue == old(View(w)).queue + [Waiter(t, Pending)]
    {
      StartWaiting(w);
      entered := AcquireNow(w, t);
      if entered {
        StopWaiting(w);
        EnterSlot(w, t);
      }
    }

    /** The dictionary entries of the workflow, and one more waiting task. */
    method StartWaiting(w: WorkflowId)
      requires Keyed()
      modifies this`runSlots, this`waitingRuns
      ensures Keyed() && w in runSlots
      ensures Moves(w, old(View(w)).(waiting := old(View(w)).waiting + 1))
    {
      runSlots := runSlots[w := Get(runSlots, w, Semaphore(maxConcurrentRuns, []))];
      waitingRuns := waitingRuns[w := Get(waitingRuns, w, 0) + 1];
    }

    /** The `finally` around `acquire`. */
    method StopWaiting(w: WorkflowId)
      requires Keyed() && w in runSlots
      modifies this`waitingRuns
      ensures Keyed() && Moves(w, old(View(w)).(waiting := old(View(w)).waiting - 1))
    {
      waitingRuns := waitingRuns[w := waitingRuns[w] - 1];
    }

    /** `acquire` up to its first suspension: a permit at once, or a new future at the end of the queue. */
    method AcquireNow(w: WorkflowId, t: Task) returns (acquired: bool)
      requires w in runSlots
      modifies this`runSlots
      ensures acquired <==> !Locked(old(View(w)))
      ensures runSlots.Keys == old(runSlots.Keys)
      ensures Moves(w, var s := old(View(w)); if Locked(s) then s.(queue := s.queue + [Waiter(t, Pending)])
                                              else s.(permits := s.permits - 1))
    {
      var sem := runSlots[w];
      acquired := sem.value > 0 && forall v <- sem.waiters :: v.ticket == Cancelled;
      if acquired {
        runSlots := runSlots[w := Semaphore(sem.value - 1, sem.waiters)];
      } else {
        runSlots := runSlots[w := Semaphore(sem.value, sem.waiters + [Waiter(t, Pending)])];
      }
    }

    /** `task.cancel()` on a task suspended in `acquire`. */
    method Cancel(w: WorkflowId, t: Task)
      requires Keyed() && Enabled(View(w), Event.Cancel(t))
      modifies this`runSlots
      ensures Keyed() && Moves(w, AfterCancel(old(View(w)), IndexOf(old(View(w)).queue, t)))
      ensures |View(w).queue| == |old(View(w)).queue| && View(w).running == old(View(w)).running
      ensures var i := IndexOf(old(View(w)).queue, t);
        View(w).queue[i] == Waiter(t, if old(View(w)).queue[i].ticket == Pending then Cancelled else Doomed)
    {
      var sem := runSlots[w];
      var i := IndexOf(sem.waiters, t);
      var future := sem.waiters[i];
      runSlots := runSlots[w := sem.(waiters :=
        sem.waiters[i := future.(ticket := if future.ticket == Pending then Cancelled else Doomed)])];
    }

    /** `_wake_up_next`: scan the futures for one that is not done. */
    method WakeUpNext(w: WorkflowId) returns (woke: bool)
      requires w in runSlots && runSlots[w].value > 0
      modifies this`runSlots
      ensures Moves(w, WakeNext(old(View(w)))) && runSlots.Keys == old(runSlots.Keys)
      ensures woke <==> FirstPending(old(View(w)).queue) < |old(View(w)).queue|
    {
      var sem := runSlots[w];
      for i := 0 to |sem.waiters|
        invariant forall j | 0 <= j < i :: sem.waiters[j].ticket != Pending
      {
        if sem.waiters[i].ticket == Pending {
          assert FirstPending(sem.waiters) == i;
          var q := sem.waiters[i := sem.waiters[i].(ticket := Granted)];
          runSlots := runSlots[w := Semaphore(sem.value - 1, q)];
          return true;
        }
      }
      assert FirstPending(sem.waiters) == |sem.waiters|;
      return false;
    }

    /** The loop that ends `acquire`. */
    method WakeUpAll(w: WorkflowId)
      requires w in runSlots
      modifies this`runSlots
      ensures Moves(w, WakeAll(old(View(w)))) && runSlots.Keys == old(runSlots.Keys)
    {
      while runSlots[w].value > 0
        invariant runSlots.Keys == old(runSlots.Keys) && WakeAll(View(w)) == WakeAll(old(View(w)))
        invariant forall v | v != w :: View(v) == old(View(v))
        decreases runSlots[w].value
      {
        var woke := WakeUpNext(w);
        if !woke { break; }
      }
    }

    /** A task suspended in `acquire` runs on: its future is removed, a permit it cannot use
        is returned, others are woken, and it enters the slot or unwinds. */
    method Resume(w: WorkflowId, t: Task)
      requires Keyed() && Enabled(View(w), Event.Resume(t))
      modifies this
      ensures Keyed() && Moves(w, AfterResume(old(View(w)), IndexOf(old(View(w)).queue, t)))
      ensures View(w).running == old(View(w)).running +
        if old(View(w)).queue[IndexOf(old(View(w)).queue, t)].ticket == Granted then {t} else {}
      ensures View(w).permits == 0 || forall v <- View(w).queue :: v.ticket != Pending
    {
      ghost var was := View(w);
      var sem := runSlots[w];
      var i := IndexOf(sem.waiters, t);
      var ticket := sem.waiters[i].ticket;
      runSlots := runSlots[w := Semaphore(sem.value + (if ticket == Doomed then 1 else 0), Without(sem.waiters, i))];
      assert View(w) == Gone(old(View(w)), i);
      WakeCommutes(View(w), View(w));
      assert forall v | v != w :: View(v) == old(View(v));
      ResumedIsWoken(was, i);
      WakeUpAll(w);
      StopWaiting(w);
      if ticket == Granted { EnterSlot(w, t); }
    }

    method EnterSlot(w: WorkflowId, t: Task)
      requires Keyed() && w in runSlots
      modifies this`activeRuns, this`inside
      ensures Keyed() && Moves(w, Entered(old(View(w)), t))
    {
      activeRuns := activeRuns[w := Get(activeRuns, w, 0) + 1];
      inside := inside[w := Get(inside, w, {}) + {t}];
    }

    /** The `finally` around the `yield`, reached on return, exception and cancellation. */
    method Leave(w: WorkflowId, t: Task)
      requires Keyed() && Enabled(View(w), Event.Leave(t))
      modifies this
      ensures Keyed() && Moves(w, AfterLeave(old(View(w)), t)) && View(w).running == old(View(w)).running - {t}
    {
      activeRuns := activeRuns[w := activeRuns[w] - 1];
      inside := inside[w := inside[w] - {t}];
      Release(w);
    }

    /** `release`: return a permit and wake the next waiter. */
    method Release(w: WorkflowId)
      requires w in runSlots
      modifies this`runSlots
      ensures Moves(w, WakeNext(old(View(w)).(permits := old(View(w)).permits + 1)))
      ensures runSlots.Keys == old(runSlots.Keys)
    {
      runSlots := runSlots[w := runSlots[w].(value := runSlots[w].value + 1)];
      var _ := WakeUpNext(w);
    }
  }
}
