/** A closable task queue with blocking workers: the protocol of BlockingQueue with its
    worker loop, and of ThreadPool. Each critical section under the mutex is one step,
    and so is each notification; a blocked worker may also wake up spuriously. */
module WorkQueues {
  import opened Sums

  datatype Worker<C> =
    | Entering           // about to lock the mutex and test the wait condition
    | Blocked            // waiting on the condition variable
    | Running(task: C)
    | Exited

  /** A thread that pushes or closes, between its critical section and its
      notification. */
  datatype Caller = Out | NotifyingOne | NotifyingAll

  /** The queue, its closed flag and the threads, with the history of tasks accepted,
      taken and finished. */
  datatype State<C> = State(
    q: seq<C>, closed: bool, workers: seq<Worker<C>>, callers: seq<Caller>,
    accepted: seq<C>, started: seq<C>, finished: seq<C>)

  datatype Action<C> =
    | Push(c: nat, task: C)         // refused with an exception once closed
    | Close(c: nat)
    | Notify(c: nat, w: nat)        // w: which blocked worker a notify_one wakes
    | Pop(w: nat)
    | Finish(w: nat)
    | Wake(w: nat)

  function Init<C>(workers: nat, callers: nat): State<C> {
    State([], false, seq(workers, _ => Entering), seq(callers, _ => Out), [], [], [])
  }

  function Next<C>(s: State<C>, a: Action<C>): State<C> {
    match a
    case Push(c, task) =>
      if c < |s.callers| && s.callers[c] == Out && !s.closed
      then s.(q := s.q + [task], accepted := s.accepted + [task], callers := s.callers[c := NotifyingOne])
      else s
    case Close(c) =>
      if c < |s.callers| && s.callers[c] == Out then s.(closed := true, callers := s.callers[c := NotifyingAll]) else s
    case Notify(c, w) =>
      if c >= |s.callers| || s.callers[c] == Out then s
      else if s.callers[c] == NotifyingAll
      then s.(workers := Awake(s.workers), callers := s.callers[c := Out])
      else if w < |s.workers| && s.workers[w].Blocked?
      then s.(workers := s.workers[w := Entering], callers := s.callers[c := Out])
      else if NoneBlocked(s.workers) then s.(callers := s.callers[c := Out])
      else s
    case Pop(w) =>
      if w >= |s.workers| || !s.workers[w].Entering? then s
      else if s.q != []
      then s.(q := s.q[1..], started := s.started + [s.q[0]], workers := s.workers[w := Running(s.q[0])])
      else s.(workers := s.workers[w := if s.closed then Exited else Blocked])
    case Finish(w) =>
      if w < |s.workers| && s.workers[w].Running?
      then s.(finished := s.finished + [s.workers[w].task], workers := s.workers[w := Entering]) else s
    case Wake(w) =>
      if w < |s.workers| && s.workers[w].Blocked? then s.(workers := s.workers[w := Entering]) else s
  }

  predicate NoneBlocked<C>(workers: seq<Worker<C>>) {
    forall w | 0 <= w < |workers| :: !workers[w].Blocked?
  }

  function Awake<C>(workers: seq<Worker<C>>): (r: seq<Worker<C>>)
    ensures |r| == |workers|
    ensures forall w | 0 <= w < |r| :: r[w] == if workers[w].Blocked? then Entering else workers[w]
  {
    seq(|workers|, w requires 0 <= w < |workers| => if workers[w].Blocked? then Entering else workers[w])
  }

  function Run<C>(s: State<C>, actions: seq<Action<C>>): State<C>
    decreases |actions|
  {
    if actions == [] then s else Run(Next(s, actions[0]), actions[1..])
  }

  // ---- the invariant ----

  function IsEntering<C>(w: Worker<C>): nat {
    if w.Entering? then 1 else 0
  }

  function WillNotify(c: Caller): nat {
    if c == NotifyingOne then 1 else 0
  }

  ghost function Runs<C>(task: C): Worker<C> -> nat {
    w => if w == Running(task) then 1 else 0
  }

  /** While a worker is blocked, every queued task has a notification coming or an
      awake worker coming for it. */
  ghost predicate NoLostWakeup<C>(s: State<C>) {
    && (NoneBlocked(s.workers) || |s.q| <= Sum(WillNotify, s.callers) + Sum(IsEntering<C>, s.workers))
    && (NoneBlocked(s.workers) || !s.closed || NotifyingAll in s.callers)
  }

  /** Tasks are taken in the order they were accepted; a lone worker finishes them in
      that order too. */
  ghost predicate InOrder<C>(s: State<C>) {
    && s.started + s.q == s.accepted
    && (|s.workers| == 1 ==> s.finished + Current(s.workers[0]) == s.started)
  }

  /** Every task taken is finished or being run by one worker. */
  ghost predicate Balanced<C(!new)>(s: State<C>) {
    forall task :: Accounted(s, task)
  }

  ghost predicate Accounted<C(!new)>(s: State<C>, task: C) {
    multiset(s.finished)[task] + Sum(Runs(task), s.workers) == multiset(s.started)[task]
  }

  ghost predicate LeaveWhenDone<C(!new)>(s: State<C>) {
    forall w | 0 <= w < |s.workers| && s.workers[w].Exited? :: s.closed && s.q == []
  }

  ghost predicate Inv<C(!new)>(s: State<C>) {
    InOrder(s) && Balanced(s) && NoLostWakeup(s) && LeaveWhenDone(s)
  }

  function Current<C>(w: Worker<C>): seq<C> {
    if w.Running? then [w.task] else []
  }

  lemma InOrderStep<C(!new)>(s: State<C>, a: Action<C>)
    requires InOrder(s)
    ensures InOrder(Next(s, a))
  {
    if a.Push? {
      assert s.started + (s.q + [a.task]) == s.started + s.q + [a.task];
    } else if a.Pop? && s.q != [] {
      assert s.started + s.q == (s.started + [s.q[0]]) + s.q[1..];
    }
  }

  lemma {:induction false} RunsAwake<C(!new)>(task: C, workers: seq<Worker<C>>)
    ensures Sum(Runs(task), Awake(workers)) == Sum(Runs(task), workers)
  {
    if workers != [] {
      assert Awake(workers)[1..] == Awake(workers[1..]);
      RunsAwake(task, workers[1..]);
    }
  }

  lemma WorkerTurns<C(!new)>(s: State<C>, a: Action<C>, task: C)
    requires Accounted(s, task) && (a.Pop? || a.Finish? || a.Wake?)
    ensures Accounted(Next(s, a), task)
  {
    if a.w < |s.workers| {
      SumUpdate(Runs(task), s.workers, a.w, Next(s, a).workers[a.w]);
    }
  }

  lemma CallerWakes<C(!new)>(s: State<C>, a: Action<C>, task: C)
    requires Accounted(s, task) && (a.Push? || a.Close? || a.Notify?)
    ensures Accounted(Next(s, a), task)
  {
    RunsAwake(task, s.workers);
    if a.Notify? && a.w < |s.workers| {
      SumUpdate(Runs(task), s.workers, a.w, Entering);
    }
  }

  lemma BalancedStep<C(!new)>(s: State<C>, a: Action<C>)
    requires Balanced(s)
    ensures Balanced(Next(s, a))
  {
    forall task ensures Accounted(Next(s, a), task) {
      assert Accounted(s, task);
      hide Next, Accounted;
      if a.Pop? || a.Finish? || a.Wake? {
        WorkerTurns(s, a, task);
      } else {
        CallerWakes(s, a, task);
      }
    }
  }

  lemma CallersNotify<C(!new)>(s: State<C>, a: Action<C>)
    requires NoLostWakeup(s) && (a.Push? || a.Close? || a.Notify?)
    ensures NoLostWakeup(Next(s, a))
  {
    var s' := Next(s, a);
    if a.c < |s.callers| && s' != s {
      SumUpdate(WillNotify, s.callers, a.c, s'.callers[a.c]);
      assert s'.callers[a.c] == NotifyingAll ==> NotifyingAll in s'.callers;
      forall d | 0 <= d < |s.callers| && d != a.c && s.callers[d] == NotifyingAll ensures NotifyingAll in s'.callers {
        assert s'.callers[d] == NotifyingAll;
      }
      if a.Notify? && a.w < |s.workers| {
        SumUpdate(IsEntering<C>, s.workers, a.w, Entering);
        OneUnblocked(s.workers, a.w, Entering);
      }
    }
  }

  lemma OneUnblocked<C(!new)>(workers: seq<Worker<C>>, w: nat, x: Worker<C>)
    requires w < |workers| && !x.Blocked?
    ensures NoneBlocked(workers) ==> NoneBlocked(workers[w := x])
  {
  }

  lemma WorkersNotified<C(!new)>(s: State<C>, a: Action<C>)
    requires NoLostWakeup(s) && (a.Pop? || a.Finish? || a.Wake?)
    ensures NoLostWakeup(Next(s, a))
  {
    var s' := Next(s, a);
    if a.w < |s.workers| && s' != s {
      SumUpdate(IsEntering<C>, s.workers, a.w, s'.workers[a.w]);
      if !s'.workers[a.w].Blocked? && NoneBlocked(s.workers) {
        OneUnblocked(s.workers, a.w, s'.workers[a.w]);
      }
    }
  }

  lemma LeaveStep<C(!new)>(s: State<C>, a: Action<C>)
    requires LeaveWhenDone(s)
    ensures LeaveWhenDone(Next(s, a))
  {
    var s' := Next(s, a);
    forall w | 0 <= w < |s'.workers| && s'.workers[w].Exited? ensures s'.closed && s'.q == [] {
      assert s.workers[w].Exited? || a == Pop(w);
    }
  }

  lemma InvStep<C(!new)>(s: State<C>, a: Action<C>)
    requires Inv(s)
    ensures Inv(Next(s, a))
  {
    hide Next, InOrder, Balanced, NoLostWakeup, LeaveWhenDone;
    InOrderStep(s, a);
    BalancedStep(s, a);
    LeaveStep(s, a);
    if a.Push? || a.Close? || a.Notify? {
      CallersNotify(s, a);
    } else {
      WorkersNotified(s, a);
    }
  }

  lemma InitInv<C(!new)>(workers: nat, callers: nat)
    ensures Inv(Init<C>(workers, callers))
  {
    var s := Init<C>(workers, callers);
    forall task ensures Accounted(s, task) {
      SumZero(Runs(task), s.workers);
    }
  }

  lemma {:induction false} InvRun<C(!new)>(s: State<C>, actions: seq<Action<C>>)
    requires Inv(s)
    ensures Inv(Run(s, actions))
    decreases |actions|
  {
    if actions != [] {
      InvStep(s, actions[0]);
      InvRun(Next(s, actions[0]), actions[1..]);
    }
  }

  lemma {:induction false} WorkersKept<C(!new)>(s: State<C>, actions: seq<Action<C>>)
    ensures |Run(s, actions).workers| == |s.workers| && |Run(s, actions).callers| == |s.callers|
    decreases |actions|
  {
    if actions != [] {
      WorkersKept(Next(s, actions[0]), actions[1..]);
    }
  }

  // ---- what holds over every run ----

  /** No lost wakeup: a worker blocked on a non-empty or closed queue has a notification
      on its way, or another worker awake and heading for the queue; and the queued
      tasks never outnumber those. */
  lemma BlockedWorkerHasWakeup<C(!new)>(workers: nat, callers: nat, actions: seq<Action<C>>, w: nat)
    ensures var s := Run(Init<C>(workers, callers), actions);
      w < |s.workers| && s.workers[w].Blocked? ==>
        && |s.q| <= Sum(WillNotify, s.callers) + Sum(IsEntering<C>, s.workers)
        && (s.closed ==> NotifyingAll in s.callers)
        && (s.q != [] && workers == 1 ==> NotifyingOne in s.callers)
  {
    var s := Run(Init<C>(workers, callers), actions);
    InitInv<C>(workers, callers);
    InvRun(Init<C>(workers, callers), actions);
    WorkersKept(Init<C>(workers, callers), actions);
    if w < |s.workers| && s.workers[w].Blocked? {
      assert !NoneBlocked(s.workers);
      if s.q != [] && workers == 1 {
        SumZero(IsEntering<C>, s.workers);
        var c := SumPositive(WillNotify, s.callers);
        assert s.callers[c] == NotifyingOne;
      }
    }
  }

  /** The tasks pushed during a run by callers out of any call while the queue is open. */
  function Submitted<C>(s: State<C>, actions: seq<Action<C>>): seq<C>
    decreases |actions|
  {
    if actions == [] then []
    else
      (if actions[0].Push? && IsOut(s.callers, actions[0].c) && !s.closed then [actions[0].task] else [])
      + Submitted(Next(s, actions[0]), actions[1..])
  }

  predicate IsOut(callers: seq<Caller>, c: nat) {
    c < |callers| && callers[c] == Out
  }

  /** Some caller out of any call closes the queue during a run. */
  predicate Closes<C>(s: State<C>, actions: seq<Action<C>>)
    decreases |actions|
  {
    actions != [] &&
      ((actions[0].Close? && IsOut(s.callers, actions[0].c)) || Closes(Next(s, actions[0]), actions[1..]))
  }

  /** An open queue refuses nothing: what is accepted is what is submitted, in order, and
      the queue is closed exactly if a caller has closed it. */
  lemma {:induction false} AcceptsSubmissions<C(!new)>(s: State<C>, actions: seq<Action<C>>)
    ensures Run(s, actions).accepted == s.accepted + Submitted(s, actions)
    ensures Run(s, actions).closed <==> s.closed || Closes(s, actions)
    decreases |actions|
  {
    if actions != [] {
      var s' := Next(s, actions[0]);
      AcceptsSubmissions(s', actions[1..]);
      var first := if actions[0].Push? && IsOut(s.callers, actions[0].c) && !s.closed then [actions[0].task] else [];
      assert s'.accepted == s.accepted + first;
      assert s.accepted + first + Submitted(s', actions[1..]) == s.accepted + (first + Submitted(s', actions[1..]));
    }
  }

  /** A caller between its critical section and its notification can always return, and
      one that has pushed wakes a worker if any is blocked. */
  lemma CallerReturns<C(!new)>(s: State<C>, c: nat) returns (w: nat)
    requires c < |s.callers| && s.callers[c] != Out
    ensures var s' := Next(s, Notify(c, w));
      && s'.callers == s.callers[c := Out] && s'.q == s.q && s'.closed == s.closed
      && (NoneBlocked(s.workers) ==> s'.workers == s.workers)
      && (s.callers[c] == NotifyingOne && !NoneBlocked(s.workers) ==>
            w < |s.workers| && s.workers[w].Blocked? && s'.workers == s.workers[w := Entering])
      && (s.callers[c] == NotifyingAll ==> NoneBlocked(s'.workers))
  {
    w := 0;
    if !NoneBlocked(s.workers) {
      w :| 0 <= w < |s.workers| && s.workers[w].Blocked?;
    } else if s.callers[c] == NotifyingAll {
      assert Awake(s.workers) == s.workers;
    }
  }

  /** A task submitted while everybody waits is run: the notification wakes a worker,
      which takes the task, finishes it and waits again. */
  lemma LoneTask<C(!new)>(s: State<C>, c: nat, w: nat, task: C)
    requires c < |s.callers| && s.callers[c] == Out && w < |s.workers| && s.workers[w].Blocked?
    requires s.q == [] && !s.closed
    ensures Run(s, [Push(c, task), Notify(c, w), Pop(w), Finish(w), Pop(w)])
         == s.(accepted := s.accepted + [task], started := s.started + [task], finished := s.finished + [task])
  {
    var s1 := s.(q := [task], accepted := s.accepted + [task], callers := s.callers[c := NotifyingOne]);
    var s2 := s1.(workers := s.workers[w := Entering], callers := s.callers);
    var s3 := s2.(q := [], started := s.started + [task], workers := s.workers[w := Running(task)]);
    var s4 := s3.(finished := s.finished + [task], workers := s.workers[w := Entering]);
    assert Next(s, Push(c, task)) == s1;
    assert s1.callers[c := Out] == s.callers && Next(s1, Notify(c, w)) == s2;
    assert s2.workers[w := Running(task)] == s3.workers && Next(s2, Pop(w)) == s3;
    assert s3.workers[w := Entering] == s4.workers && Next(s3, Finish(w)) == s4;
    assert s4.workers[w := Blocked] == s.workers && Next(s4, Pop(w)) == s4.(workers := s.workers);
    hide Next;
    var actions := [Push(c, task), Notify(c, w), Pop(w), Finish(w), Pop(w)];
    assert actions[1..][1..] == actions[2..] && actions[2..][1..] == actions[3..] && actions[3..][1..] == actions[4..];
    assert Run(s, actions) == Run(s1, actions[1..]) == Run(s2, actions[2..]) == Run(s3, actions[3..]);
    assert Run(s3, actions[3..]) == Run(s4, actions[4..]) && actions[4..][1..] == [];
  }

  ghost predicate Joined<C(!new)>(s: State<C>) {
    forall w | 0 <= w < |s.workers| :: s.workers[w].Exited?
  }

  /** When the join completes, the tasks submitted while the queue was open have all been
      taken, in the order they were submitted, and each has been run exactly once -
      provided there is a worker. A pool of no workers joins at once and runs nothing. */
  lemma JoinDrains<C(!new)>(workers: nat, callers: nat, actions: seq<Action<C>>)
    requires Joined(Run(Init<C>(workers, callers), actions))
    ensures var s := Run(Init<C>(workers, callers), actions);
      var tasks := Submitted(Init<C>(workers, callers), actions);
      && (s.started == tasks <==> workers > 0 || tasks == [])
      && (multiset(s.finished) == multiset(tasks) <==> workers > 0 || tasks == [])
      && (workers == 1 ==> s.finished == tasks)
  {
    var s := Run(Init<C>(workers, callers), actions);
    InitInv<C>(workers, callers);
    InvRun(Init<C>(workers, callers), actions);
    WorkersKept(Init<C>(workers, callers), actions);
    AcceptsSubmissions(Init<C>(workers, callers), actions);
    hide Run, Submitted;
    AcceptedDrained(s);
    if workers == 0 {
      NothingStarted(Init<C>(workers, callers), actions);
    }
  }

  lemma AcceptedDrained<C(!new)>(s: State<C>)
    requires Inv(s) && Joined(s)
    ensures s.workers != [] ==> s.started == s.accepted && multiset(s.finished) == multiset(s.accepted)
    ensures |s.workers| == 1 ==> s.finished == s.accepted
    ensures multiset(s.accepted) == multiset{} <==> s.accepted == []
  {
    SameTasks(s);
    if s.workers != [] {
      assert s.workers[0] == Exited;
    }
    if s.accepted != [] {
      assert s.accepted[0] in multiset(s.accepted);
    }
  }

  /** With no task in progress, the tasks finished are those taken. */
  lemma SameTasks<C(!new)>(s: State<C>)
    requires Balanced(s) && Joined(s)
    ensures multiset(s.finished) == multiset(s.started)
  {
    forall task ensures multiset(s.finished)[task] == multiset(s.started)[task] {
      assert Accounted(s, task);
      SumZero(Runs(task), s.workers);
    }
  }

  lemma {:induction false} NothingStarted<C(!new)>(s: State<C>, actions: seq<Action<C>>)
    requires s.workers == [] && s.started == [] && s.finished == []
    ensures Run(s, actions).started == [] && Run(s, actions).finished == []
    decreases |actions|
  {
    if actions != [] {
      NothingStarted(Next(s, actions[0]), actions[1..]);
    }
  }

  /** A closed queue accepts nothing more. */
  lemma {:induction false} ClosedAcceptsNothing<C(!new)>(s: State<C>, actions: seq<Action<C>>)
    requires s.closed
    ensures Run(s, actions).closed && Run(s, actions).accepted == s.accepted
    decreases |actions|
  {
    if actions != [] {
      ClosedAcceptsNothing(Next(s, actions[0]), actions[1..]);
    }
  }

  // ---- the drain terminates ----

  function Effort<C>(w: Worker<C>): nat {
    match w
    case Exited => 0
    case Running(_) => 2
    case _ => 1
  }

  /** Worker steps still to be made before everybody has left a closed queue. */
  function Work<C>(s: State<C>): nat {
    2 * |s.q| + Sum(Effort<C>, s.workers)
  }

  /** Once the queue is closed and the closing notification has gone out, no worker is
      blocked; every worker that has not left can move, each of its moves brings the
      end of the drain nearer, and the drain is over when nothing is left to do. */
  lemma DrainAdvances<C(!new)>(s: State<C>, w: nat)
    requires Inv(s) && s.closed && NotifyingAll !in s.callers && w < |s.workers| && !s.workers[w].Exited?
    ensures NoneBlocked(s.workers)
    ensures var s' := Next(s, if s.workers[w].Running? then Finish(w) else Pop(w));
      s'.closed && Work(s') < Work(s) && s'.callers == s.callers
  {
    var s' := Next(s, if s.workers[w].Running? then Finish(w) else Pop(w));
    SumUpdate(Effort<C>, s.workers, w, s'.workers[w]);
  }

  lemma DrainedWhenIdle<C(!new)>(s: State<C>)
    requires Inv(s) && Work(s) == 0
    ensures Joined(s) && s.q == []
  {
    forall w | 0 <= w < |s.workers| ensures s.workers[w].Exited? {
      SumEntry(Effort<C>, s.workers, w);
    }
  }

  /** A worker that takes a task, finishes one or leaves. */
  function Moved<C>(s: State<C>, a: Action<C>): nat {
    if a.Pop? && a.w < |s.workers| && s.workers[a.w].Entering? then 1
    else if a.Finish? && a.w < |s.workers| && s.workers[a.w].Running? then 1
    else 0
  }

  /** How often workers move during a run. */
  function Moves<C>(s: State<C>, actions: seq<Action<C>>): nat
    decreases |actions|
  {
    if actions == [] then 0 else Moved(s, actions[0]) + Moves(Next(s, actions[0]), actions[1..])
  }

  lemma {:induction false} EffortAwake<C(!new)>(workers: seq<Worker<C>>)
    ensures Sum(Effort<C>, Awake(workers)) == Sum(Effort<C>, workers)
  {
    if workers != [] {
      assert Awake(workers)[1..] == Awake(workers[1..]);
      EffortAwake(workers[1..]);
    }
  }

  /** In a closed queue the work goes down by one with every move of a worker, and nothing
      else changes it. */
  lemma WorkStep<C(!new)>(s: State<C>, a: Action<C>)
    requires s.closed
    ensures Work(Next(s, a)) + Moved(s, a) == Work(s) && Next(s, a).closed
  {
    EffortAwake(s.workers);
    if !a.Push? && !a.Close? && a.w < |s.workers| {
      if a.Notify? {
        SumUpdate(Effort<C>, s.workers, a.w, Entering);
      } else {
        SumUpdate(Effort<C>, s.workers, a.w, Next(s, a).workers[a.w]);
      }
    }
  }

  lemma {:induction false} WorkRun<C(!new)>(s: State<C>, actions: seq<Action<C>>)
    requires s.closed
    ensures Work(Run(s, actions)) + Moves(s, actions) == Work(s)
    decreases |actions|
  {
    hide Next, Work;
    if actions != [] {
      WorkStep(s, actions[0]);
      WorkRun(Next(s, actions[0]), actions[1..]);
    }
  }

  /** How a drain ends: whatever else happens, once the queue is closed the workers can
      move only as often as there is work, and the join completes exactly when they have
      moved that often. */
  lemma DrainEnds<C(!new)>(s: State<C>, actions: seq<Action<C>>)
    requires Inv(s) && s.closed
    ensures Moves(s, actions) <= Work(s)
    ensures s.workers != [] ==> (Joined(Run(s, actions)) <==> Moves(s, actions) == Work(s))
  {
    hide Next, InOrder, Balanced, NoLostWakeup;
    WorkRun(s, actions);
    InvRun(s, actions);
    WorkersKept(s, actions);
    var s' := Run(s, actions);
    if Work(s') == 0 {
      DrainedWhenIdle(s');
    }
    if Joined(s') && s.workers != [] {
      assert s'.workers[0].Exited?;
      SumZero(Effort<C>, s'.workers);
    }
  }
}
