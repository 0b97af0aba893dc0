/** The asynchronous server pool: one command queue and one worker per environment, the
    worker applying each command to its environment's server. A command is a function of
    the server's state whose outcome may be an exception; either way the worker stores
    the outcome in the command's future and goes on with the next one. */
module ServerPools {
  import opened Basics
  import WQ = WorkQueues

  type Exec<!C, !S, +R> = (C, S) -> (S, R)

  /** serverOf[i] is the server object of environment i, outcomes[i] what its futures
      have received, in order. */
  datatype State<C, S, R> = State(
    queues: seq<WQ.State<C>>, serverOf: seq<nat>, servers: seq<S>, outcomes: seq<seq<R>>)

  /** A step of the queue, the worker or a caller of environment env. An environment out
      of range is refused by check_env. */
  datatype Action<C> = On(env: nat, step: WQ.Action<C>)

  function Init<C, S, R>(serverOf: seq<nat>, servers: seq<S>, callers: nat): State<C, S, R> {
    State(seq(|serverOf|, _ => WQ.Init(1, callers)), serverOf, servers, seq(|serverOf|, _ => []))
  }

  predicate WellFormed<C, S, R>(s: State<C, S, R>) {
    && |s.queues| == |s.serverOf| == |s.outcomes|
    && (forall i | 0 <= i < |s.serverOf| :: s.serverOf[i] < |s.servers|)
    && (forall i | 0 <= i < |s.queues| :: |s.queues[i].workers| == 1)
  }

  function Next<C, S, R>(exec: Exec<C, S, R>, s: State<C, S, R>, a: Action<C>): State<C, S, R>
    requires WellFormed(s)
  {
    if a.env >= |s.queues| then s
    else
      var i, q := a.env, s.queues[a.env];
      var queues' := s.queues[i := WQ.Next(q, a.step)];
      if a.step == WQ.Finish(0) && q.workers[0].Running? then
        var (server, outcome) := exec(q.workers[0].task, s.servers[s.serverOf[i]]);
        s.(queues := queues', servers := s.servers[s.serverOf[i] := server],
           outcomes := s.outcomes[i := s.outcomes[i] + [outcome]])
      else s.(queues := queues')
  }

  function Run<C, S, R>(exec: Exec<C, S, R>, s: State<C, S, R>, actions: seq<Action<C>>): (r: State<C, S, R>)
    requires WellFormed(s)
    ensures WellFormed(r) && |r.queues| == |s.queues|
    decreases |actions|
  {
    if actions == [] then s
    else
      NextWellFormed(exec, s, actions[0]);
      Run(exec, Next(exec, s, actions[0]), actions[1..])
  }

  lemma NextWellFormed<C, S, R>(exec: Exec<C, S, R>, s: State<C, S, R>, a: Action<C>)
    requires WellFormed(s)
    ensures WellFormed(Next(exec, s, a)) && |Next(exec, s, a).queues| == |s.queues|
  {
  }

  /** The commands applied to a server one after the other, with their outcomes. */
  function Serve<C, S, R>(exec: Exec<C, S, R>, commands: seq<C>, server: S): (r: (S, seq<R>))
    ensures |r.1| == |commands|
  {
    if commands == [] then (server, [])
    else
      var last := |commands| - 1;
      var before := Serve(exec, commands[..last], server);
      var after := exec(commands[last], before.0);
      (after.0, before.1 + [after.1])
  }

  ghost predicate Inv<C(!new), S, R>(exec: Exec<C, S, R>, s: State<C, S, R>, initial: seq<S>) {
    && WellFormed(s) && |s.servers| == |initial|
    && (forall i | 0 <= i < |s.queues| :: WQ.Inv(s.queues[i]))
    && (forall i | 0 <= i < |s.queues| :: Served(exec, s, initial, i))
  }

  /** Environment i's server and futures are what its finished commands make of them. */
  ghost predicate Served<C, S, R>(exec: Exec<C, S, R>, s: State<C, S, R>, initial: seq<S>, i: nat)
    requires WellFormed(s) && |s.servers| == |initial| && i < |s.queues|
  {
    (s.servers[s.serverOf[i]], s.outcomes[i]) == Serve(exec, s.queues[i].finished, initial[s.serverOf[i]])
  }

  lemma InvStep<C(!new), S, R>(exec: Exec<C, S, R>, s: State<C, S, R>, initial: seq<S>, a: Action<C>)
    requires Inv(exec, s, initial) && Distinct(s.serverOf)
    ensures Inv(exec, Next(exec, s, a), initial)
  {
    hide WQ.Inv;
    var s' := Next(exec, s, a);
    NextWellFormed(exec, s, a);
    if a.env < |s.queues| {
      WQ.InvStep(s.queues[a.env], a.step);
      forall i | 0 <= i < |s.queues| ensures Served(exec, s', initial, i) {
        assert Served(exec, s, initial, i);
        if i == a.env && a.step == WQ.Finish(0) && s.queues[i].workers[0].Running? {
          var done := s.queues[i].finished;
          assert s'.queues[i].finished == done + [s.queues[i].workers[0].task];
          assert s'.queues[i].finished[..|done|] == done;
        }
      }
    }
  }

  lemma {:induction false} InvRun<C(!new), S, R>(exec: Exec<C, S, R>, s: State<C, S, R>, initial: seq<S>,
                                                 actions: seq<Action<C>>)
    requires Inv(exec, s, initial) && Distinct(s.serverOf)
    ensures Inv(exec, Run(exec, s, actions), initial)
    ensures Run(exec, s, actions).serverOf == s.serverOf
    decreases |actions|
  {
    hide WQ.Inv;
    if actions != [] {
      InvStep(exec, s, initial, actions[0]);
      InvRun(exec, Next(exec, s, actions[0]), initial, actions[1..]);
    }
  }

  lemma InitInv<C(!new), S, R>(exec: Exec<C, S, R>, serverOf: seq<nat>, servers: seq<S>, callers: nat)
    requires forall i | 0 <= i < |serverOf| :: serverOf[i] < |servers|
    ensures Inv(exec, Init<C, S, R>(serverOf, servers, callers), servers)
  {
    WQ.InitInv<C>(1, callers);
  }

  // ---- what holds over every run ----

  /** What happens to environment i's queue during a run. */
  function StepsOf<C>(actions: seq<Action<C>>, i: nat): seq<WQ.Action<C>> {
    if actions == [] then []
    else (if actions[0].env == i then [actions[0].step] else []) + StepsOf(actions[1..], i)
  }

  /** The commands submitted to environment i during a run from the start. */
  function Submissions<C>(callers: nat, actions: seq<Action<C>>, i: nat): seq<C> {
    WQ.Submitted(WQ.Init<C>(1, callers), StepsOf(actions, i))
  }

  /** Each environment's queue runs by itself. */
  lemma {:induction false} QueueRuns<C(!new), S, R>(exec: Exec<C, S, R>, s: State<C, S, R>,
                                                 actions: seq<Action<C>>, i: nat)
    requires WellFormed(s) && i < |s.queues|
    ensures Run(exec, s, actions).queues[i] == WQ.Run(s.queues[i], StepsOf(actions, i))
    decreases |actions|
  {
    if actions != [] {
      var a, rest := actions[0], StepsOf(actions[1..], i);
      NextWellFormed(exec, s, a);
      QueueRuns(exec, Next(exec, s, a), actions[1..], i);
      var first := if a.env == i then [a.step] else [];
      assert StepsOf(actions, i) == first + rest && (first + rest)[|first|..] == rest;
      assert Next(exec, s, a).queues[i] == if a.env == i then WQ.Next(s.queues[i], a.step) else s.queues[i];
      assert a.env != i ==> first + rest == rest;
    }
  }

  lemma AcceptedIsSubmitted<C(!new), S, R>(exec: Exec<C, S, R>, serverOf: seq<nat>, servers: seq<S>,
                                         callers: nat, actions: seq<Action<C>>, i: nat)
    requires forall k | 0 <= k < |serverOf| :: serverOf[k] < |servers|
    requires i < |serverOf|
    ensures var s := Run(exec, Init<C, S, R>(serverOf, servers, callers), actions);
      s.queues[i].accepted == Submissions(callers, actions, i)
  {
    QueueRuns(exec, Init<C, S, R>(serverOf, servers, callers), actions, i);
    WQ.AcceptsSubmissions(WQ.Init<C>(1, callers), StepsOf(actions, i));
  }

  /** Whatever the interleaving, environment i's server state and its futures are the
      fold of a prefix of the commands submitted to it, in submission order - of all of
      them once its queue is empty and its worker idle. */
  lemma ServerFollowsSubmissions<C(!new), S, R>(exec: Exec<C, S, R>, serverOf: seq<nat>, servers: seq<S>,
                                              callers: nat, actions: seq<Action<C>>, i: nat)
    requires forall k | 0 <= k < |serverOf| :: serverOf[k] < |servers|
    requires Distinct(serverOf) && i < |serverOf|
    ensures var s := Run(exec, Init<C, S, R>(serverOf, servers, callers), actions);
      var q := s.queues[i];
      && s.serverOf == serverOf && |s.servers| == |servers|
      && q.finished <= Submissions(callers, actions, i)
      && (s.servers[serverOf[i]], s.outcomes[i]) == Serve(exec, q.finished, servers[serverOf[i]])
      && (Settled(q) ==> q.finished == Submissions(callers, actions, i))
  {
    hide Submissions;
    InitInv(exec, serverOf, servers, callers);
    InvRun(exec, Init<C, S, R>(serverOf, servers, callers), servers, actions);
    AcceptedIsSubmitted(exec, serverOf, servers, callers, actions, i);
    var s := Run(exec, Init<C, S, R>(serverOf, servers, callers), actions);
    assert Served(exec, s, servers, i) && WQ.Inv(s.queues[i]) && |s.queues[i].workers| == 1;
  }

  predicate Settled<C>(q: WQ.State<C>) {
    q.q == [] && |q.workers| == 1 && !q.workers[0].Running?
  }

  /** Closing the pool loses nothing: once the workers have left, every command submitted
      before its queue was closed has been applied and every future has its outcome. */
  lemma CloseFulfills<C(!new), S, R>(exec: Exec<C, S, R>, serverOf: seq<nat>, servers: seq<S>, callers: nat,
                                     actions: seq<Action<C>>)
    requires forall k | 0 <= k < |serverOf| :: serverOf[k] < |servers|
    requires Distinct(serverOf)
    requires var s := Run(exec, Init<C, S, R>(serverOf, servers, callers), actions);
             forall i | 0 <= i < |s.queues| :: WQ.Joined(s.queues[i])
    ensures var s := Run(exec, Init<C, S, R>(serverOf, servers, callers), actions);
      && |s.servers| == |servers|
      && forall i | 0 <= i < |serverOf| ::
        && s.queues[i].closed && s.queues[i].finished == Submissions(callers, actions, i)
        && |s.outcomes[i]| == |Submissions(callers, actions, i)|
        && (s.servers[serverOf[i]], s.outcomes[i])
           == Serve(exec, Submissions(callers, actions, i), servers[serverOf[i]])
  {
    hide Submissions;
    var s := Run(exec, Init<C, S, R>(serverOf, servers, callers), actions);
    InitInv(exec, serverOf, servers, callers);
    InvRun(exec, Init<C, S, R>(serverOf, servers, callers), servers, actions);
    assert |s.servers| == |servers| && |s.queues| == |serverOf|;
    forall i | 0 <= i < |serverOf|
      ensures s.queues[i].closed && s.queues[i].finished == Submissions(callers, actions, i)
      ensures |s.outcomes[i]| == |Submissions(callers, actions, i)|
      ensures (s.servers[serverOf[i]], s.outcomes[i])
           == Serve(exec, Submissions(callers, actions, i), servers[serverOf[i]])
    {
      ServerFollowsSubmissions(exec, serverOf, servers, callers, actions, i);
      assert WQ.Inv(s.queues[i]) && s.queues[i].workers[0].Exited?;
    }
  }

  /** Schedule independence: two runs, with any interleavings and whatever else happened
      in them, that submit the same commands to environment i in the same order and have
      settled leave its server in the same state and gave its futures the same outcomes. */
  lemma ScheduleIndependent<C(!new), S, R>(exec: Exec<C, S, R>, serverOf: seq<nat>, servers: seq<S>, i: nat,
                                           callers: nat, actions: seq<Action<C>>,
                                           callers': nat, actions': seq<Action<C>>)
    requires forall k | 0 <= k < |serverOf| :: serverOf[k] < |servers|
    requires Distinct(serverOf) && i < |serverOf|
    requires Submissions(callers, actions, i) == Submissions(callers', actions', i)
    requires var s := Run(exec, Init<C, S, R>(serverOf, servers, callers), actions);
             var s' := Run(exec, Init<C, S, R>(serverOf, servers, callers'), actions');
             Settled(s.queues[i]) && Settled(s'.queues[i])
    ensures var s := Run(exec, Init<C, S, R>(serverOf, servers, callers), actions);
            var s' := Run(exec, Init<C, S, R>(serverOf, servers, callers'), actions');
      && |s.servers| == |s'.servers| == |servers|
      && s.servers[serverOf[i]] == s'.servers[serverOf[i]] && s.outcomes[i] == s'.outcomes[i]
  {
    hide Submissions;
    ServerFollowsSubmissions(exec, serverOf, servers, callers, actions, i);
    ServerFollowsSubmissions(exec, serverOf, servers, callers', actions', i);
  }

  // ---- shared server objects ----

  /** A command that overwrites the server's state. */
  function Assign(command: int, server: int): (int, int) {
    (command, server)
  }

  /** Submit one command to environment i and let its worker run it. */
  function Deliver(i: nat, c: int): seq<Action<int>> {
    [On(i, WQ.Push(0, c)), On(i, WQ.Notify(0, 0)), On(i, WQ.Pop(0)), On(i, WQ.Finish(0))]
  }

  predicate Idle(q: WQ.State<int>) {
    q.q == [] && !q.closed && q.workers == [WQ.Entering] && q.callers == [WQ.Out]
  }

  lemma DeliverQueue(q: WQ.State<int>, c: int)
    requires Idle(q)
    ensures var q1 := WQ.Next(q, WQ.Push(0, c));
            var q2 := WQ.Next(q1, WQ.Notify(0, 0)); var q3 := WQ.Next(q2, WQ.Pop(0));
      && q2.workers == [WQ.Entering] && q3.workers == [WQ.Running(c)]
      && Idle(WQ.Next(q3, WQ.Finish(0))) && WQ.Next(q3, WQ.Finish(0)).accepted == q.accepted + [c]
  {
  }

  lemma Delivered(s: State<int, int, int>, i: nat, c: int, rest: seq<Action<int>>)
    requires WellFormed(s) && i < |s.queues| && Idle(s.queues[i])
    ensures var s' := Run(Assign, s, Deliver(i, c));
      && Run(Assign, s, Deliver(i, c) + rest) == Run(Assign, s', rest)
      && s'.serverOf == s.serverOf && s'.servers == s.servers[s.serverOf[i] := c]
      && |s'.queues| == |s.queues| && Idle(s'.queues[i]) && s'.queues[i].accepted == s.queues[i].accepted + [c]
      && forall k | 0 <= k < |s.queues| && k != i :: s'.queues[k] == s.queues[k]
  {
    DeliverQueue(s.queues[i], c);
    RunSplit(Assign, s, Deliver(i, c), rest);
    var a := Deliver(i, c);
    var s1 := Next(Assign, s, a[0]);
    var s2 := Next(Assign, s1, a[1]);
    var s3 := Next(Assign, s2, a[2]);
    assert a[1..] == [a[1]] + a[2..] && a[2..] == [a[2]] + a[3..] && a[3..] == [a[3]] + [];
    assert Run(Assign, s, a) == Run(Assign, s1, a[1..]) == Run(Assign, s2, a[2..]) == Run(Assign, s3, a[3..]);
    assert Run(Assign, s3, a[3..]) == Next(Assign, s3, a[3]);
  }

  lemma {:induction false} RunSplit<C, S, R>(exec: Exec<C, S, R>, s: State<C, S, R>, a: seq<Action<C>>,
                                             rest: seq<Action<C>>)
    requires WellFormed(s)
    ensures Run(exec, s, a + rest) == Run(exec, Run(exec, s, a), rest)
    decreases |a|
  {
    if a == [] {
      assert a + rest == rest;
    } else {
      NextWellFormed(exec, s, a[0]);
      assert (a + rest)[1..] == a[1..] + rest;
      RunSplit(exec, Next(exec, s, a[0]), a[1..], rest);
    }
  }

  /** Distinctness is needed: the constructor accepts one server object for two
      environments, and then the order in which the two workers get to run decides the
      final state, although each environment was sent the same commands. */
  lemma SharedServerDependsOnSchedule(serverOf: seq<nat>, servers: seq<int>, i: nat, j: nat)
    requires forall k | 0 <= k < |serverOf| :: serverOf[k] < |servers|
    requires i < j < |serverOf| && serverOf[i] == serverOf[j]
    ensures var s := Run(Assign, Init(serverOf, servers, 1), Deliver(i, 1) + Deliver(j, 2));
            var s' := Run(Assign, Init(serverOf, servers, 1), Deliver(j, 2) + Deliver(i, 1));
      && Settled(s.queues[i]) && Settled(s'.queues[i]) && Settled(s.queues[j]) && Settled(s'.queues[j])
      && (forall k | k == i || k == j ::
            Submissions(1, Deliver(i, 1) + Deliver(j, 2), k) == Submissions(1, Deliver(j, 2) + Deliver(i, 1), k))
      && |s.servers| == |s'.servers| == |servers|
      && s.servers[serverOf[i]] != s'.servers[serverOf[i]]
  {
    hide Run, Submissions, Deliver, Settled;
    DeliveredTwice(serverOf, servers, i, 1, j, 2);
    DeliveredTwice(serverOf, servers, j, 2, i, 1);
  }

  /** One command for environment i, then one for j, each run at once. */
  lemma DeliveredTwice(serverOf: seq<nat>, servers: seq<int>, i: nat, a: int, j: nat, b: int)
    requires forall k | 0 <= k < |serverOf| :: serverOf[k] < |servers|
    requires i < |serverOf| && j < |serverOf| && i != j
    ensures var actions := Deliver(i, a) + Deliver(j, b);
            var s := Run(Assign, Init(serverOf, servers, 1), actions);
      && Settled(s.queues[i]) && Settled(s.queues[j])
      && Submissions(1, actions, i) == [a] && Submissions(1, actions, j) == [b]
      && s.servers == servers[serverOf[i] := a][serverOf[j] := b]
  {
    var start, actions := Init<int, int, int>(serverOf, servers, 1), Deliver(i, a) + Deliver(j, b);
    Delivered(start, i, a, Deliver(j, b));
    var s1 := Run(Assign, start, Deliver(i, a));
    Delivered(s1, j, b, []);
    assert Deliver(j, b) + [] == Deliver(j, b);
    hide Run, Submissions, Deliver;
    AcceptedIsSubmitted(Assign, serverOf, servers, 1, actions, i);
    AcceptedIsSubmitted(Assign, serverOf, servers, 1, actions, j);
  }
}
