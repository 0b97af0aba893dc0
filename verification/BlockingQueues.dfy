/** The blocking wrapper: an inner queue whose stored items are announced through the
    lightweight semaphore. The inner queue is a bag that may fail spuriously to find an
    item; the semaphore is the machine of module Semaphores, step for step. */
module BlockingQueues {
  import opened Sums
  import Sema = Semaphores

  /** Where a thread stands in the wrapper; while it is inside the semaphore its
      position there is the semaphore's business. */
  datatype Role<T> =
    | Free
    | Stored(n: nat)                       // n items enqueued, signal not yet called
    | Signalling
    | Acquiring
    | Taking(permits: nat, got: seq<T>)    // retry loop: permits taken, got found so far

  /** received[t] is what the finished calls of thread t have handed to their caller. */
  datatype State<T(==)> = State(
    items: multiset<T>, sema: Sema.State, roles: seq<Role<T>>, received: seq<seq<T>>,
    enqueued: multiset<T>, delivered: multiset<T>)

  datatype Action<T> =
    | Enqueue(t: nat, xs: seq<T>, stored: bool)  // the inner queue may refuse
    | CallSignal(t: nat)
    | CallWait(t: nat, r: Sema.Request)
    | InSemaphore(t: nat, lucky: bool)
    | LeaveSemaphore(t: nat)
    | Take(t: nat, xs: seq<T>)                   // one inner try_dequeue or try_dequeue_bulk

  function Init<T(==)>(threads: nat): State<T> {
    State(multiset{}, Sema.Init(0, threads), seq(threads, _ => Free), seq(threads, _ => []), multiset{}, multiset{})
  }

  function Next<T(==)>(s: State<T>, a: Action<T>, spins: nat): State<T> {
    if a.t >= |s.roles| || a.t >= |s.sema.threads| || a.t >= |s.received| then s
    else match a
      case Enqueue(t, xs, stored) =>
        if s.roles[t] == Free && stored
        then s.(items := s.items + multiset(xs), enqueued := s.enqueued + multiset(xs),
                roles := s.roles[t := Stored(|xs|)])
        else s
      case CallSignal(t) =>
        if s.roles[t].Stored?
        then s.(sema := Sema.Next(s.sema, Sema.Signal(t, s.roles[t].n), spins), roles := s.roles[t := Signalling])
        else s
      case CallWait(t, r) =>
        if s.roles[t] == Free
        then s.(sema := Sema.Next(s.sema, Sema.Wait(t, r), spins), roles := s.roles[t := Acquiring])
        else s
      case InSemaphore(t, lucky) =>
        if s.roles[t] == Signalling || s.roles[t] == Acquiring
        then s.(sema := Sema.Next(s.sema, Sema.Advance(t, lucky), spins))
        else s
      case LeaveSemaphore(t) =>
        if s.roles[t] == Signalling && s.sema.threads[t] == Sema.Idle then s.(roles := s.roles[t := Free])
        else if s.roles[t] == Acquiring && s.sema.threads[t].Finished?
        then var got := s.sema.threads[t].got;
          s.(sema := Sema.Next(s.sema, Sema.Return(t), spins), roles := s.roles[t := Loop(got, [])])
        else s
      case Take(t, xs) =>
        if s.roles[t].Taking? && multiset(xs) <= s.items && |s.roles[t].got| + |xs| <= s.roles[t].permits
        then
          var permits, got := s.roles[t].permits, s.roles[t].got + xs;
          s.(items := s.items - multiset(xs), delivered := s.delivered + multiset(xs),
             roles := s.roles[t := Loop(permits, got)],
             received := if |got| == permits then s.received[t := s.received[t] + got] else s.received)
        else s
  }

  /** The head of the retry loop: done once every permit has found its item. */
  function Loop<T>(permits: nat, got: seq<T>): Role<T> {
    if |got| == permits then Free else Taking(permits, got)
  }

  function Run<T(==)>(s: State<T>, actions: seq<Action<T>>, spins: nat): State<T>
    decreases |actions|
  {
    if actions == [] then s else Run(Next(s, actions[0], spins), actions[1..], spins)
  }

  // ---- the invariant ----

  /** Permits a consumer holds that have not found their item, and items a producer
      has stored without calling signal. */
  function Due<T>(role: Role<T>): nat {
    match role
    case Stored(n) => n
    case Taking(permits, got) => if permits > |got| then permits - |got| else 0
    case _ => 0
  }

  predicate RoleSound<T>(role: Role<T>, pc: Sema.Pc) {
    match role
    case Signalling => pc == Sema.Idle || pc.Increment? || pc.Posting?
    case Acquiring => pc != Sema.Idle && !pc.Increment? && !pc.Posting?
    case Taking(permits, got) => pc == Sema.Idle && |got| < permits
    case _ => pc == Sema.Idle
  }

  /** What a thread has received, and what its retry loop has found so far. */
  function Hands<T>(received: seq<seq<T>>, roles: seq<Role<T>>): seq<seq<T>>
    requires |received| == |roles|
  {
    seq(|received|, t requires 0 <= t < |received| => received[t] + Found(roles[t]))
  }

  function Found<T>(role: Role<T>): seq<T> {
    if role.Taking? then role.got else []
  }

  function All<T>(hands: seq<seq<T>>): multiset<T> {
    if hands == [] then multiset{} else multiset(hands[0]) + All(hands[1..])
  }

  ghost predicate Inv<T>(s: State<T>) {
    && Sema.Inv(s.sema)
    && |s.roles| == |s.sema.threads| == |s.received|
    && All(Hands(s.received, s.roles)) == s.delivered
    && (forall t | 0 <= t < |s.roles| :: RoleSound(s.roles[t], s.sema.threads[t]))
    && Announced(s)
    && s.enqueued == s.items + s.delivered
  }

  /** Every stored item is announced by a permit still to be had, will be announced by
      the producer that stored it, or belongs to a permit a consumer already holds. */
  ghost predicate Announced<T>(s: State<T>) {
    |s.items| + s.sema.acquired
    == s.sema.supplied + Sum(Sema.Unsignalled, s.sema.threads) + Sum(Sema.InHand, s.sema.threads) + Sum(Due<T>, s.roles)
  }

  lemma SemaSumsMove(threads: seq<Sema.Pc>, t: nat, pc: Sema.Pc)
    requires t < |threads|
    ensures Sum(Sema.Unsignalled, threads[t := pc]) + Sema.Unsignalled(threads[t])
         == Sum(Sema.Unsignalled, threads) + Sema.Unsignalled(pc)
    ensures Sum(Sema.InHand, threads[t := pc]) + Sema.InHand(threads[t]) == Sum(Sema.InHand, threads) + Sema.InHand(pc)
  {
    SumUpdate(Sema.Unsignalled, threads, t, pc);
    SumUpdate(Sema.InHand, threads, t, pc);
  }

  lemma {:induction false} AllMore<T>(hands: seq<seq<T>>, t: nat, xs: seq<T>)
    requires t < |hands|
    ensures All(hands[t := hands[t] + xs]) == All(hands) + multiset(xs)
  {
    if t == 0 {
      assert hands[t := hands[t] + xs][1..] == hands[1..];
    } else {
      assert hands[t := hands[t] + xs][1..] == hands[1..][t - 1 := hands[1..][t - 1] + xs];
      AllMore(hands[1..], t - 1, xs);
    }
  }

  /** Thread t finds xs. */
  lemma HandsMore<T>(received: seq<seq<T>>, roles: seq<Role<T>>, received': seq<seq<T>>, roles': seq<Role<T>>,
                     t: nat, xs: seq<T>)
    requires |received| == |roles| == |received'| == |roles'| && t < |roles|
    requires forall u | 0 <= u < |roles| && u != t :: received'[u] == received[u] && roles'[u] == roles[u]
    requires received'[t] + Found(roles'[t]) == received[t] + Found(roles[t]) + xs
    ensures All(Hands(received', roles')) == All(Hands(received, roles)) + multiset(xs)
  {
    var hands := Hands(received, roles);
    assert Hands(received', roles') == hands[t := hands[t] + xs];
    AllMore(hands, t, xs);
  }

  /** Thread t changes its role and its place in the semaphore; both sides of the
      balance change alike. */
  lemma MoveInv<T>(s: State<T>, s': State<T>, t: nat)
    requires Inv(s) && t < |s.roles| && Sema.Inv(s'.sema)
    requires |s'.roles| == |s.roles| && |s'.sema.threads| == |s.sema.threads|
    requires s'.roles == s.roles[t := s'.roles[t]] && s'.sema.threads == s.sema.threads[t := s'.sema.threads[t]]
    requires RoleSound(s'.roles[t], s'.sema.threads[t])
    requires s'.enqueued == s'.items + s'.delivered && |s'.received| == |s.received|
    requires s'.delivered == All(Hands(s'.received, s'.roles))
          || (s'.delivered == s.delivered && s'.received == s.received && Found(s'.roles[t]) == Found(s.roles[t]))
    requires |s'.items| - |s.items| + s'.sema.acquired - s.sema.acquired
          == s'.sema.supplied - s.sema.supplied
             + Sema.Unsignalled(s'.sema.threads[t]) - Sema.Unsignalled(s.sema.threads[t])
             + Sema.InHand(s'.sema.threads[t]) - Sema.InHand(s.sema.threads[t])
             + Due(s'.roles[t]) - Due(s.roles[t])
    ensures Inv(s')
  {
    if s'.delivered == s.delivered && s'.received == s.received && Found(s'.roles[t]) == Found(s.roles[t]) {
      HandsMore(s.received, s.roles, s'.received, s'.roles, t, []);
    }
    SumUpdate(Due<T>, s.roles, t, s'.roles[t]);
    SemaSumsMove(s.sema.threads, t, s'.sema.threads[t]);
    forall u | 0 <= u < |s'.roles| && u != t
      ensures RoleSound(s'.roles[u], s'.sema.threads[u])
    {
      assert RoleSound(s.roles[u], s.sema.threads[u]);
    }
  }

  lemma EnqueueInv<T>(s: State<T>, t: nat, xs: seq<T>, stored: bool, spins: nat)
    requires Inv(s)
    ensures Inv(Next(s, Enqueue(t, xs, stored), spins))
  {
    if t < |s.roles| && s.roles[t] == Free && stored {
      assert RoleSound(s.roles[t], s.sema.threads[t]);
      MoveInv(s, Next(s, Enqueue(t, xs, stored), spins), t);
    }
  }

  lemma TakeInv<T>(s: State<T>, t: nat, xs: seq<T>, spins: nat)
    requires Inv(s)
    ensures Inv(Next(s, Take(t, xs), spins))
  {
    hide All, Hands, Announced, Sema.Inv, Sema.Balanced;
    if t < |s.roles| && s.roles[t].Taking? && multiset(xs) <= s.items && |s.roles[t].got| + |xs| <= s.roles[t].permits {
      assert RoleSound(s.roles[t], s.sema.threads[t]);
      var s' := Next(s, Take(t, xs), spins);
      assert |s.items - multiset(xs)| == |s.items| - |xs|;
      assert s.items - multiset(xs) + (s.delivered + multiset(xs)) == s.items + s.delivered;
      HandsMore(s.received, s.roles, s'.received, s'.roles, t, xs);
      MoveInv(s, s', t);
    }
  }

  lemma CallSemaphoreInv<T>(s: State<T>, a: Action<T>, spins: nat)
    requires Inv(s) && (a.CallSignal? || a.CallWait?)
    ensures Inv(Next(s, a, spins))
  {
    hide All, Hands, Announced, Sema.Inv, Sema.Balanced;
    var t := a.t;
    if t < |s.roles| {
      assert RoleSound(s.roles[t], s.sema.threads[t]);
      if a.CallSignal? && s.roles[t].Stored? {
        Sema.InvStep(s.sema, Sema.Signal(t, s.roles[t].n), spins);
        MoveInv(s, Next(s, a, spins), t);
      } else if a.CallWait? && s.roles[t] == Free {
        Sema.InvStep(s.sema, Sema.Wait(t, a.r), spins);
        MoveInv(s, Next(s, a, spins), t);
      }
    }
  }

  /** Inside a call the position stays one of the call's own. */
  lemma StaysInCall(s: Sema.State, t: nat, lucky: bool, spins: nat)
    requires t < |s.threads|
    ensures var pc, pc' := s.threads[t], Sema.Access(s, t, lucky, spins).threads[t];
      && (pc == Sema.Idle || pc.Increment? || pc.Posting? ==> pc' == Sema.Idle || pc'.Increment? || pc'.Posting?)
      && (pc != Sema.Idle && !pc.Increment? && !pc.Posting? ==> pc' != Sema.Idle && !pc'.Increment? && !pc'.Posting?)
  {
  }

  lemma InSemaphoreInv<T>(s: State<T>, t: nat, lucky: bool, spins: nat)
    requires Inv(s)
    ensures Inv(Next(s, InSemaphore(t, lucky), spins))
  {
    hide Sema.Access;
    if t < |s.roles| && (s.roles[t] == Signalling || s.roles[t] == Acquiring) {
      assert RoleSound(s.roles[t], s.sema.threads[t]);
      assert Sema.CallSound(s.sema.threads[t]);
      Sema.InvStep(s.sema, Sema.Advance(t, lucky), spins);
      Sema.AccessMovesPermits(s.sema, t, lucky, spins);
      StaysInCall(s.sema, t, lucky, spins);
      var s' := s.(sema := Sema.Access(s.sema, t, lucky, spins));
      assert s' == Next(s, InSemaphore(t, lucky), spins);
      MoveInv(s, s', t);
    }
  }

  lemma LeaveInv<T>(s: State<T>, t: nat, spins: nat)
    requires Inv(s)
    ensures Inv(Next(s, LeaveSemaphore(t), spins))
  {
    hide All, Hands, Announced, Sema.Inv, Sema.Balanced;
    if t < |s.roles| {
      assert RoleSound(s.roles[t], s.sema.threads[t]);
      var s' := Next(s, LeaveSemaphore(t), spins);
      if s.roles[t] == Signalling && s.sema.threads[t] == Sema.Idle {
        MoveInv(s, s', t);
      } else if s.roles[t] == Acquiring && s.sema.threads[t].Finished? {
        Sema.InvStep(s.sema, Sema.Return(t), spins);
        MoveInv(s, s', t);
      }
    }
  }

  lemma InvStep<T>(s: State<T>, a: Action<T>, spins: nat)
    requires Inv(s)
    ensures Inv(Next(s, a, spins))
  {
    match a
    case Enqueue(t, xs, stored) => EnqueueInv(s, t, xs, stored, spins);
    case CallSignal(_) => CallSemaphoreInv(s, a, spins);
    case CallWait(_, _) => CallSemaphoreInv(s, a, spins);
    case InSemaphore(t, lucky) => InSemaphoreInv(s, t, lucky, spins);
    case LeaveSemaphore(t) => LeaveInv(s, t, spins);
    case Take(t, xs) => TakeInv(s, t, xs, spins);
  }

  lemma InitInv<T>(threads: nat)
    ensures Inv(Init<T>(threads))
  {
    var s := Init<T>(threads);
    Sema.InitInv(0, threads);
    SumZero(Sema.Unsignalled, s.sema.threads);
    SumZero(Sema.InHand, s.sema.threads);
    SumZero(Due<T>, s.roles);
    NothingInHands(s.received, s.roles);
  }

  lemma {:induction false} NothingInHands<T>(received: seq<seq<T>>, roles: seq<Role<T>>)
    requires |received| == |roles| && forall t | 0 <= t < |roles| :: received[t] == [] && roles[t] == Free
    ensures All(Hands(received, roles)) == multiset{}
  {
    if received != [] {
      NothingInHands(received[1..], roles[1..]);
      assert Hands(received, roles)[1..] == Hands(received[1..], roles[1..]);
    }
  }

  lemma {:induction false} InvRun<T>(s: State<T>, actions: seq<Action<T>>, spins: nat)
    requires Inv(s)
    ensures Inv(Run(s, actions, spins))
    decreases |actions|
  {
    if actions != [] {
      InvStep(s, actions[0], spins);
      InvRun(Next(s, actions[0], spins), actions[1..], spins);
    }
  }

  // ---- what holds over every run ----

  /** Permits that a wait can still obtain: the positive count, and the tokens posted
      or owed. */
  function Available(s: Sema.State): nat {
    Sema.Positive(s.count) + s.tokens + Sum(Sema.Owed, s.threads)
  }

  /** In every reachable state the stored items are exactly: the permits still to be
      had, the items stored but not yet signalled, and the permits that consumers hold
      (fresh from the semaphore or still looking for their item); and every enqueued
      item is stored or delivered. */
  lemma ItemsMatchPermits<T>(threads: nat, actions: seq<Action<T>>, spins: nat)
    ensures var s := Run(Init<T>(threads), actions, spins);
      && |s.items| == Available(s.sema) + Sum(Sema.Unsignalled, s.sema.threads)
                      + Sum(Sema.InHand, s.sema.threads) + Sum(Due<T>, s.roles)
      && s.enqueued == s.items + s.delivered
  {
    InitInv<T>(threads);
    InvRun(Init<T>(threads), actions, spins);
  }

  /** A consumer in its retry loop always has an item to find for every permit it has
      not used; it leaves the loop with exactly as many items as permits. */
  lemma RetryLoopHasItems<T>(threads: nat, actions: seq<Action<T>>, spins: nat, t: nat)
    ensures var s := Run(Init<T>(threads), actions, spins);
      t < |s.roles| && s.roles[t].Taking? ==>
        && |s.roles[t].got| < s.roles[t].permits
        && |s.items| >= s.roles[t].permits - |s.roles[t].got|
  {
    InitInv<T>(threads);
    InvRun(Init<T>(threads), actions, spins);
    var s := Run(Init<T>(threads), actions, spins);
    if t < |s.roles| && s.roles[t].Taking? {
      SumEntry(Due<T>, s.roles, t);
      assert RoleSound(s.roles[t], s.sema.threads[t]);
    }
  }

  /** When no thread is inside a call, the semaphore's count is the number of items. */
  lemma QuiescentCountIsSize<T>(s: State<T>)
    requires Inv(s) && forall t | 0 <= t < |s.roles| :: s.roles[t] == Free
    ensures s.sema.count == |s.items| && s.sema.tokens == 0
  {
    forall t | 0 <= t < |s.roles| ensures s.sema.threads[t] == Sema.Idle {
      assert RoleSound(s.roles[t], s.sema.threads[t]);
    }
    SumZero(Sema.Unsignalled, s.sema.threads);
    SumZero(Sema.InHand, s.sema.threads);
    SumZero(Sema.Waiting, s.sema.threads);
    SumZero(Sema.Owed, s.sema.threads);
    SumZero(Due<T>, s.roles);
  }

  /** The items that threads out of any call enqueue during a run. */
  function Deposited<T(==)>(s: State<T>, actions: seq<Action<T>>, spins: nat): multiset<T>
    decreases |actions|
  {
    if actions == [] then multiset{}
    else
      (if IsDeposit(s, actions[0]) then multiset(actions[0].xs) else multiset{})
      + Deposited(Next(s, actions[0], spins), actions[1..], spins)
  }

  predicate IsDeposit<T(==)>(s: State<T>, a: Action<T>) {
    && a.Enqueue? && a.stored && a.t < |s.roles| && a.t < |s.sema.threads| && a.t < |s.received|
    && s.roles[a.t] == Free
  }

  lemma {:induction false} EnqueuedIsDeposited<T>(s: State<T>, actions: seq<Action<T>>, spins: nat)
    ensures Run(s, actions, spins).enqueued == s.enqueued + Deposited(s, actions, spins)
    decreases |actions|
  {
    hide Next, IsDeposit;
    if actions != [] {
      EnqueuedIsDeposited(Next(s, actions[0], spins), actions[1..], spins);
      DepositStep(s, actions[0], spins);
    }
  }

  lemma DepositStep<T>(s: State<T>, a: Action<T>, spins: nat)
    ensures Next(s, a, spins).enqueued == s.enqueued + if IsDeposit(s, a) then multiset(a.xs) else multiset{}
  {
    hide Sema.Next;
  }

  /** Every item goes to one caller: over every run the items enqueued are those still
      stored together with all that finished calls have returned and retry loops have
      found. None is lost, none is handed out twice. */
  lemma ItemsGoToCallers<T>(threads: nat, actions: seq<Action<T>>, spins: nat)
    ensures var s := Run(Init<T>(threads), actions, spins);
      && |s.received| == |s.roles|
      && Deposited(Init<T>(threads), actions, spins) == s.items + All(Hands(s.received, s.roles))
  {
    hide Run, Deposited;
    InitInv<T>(threads);
    InvRun(Init<T>(threads), actions, spins);
    EnqueuedIsDeposited(Init<T>(threads), actions, spins);
  }

  // ---- calls on their own ----

  ghost predicate Quiescent<T>(s: State<T>) {
    forall t | 0 <= t < |s.roles| :: s.roles[t] == Free
  }

  lemma QuiescentSemaphore<T>(s: State<T>)
    requires Inv(s) && Quiescent(s)
    ensures Sema.Inv(s.sema) && Sema.Quiescent(s.sema) && s.sema.count == |s.items| && s.sema.tokens == 0
    ensures |s.roles| == |s.sema.threads| == |s.received|
  {
    QuiescentCountIsSize(s);
    forall t | 0 <= t < |s.roles| ensures s.sema.threads[t] == Sema.Idle {
      assert RoleSound(s.roles[t], s.sema.threads[t]);
    }
  }

  function Inside<T>(t: nat, k: nat): seq<Action<T>> {
    seq(k, _ => InSemaphore(t, true))
  }

  lemma {:induction false} RunJoin<T>(s: State<T>, first: seq<Action<T>>, rest: seq<Action<T>>, spins: nat)
    ensures Run(s, first + rest, spins) == Run(Run(s, first, spins), rest, spins)
    decreases |first|
  {
    hide Next;
    if first == [] {
      assert first + rest == rest;
    } else {
      assert (first + rest)[1..] == first[1..] + rest;
      RunJoin(Next(s, first[0], spins), first[1..], rest, spins);
    }
  }

  lemma RunOne<T>(s: State<T>, a: Action<T>, spins: nat)
    ensures Run(s, [a], spins) == Next(s, a, spins)
  {
    hide Next;
    assert [a][1..] == [];
  }

  /** Inside the semaphore the wrapper does nothing. */
  lemma {:induction false} InsideRuns<T>(s: State<T>, t: nat, k: nat, spins: nat)
    requires t < |s.roles| == |s.sema.threads| == |s.received|
    requires s.roles[t] == Signalling || s.roles[t] == Acquiring
    ensures Run(s, Inside(t, k), spins) == s.(sema := Sema.Run(s.sema, Sema.Alone(t, k), spins))
    decreases k
  {
    hide Sema.Access;
    if k > 0 {
      var s' := Next(s, InSemaphore(t, true), spins);
      assert Inside<T>(t, k)[1..] == Inside(t, k - 1);
      Sema.ThreadsStay(s.sema, [Sema.Advance(t, true)], spins);
      Sema.AloneStep(s.sema, t, k, spins);
      OneAdvance(s.sema, t, spins);
      InsideRuns(s', t, k - 1, spins);
    }
  }

  lemma OneAdvance(s: Sema.State, t: nat, spins: nat)
    ensures |Sema.Next(s, Sema.Advance(t, true), spins).threads| == |s.threads|
  {
    hide Sema.Next;
    Sema.ThreadsStay(s, [Sema.Advance(t, true)], spins);
    assert Sema.Run(s, [Sema.Advance(t, true)], spins) == Sema.Next(s, Sema.Advance(t, true), spins) by {
      assert [Sema.Advance(t, true)][1..] == [];
    }
  }

  /** An enqueue with nobody else at work stores the items and raises the count by their
      number. */
  lemma LoneEnqueue<T>(s: State<T>, t: nat, xs: seq<T>, k: nat, spins: nat)
    requires Inv(s) && Quiescent(s) && t < |s.roles| && k >= |xs| + 2
    ensures Run(s, [Enqueue(t, xs, true), CallSignal(t)] + Inside(t, k) + [LeaveSemaphore(t)], spins)
         == s.(items := s.items + multiset(xs), enqueued := s.enqueued + multiset(xs),
               sema := s.sema.(count := s.sema.count + |xs|, supplied := s.sema.supplied + |xs|))
  {
    QuiescentSemaphore(s);
    var s1 := s.(items := s.items + multiset(xs), enqueued := s.enqueued + multiset(xs),
                 roles := s.roles[t := Stored(|xs|)]);
    assert Next(s, Enqueue(t, xs, true), spins) == s1;
    var s2 := s1.(sema := Sema.Next(s.sema, Sema.Signal(t, |xs|), spins), roles := s.roles[t := Signalling]);
    assert Next(s1, CallSignal(t), spins) == s2;
    Sema.LoneSignal(s.sema, t, |xs|, k, spins);
    InsideRuns(s2, t, k, spins);
    var s3 := s2.(sema := s.sema.(count := s.sema.count + |xs|, supplied := s.sema.supplied + |xs|));
    assert s3.roles[t := Free] == s.roles;
    var s4 := s3.(roles := s.roles);
    assert Next(s3, LeaveSemaphore(t), spins) == s4;
    hide Run, Next, Sema.Run, Sema.Next;
    RunFour(s, Enqueue(t, xs, true), CallSignal(t), Inside(t, k), LeaveSemaphore(t), spins);
  }

  lemma RunFour<T>(s: State<T>, a: Action<T>, b: Action<T>, inside: seq<Action<T>>, c: Action<T>, spins: nat)
    ensures Run(s, [a, b] + inside + [c], spins)
         == Next(Run(Next(Next(s, a, spins), b, spins), inside, spins), c, spins)
  {
    hide Run, Next;
    RunJoin(s, [a, b] + inside, [c], spins);
    RunJoin(s, [a, b], inside, spins);
    assert [a, b] == [a] + [b];
    RunJoin(s, [a], [b], spins);
    RunOne(s, a, spins);
    RunOne(Next(s, a, spins), b, spins);
    RunOne(Run(Next(Next(s, a, spins), b, spins), inside, spins), c, spins);
  }

  /** A dequeue with nobody else at work, on a queue with items or without waiting, gets
      as many as it asked for or there are, and its caller gets those the inner queue
      finds. */
  lemma LoneDequeue<T>(s: State<T>, t: nat, r: Sema.Request, xs: seq<T>, k: nat, spins: nat)
    requires Inv(s) && Quiescent(s) && t < |s.roles| && k >= spins + 3
    requires s.items != multiset{} && r.max > 0 && multiset(xs) <= s.items && |xs| == Sema.AtMost(r.max, |s.items|)
    ensures Run(s, [CallWait(t, r)] + Inside(t, k) + [LeaveSemaphore(t), Take(t, xs)], spins)
         == s.(items := s.items - multiset(xs), delivered := s.delivered + multiset(xs),
               received := s.received[t := s.received[t] + xs],
               sema := s.sema.(count := s.sema.count - |xs|, acquired := s.sema.acquired + |xs|))
  {
    hide Run, Next, Inv;
    QuiescentSemaphore(s);
    LoneAcquire(s, t, r, k, spins);
    LoneTake(s, Acquired(s, t, r, |xs|), t, r, xs, spins);
    RunOther(s, CallWait(t, r), Inside(t, k), LeaveSemaphore(t), Take(t, xs), spins);
  }

  /** Thread t is at the end of its call of the semaphore, with got permits. */
  function Acquired<T(==)>(s: State<T>, t: nat, r: Sema.Request, got: nat): State<T>
    requires t < |s.roles| == |s.sema.threads|
  {
    s.(sema := s.sema.(count := s.sema.count - got, acquired := s.sema.acquired + got,
                       threads := s.sema.threads[t := Sema.Finished(r, got)]),
       roles := s.roles[t := Acquiring])
  }

  lemma LoneAcquire<T>(s: State<T>, t: nat, r: Sema.Request, k: nat, spins: nat)
    requires Inv(s) && Quiescent(s) && t < |s.roles| && k >= spins + 3 && s.items != multiset{}
    ensures t < |s.roles| == |s.sema.threads|
    ensures Run(Next(s, CallWait(t, r), spins), Inside(t, k), spins) == Acquired(s, t, r, Sema.AtMost(r.max, |s.items|))
  {
    QuiescentSemaphore(s);
    var s1 := s.(sema := Sema.Next(s.sema, Sema.Wait(t, r), spins), roles := s.roles[t := Acquiring]);
    assert Next(s, CallWait(t, r), spins) == s1;
    hide Run, Next, Inv, Sema.Run, Sema.Inv;
    Sema.LoneWait(s.sema, t, r, k, spins);
    InsideRuns(s1, t, k, spins);
  }

  lemma LoneTake<T>(s: State<T>, s2: State<T>, t: nat, r: Sema.Request, xs: seq<T>, spins: nat)
    requires t < |s.roles| == |s.sema.threads| == |s.received| && s.roles[t] == Free && s.sema.threads[t] == Sema.Idle
    requires multiset(xs) <= s.items && xs != []
    requires s2.roles == s.roles[t := Acquiring] && s2.sema.threads == s.sema.threads[t := Sema.Finished(r, |xs|)]
    requires s2 == s.(roles := s2.roles, sema := s2.sema)
    ensures Next(Next(s2, LeaveSemaphore(t), spins), Take(t, xs), spins)
         == s.(items := s.items - multiset(xs), delivered := s.delivered + multiset(xs),
               received := s.received[t := s.received[t] + xs], sema := s2.sema.(threads := s.sema.threads))
  {
    var s3 := s2.(roles := s.roles[t := Taking(|xs|, [])], sema := s2.sema.(threads := s.sema.threads));
    assert s2.sema.threads[t := Sema.Idle] == s.sema.threads;
    assert Next(s2, LeaveSemaphore(t), spins) == s3;
    assert [] + xs == xs && s3.roles[t := Free] == s.roles;
  }

  lemma RunOther<T>(s: State<T>, a: Action<T>, inside: seq<Action<T>>, b: Action<T>, c: Action<T>, spins: nat)
    ensures Run(s, [a] + inside + [b, c], spins)
         == Next(Next(Run(Next(s, a, spins), inside, spins), b, spins), c, spins)
  {
    hide Run, Next;
    RunJoin(s, [a] + inside, [b, c], spins);
    RunJoin(s, [a], inside, spins);
    RunOne(s, a, spins);
    var s' := Run(Next(s, a, spins), inside, spins);
    assert [b, c] == [b] + [c];
    RunJoin(s', [b], [c], spins);
    RunOne(s', b, spins);
    RunOne(Next(s', b, spins), c, spins);
  }
}
