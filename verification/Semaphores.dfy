/** The lightweight semaphore: a signed count above an operating-system semaphore.

    Every action is one access to the count or to the OS semaphore by one thread.
    wait is waitMany with max == 1 and tryWait is tryWaitMany with max == 1. The OS
    semaphore is a token counter; any wait on it may come back without a token: a timed
    wait when its time is over, a zero timeout at once, an untimed wait if the system
    interrupts it. */
module Semaphores {
  import opened Sums

  datatype Mode = Try | Forever | Timed

  datatype Request = Request(max: nat, mode: Mode)

  /** The access a thread performs next. got counts the permits the call already has. */
  datatype Pc =
    | Idle
    | TryLoad(r: Request, got: nat)
    | TryCas(r: Request, got: nat, seen: int)
    | SpinLoad(r: Request, spins: nat)
    | SpinCas(r: Request, spins: nat, seen: int)
    | Decrement(r: Request)
    | Sleeping(r: Request)
    | TimedOut(r: Request)
    | TryToken(r: Request)
    | GiveBack(r: Request, seen: int)
    | Finished(r: Request, got: nat)
    | Increment(n: nat)
    | Posting(owed: nat)

  /** The shared count and OS tokens, with the totals of permits signalled and taken. */
  datatype State = State(count: int, tokens: nat, threads: seq<Pc>, supplied: nat, acquired: nat)

  datatype Action =
    | Wait(t: nat, r: Request)
    | Signal(t: nat, n: nat)
    | Advance(t: nat, lucky: bool)  // unlucky: a weak CAS fails spuriously, an OS wait gives up
    | Return(t: nat)

  function Init(initial: nat, threads: nat): State {
    State(initial, 0, seq(threads, _ => Idle), initial, 0)
  }

  function Goto(s: State, t: nat, pc: Pc): State
    requires t < |s.threads|
  {
    s.(threads := s.threads[t := pc])
  }

  function Next(s: State, a: Action, spins: nat): State {
    match a
    case Wait(t, r) => if t < |s.threads| && s.threads[t] == Idle then Goto(s, t, TryLoad(r, 0)) else s
    case Signal(t, n) => if t < |s.threads| && s.threads[t] == Idle then Goto(s, t, Increment(n)) else s
    case Advance(t, lucky) => if t < |s.threads| then Access(s, t, lucky, spins) else s
    case Return(t) => if t < |s.threads| && s.threads[t].Finished? then Goto(s, t, Idle) else s
  }

  /** What tryWaitMany does when the count it has seen is not positive. */
  function GaveUpTrying(r: Request, got: nat, spins: nat): Pc {
    if got == 0 && r.max > 0 && r.mode != Try then SpinLoad(r, spins) else Finished(r, got)
  }

  function Keep(seen: int, max: nat): int {
    if seen > max then seen - max else 0
  }

  function Remaining(r: Request, got: nat): nat {
    if r.max > got then r.max - got else 0
  }

  /** After one permit from the slow path, the rest is tried for without waiting. */
  function GotOne(r: Request): Pc {
    if r.max > 1 then TryLoad(r, 1) else Finished(r, 1)
  }

  function Access(s: State, t: nat, lucky: bool, spins: nat): State
    requires t < |s.threads|
  {
    match s.threads[t]
    case Idle => s
    case Finished(_, _) => s
    case TryLoad(r, got) =>
      Goto(s, t, if s.count > 0 then TryCas(r, got, s.count) else GaveUpTrying(r, got, spins))
    case TryCas(r, got, seen) =>
      if s.count == seen && lucky then
        var kept := Keep(seen, Remaining(r, got));
        Goto(s.(count := kept, acquired := s.acquired + Taken(seen, kept)), t, Finished(r, got + Taken(seen, kept)))
      else Goto(s, t, if s.count > 0 then TryCas(r, got, s.count) else GaveUpTrying(r, got, spins))
    case SpinLoad(r, left) =>
      Goto(s, t, if left == 0 then Decrement(r)
                 else if s.count > 0 then SpinCas(r, left - 1, s.count) else SpinLoad(r, left - 1))
    case SpinCas(r, left, seen) =>
      if s.count == seen then
        var kept := Keep(seen, r.max);
        Goto(s.(count := kept, acquired := s.acquired + Taken(seen, kept)), t, Finished(r, Taken(seen, kept)))
      else Goto(s, t, SpinLoad(r, left))
    case Decrement(r) =>
      if s.count > 0
      then Goto(s.(count := s.count - 1, acquired := s.acquired + 1), t, GotOne(r))
      else Goto(s.(count := s.count - 1), t, Sleeping(r))
    case Sleeping(r) =>
      if lucky && s.tokens > 0 then Goto(s.(tokens := s.tokens - 1, acquired := s.acquired + 1), t, GotOne(r))
      else if !lucky then Goto(s, t, TimedOut(r))
      else s
    case TimedOut(r) => Goto(s, t, if s.count >= 0 then TryToken(r) else GiveBack(r, s.count))
    case TryToken(r) =>
      if s.tokens > 0 then Goto(s.(tokens := s.tokens - 1, acquired := s.acquired + 1), t, GotOne(r))
      else Goto(s, t, TimedOut(r))
    case GiveBack(r, seen) =>
      if s.count == seen then Goto(s.(count := seen + 1), t, Finished(r, 0))
      else Goto(s, t, TimedOut(r))
    case Increment(n) =>
      Goto(s.(count := s.count + n, supplied := s.supplied + n), t, Posting(ToRelease(s.count, n)))
    case Posting(owed) =>
      if owed == 0 then Goto(s, t, Idle) else Goto(s.(tokens := s.tokens + 1), t, Posting(owed - 1))
  }

  function Taken(seen: int, kept: int): nat {
    if seen > kept then seen - kept else 0
  }

  /** How many sleepers a signal of n has to wake. */
  function ToRelease(count: int, n: nat): nat {
    var k := if -count < n then -count else n;
    if k > 0 then k else 0
  }

  function Run(s: State, actions: seq<Action>, spins: nat): State
    decreases |actions|
  {
    if actions == [] then s else Run(Next(s, actions[0], spins), actions[1..], spins)
  }

  // ---- the invariant ----

  /** Has decremented the count without a permit so far. */
  function Waiting(pc: Pc): nat {
    match pc
    case Sleeping(_) => 1
    case TimedOut(_) => 1
    case TryToken(_) => 1
    case GiveBack(_, _) => 1
    case _ => 0
  }

  /** OS tokens a signaller has still to post. */
  function Owed(pc: Pc): nat {
    match pc
    case Posting(owed) => owed
    case _ => 0
  }

  function Negative(count: int): nat {
    if count < 0 then -count else 0
  }

  function Positive(count: int): nat {
    if count > 0 then count else 0
  }

  ghost predicate Balanced(s: State) {
    && Sum(Waiting, s.threads) == s.tokens + Sum(Owed, s.threads) + Negative(s.count)
    && s.supplied == s.acquired + Positive(s.count) + s.tokens + Sum(Owed, s.threads)
  }

  /** What a thread's position says about its own call. */
  predicate CallSound(pc: Pc) {
    match pc
    case TryLoad(r, got) => got <= 1 && (got == 1 ==> r.max > 1)
    case TryCas(r, got, seen) => got <= 1 && (got == 1 ==> r.max > 1) && seen > 0
    case SpinLoad(r, _) => r.max > 0 && r.mode != Try
    case SpinCas(r, _, seen) => r.max > 0 && r.mode != Try && seen > 0
    case Decrement(r) => r.max > 0 && r.mode != Try
    case Sleeping(r) => r.max > 0 && r.mode != Try
    case TimedOut(r) => r.max > 0 && r.mode != Try
    case TryToken(r) => r.max > 0 && r.mode != Try
    case GiveBack(r, seen) => r.max > 0 && r.mode != Try && seen < 0
    case Finished(r, got) => got <= r.max
    case _ => true
  }

  ghost predicate Inv(s: State) {
    && Balanced(s)
    && forall t | 0 <= t < |s.threads| :: CallSound(s.threads[t])
  }

  lemma SumsMove(threads: seq<Pc>, t: nat, pc: Pc)
    requires t < |threads|
    ensures Sum(Waiting, threads[t := pc]) + Waiting(threads[t]) == Sum(Waiting, threads) + Waiting(pc)
    ensures Sum(Owed, threads[t := pc]) + Owed(threads[t]) == Sum(Owed, threads) + Owed(pc)
  {
    SumUpdate(Waiting, threads, t, pc);
    SumUpdate(Owed, threads, t, pc);
  }

  /** Thread t moves to pc, changing the totals by what the move itself accounts for. */
  ghost predicate Accounted(s: State, s': State, t: nat, pc: Pc)
    requires t < |s.threads|
  {
    && s'.threads == s.threads[t := pc] && CallSound(pc)
    && Waiting(pc) - Waiting(s.threads[t])
       == s'.tokens - s.tokens + Owed(pc) - Owed(s.threads[t]) + Negative(s'.count) - Negative(s.count)
    && s'.supplied - s.supplied
       == s'.acquired - s.acquired + Positive(s'.count) - Positive(s.count) + s'.tokens - s.tokens
          + Owed(pc) - Owed(s.threads[t])
  }

  lemma AccountedInv(s: State, s': State, t: nat, pc: Pc)
    requires Inv(s) && t < |s.threads| && Accounted(s, s', t, pc)
    ensures Inv(s')
  {
    SumsMove(s.threads, t, pc);
  }

  lemma TryAccounted(s: State, t: nat, lucky: bool, spins: nat)
    requires t < |s.threads| && CallSound(s.threads[t])
    requires s.threads[t].TryLoad? || s.threads[t].TryCas?
    ensures Accounted(s, Access(s, t, lucky, spins), t, Access(s, t, lucky, spins).threads[t])
  {
  }

  lemma SpinAccounted(s: State, t: nat, lucky: bool, spins: nat)
    requires t < |s.threads| && CallSound(s.threads[t])
    requires s.threads[t].SpinLoad? || s.threads[t].SpinCas? || s.threads[t].Decrement?
    ensures Accounted(s, Access(s, t, lucky, spins), t, Access(s, t, lucky, spins).threads[t])
  {
  }

  lemma SleepAccounted(s: State, t: nat, lucky: bool, spins: nat)
    requires t < |s.threads| && CallSound(s.threads[t]) && Waiting(s.threads[t]) == 1
    ensures Accounted(s, Access(s, t, lucky, spins), t, Access(s, t, lucky, spins).threads[t])
  {
  }

  /** The signal releases exactly the sleepers that its increment makes up for. */
  lemma SignalAccounted(s: State, t: nat, lucky: bool, spins: nat)
    requires t < |s.threads| && (s.threads[t].Increment? || s.threads[t].Posting?)
    ensures Accounted(s, Access(s, t, lucky, spins), t, Access(s, t, lucky, spins).threads[t])
  {
  }

  /** Each access pays for what it changes. */
  lemma AccessAccounted(s: State, t: nat, lucky: bool, spins: nat)
    requires t < |s.threads| && CallSound(s.threads[t])
    ensures Accounted(s, Access(s, t, lucky, spins), t, Access(s, t, lucky, spins).threads[t])
  {
    var pc := s.threads[t];
    if pc.TryLoad? || pc.TryCas? {
      hide Access, Accounted;
      TryAccounted(s, t, lucky, spins);
    } else if pc.SpinLoad? || pc.SpinCas? || pc.Decrement? {
      hide Access, Accounted;
      SpinAccounted(s, t, lucky, spins);
    } else if pc.Increment? || pc.Posting? {
      hide Access, Accounted;
      SignalAccounted(s, t, lucky, spins);
    } else if Waiting(pc) == 1 {
      hide Access, Accounted;
      SleepAccounted(s, t, lucky, spins);
    }
  }

  lemma InvStep(s: State, a: Action, spins: nat)
    requires Inv(s)
    ensures Inv(Next(s, a, spins))
  {
    hide Access, Balanced;
    match a
    case Wait(t, r) =>
      if t < |s.threads| && s.threads[t] == Idle {
        AccountedInv(s, Next(s, a, spins), t, TryLoad(r, 0));
      }
    case Signal(t, n) =>
      if t < |s.threads| && s.threads[t] == Idle {
        AccountedInv(s, Next(s, a, spins), t, Increment(n));
      }
    case Return(t) =>
      if t < |s.threads| && s.threads[t].Finished? {
        AccountedInv(s, Next(s, a, spins), t, Idle);
      }
    case Advance(t, lucky) =>
      if t < |s.threads| {
        AccessAccounted(s, t, lucky, spins);
        AccountedInv(s, Next(s, a, spins), t, Access(s, t, lucky, spins).threads[t]);
      }
  }

  lemma InitInv(initial: nat, threads: nat)
    ensures Inv(Init(initial, threads))
  {
    var s := Init(initial, threads);
    SumZero(Waiting, s.threads);
    SumZero(Owed, s.threads);
  }

  lemma {:induction false} InvRun(s: State, actions: seq<Action>, spins: nat)
    requires Inv(s)
    ensures Inv(Run(s, actions, spins))
    decreases |actions|
  {
    if actions != [] {
      InvStep(s, actions[0], spins);
      InvRun(Next(s, actions[0], spins), actions[1..], spins);
    }
  }

  // ---- permits in hand ----

  /** Permits a call has taken and not yet returned to its caller. */
  function InHand(pc: Pc): nat {
    match pc
    case TryLoad(_, got) => got
    case TryCas(_, got, _) => got
    case Finished(_, got) => got
    case _ => 0
  }

  /** Permits a signal is about to supply. */
  function Unsignalled(pc: Pc): nat {
    match pc
    case Increment(n) => n
    case _ => 0
  }

  /** An access takes or supplies exactly the permits its call then has in hand or no
      longer owes. */
  lemma AccessMovesPermits(s: State, t: nat, lucky: bool, spins: nat)
    requires t < |s.threads| && CallSound(s.threads[t])
    ensures var s' := Access(s, t, lucky, spins); var pc, pc' := s.threads[t], s'.threads[t];
      && s'.threads == s.threads[t := pc']
      && s'.acquired - s.acquired == InHand(pc') - InHand(pc)
      && s'.supplied - s.supplied == Unsignalled(pc) - Unsignalled(pc')
  {
  }

  // ---- what holds over every run ----

  /** In every interleaving: the threads that have decremented without a permit are
      matched one for one by posted tokens, tokens signallers still owe, and the
      negative part of the count; and permits handed out never exceed those supplied,
      the difference being exactly what is still to be had. */
  lemma PermitsConserved(initial: nat, threads: nat, actions: seq<Action>, spins: nat)
    ensures var s := Run(Init(initial, threads), actions, spins);
      && Sum(Waiting, s.threads) == s.tokens + Sum(Owed, s.threads) + Negative(s.count)
      && s.supplied - s.acquired == Positive(s.count) + s.tokens + Sum(Owed, s.threads)
  {
    InitInv(initial, threads);
    InvRun(Init(initial, threads), actions, spins);
  }

  /** A waiter that finds the count non-negative always has a token posted or owed, so
      neither its sleep nor its retry loop can go on forever without one. */
  lemma WaiterHasToken(s: State, t: nat)
    requires Inv(s) && t < |s.threads| && Waiting(s.threads[t]) == 1 && s.count >= 0
    ensures s.tokens + Sum(Owed, s.threads) >= 1
  {
    SumEntry(Waiting, s.threads, t);
  }

  /** A wait that times out returns its slot exactly: it leaves the count one higher,
      one waiter fewer, and no permit or token moved. */
  lemma TimeoutReturnsSlot(s: State, t: nat, lucky: bool, spins: nat)
    requires Inv(s) && t < |s.threads| && s.threads[t].GiveBack? && s.count == s.threads[t].seen
    ensures var s' := Next(s, Advance(t, lucky), spins);
      && s'.threads[t] == Finished(s.threads[t].r, 0)
      && s'.count == s.count + 1 <= 0 && s'.tokens == s.tokens && s'.acquired == s.acquired
      && Sum(Waiting, s'.threads) + 1 == Sum(Waiting, s.threads)
  {
    SumsMove(s.threads, t, Finished(s.threads[t].r, 0));
  }

  /** No untimed OS wait of thread t comes back without a token during the run. */
  predicate Uninterrupted(s: State, actions: seq<Action>, spins: nat, t: nat)
    decreases |actions|
  {
    actions != [] ==>
      && !(t < |s.threads| && s.threads[t].Sleeping? && s.threads[t].r.mode == Forever
           && actions[0] == Advance(t, false))
      && Uninterrupted(Next(s, actions[0], spins), actions[1..], spins, t)
  }

  /** Where an untimed call may stand while its OS waits succeed. */
  predicate Persists(pc: Pc) {
    match pc
    case TimedOut(r) => r.mode != Forever
    case TryToken(r) => r.mode != Forever
    case GiveBack(r, _) => r.mode != Forever
    case Finished(r, got) => r.mode == Forever && r.max > 0 ==> got > 0
    case _ => true
  }

  lemma {:induction false} PersistsRun(s: State, actions: seq<Action>, spins: nat, t: nat)
    requires Inv(s) && t < |s.threads| && Persists(s.threads[t]) && Uninterrupted(s, actions, spins, t)
    ensures var s' := Run(s, actions, spins);
      |s'.threads| == |s.threads| && Persists(s'.threads[t])
    decreases |actions|
  {
    if actions != [] {
      InvStep(s, actions[0], spins);
      PersistsStep(s, actions[0], spins, t);
      PersistsRun(Next(s, actions[0], spins), actions[1..], spins, t);
    }
  }

  lemma PersistsStep(s: State, a: Action, spins: nat, t: nat)
    requires Inv(s) && t < |s.threads| && Persists(s.threads[t])
    requires !(s.threads[t].Sleeping? && s.threads[t].r.mode == Forever && a == Advance(t, false))
    ensures var s' := Next(s, a, spins);
      |s'.threads| == |s.threads| && Persists(s'.threads[t])
  {
    hide Access, Balanced;
    if a.Advance? && a.t < |s.threads| {
      assert CallSound(s.threads[a.t]);
      AccessMovesPermits(s, a.t, a.lucky, spins);
      if a.t == t {
        PersistsAccess(s, t, a.lucky, spins);
      }
    }
  }

  lemma PersistsAccess(s: State, t: nat, lucky: bool, spins: nat)
    requires t < |s.threads| && CallSound(s.threads[t]) && Persists(s.threads[t])
    requires !(s.threads[t].Sleeping? && s.threads[t].r.mode == Forever && !lucky)
    ensures var s' := Access(s, t, lucky, spins);
      |s'.threads| == |s.threads| && Persists(s'.threads[t])
  {
  }

  /** A call returns at most max permits. An untimed wait for at least one permit returns
      at least one, unless one of its OS waits comes back without a token. */
  lemma ResultsInRange(initial: nat, threads: nat, actions: seq<Action>, spins: nat, t: nat)
    ensures var s := Run(Init(initial, threads), actions, spins);
      t < |s.threads| && s.threads[t].Finished? ==>
        && s.threads[t].got <= s.threads[t].r.max
        && (Uninterrupted(Init(initial, threads), actions, spins, t) ==>
              s.threads[t].r.mode == Forever && s.threads[t].r.max > 0 ==> s.threads[t].got > 0)
  {
    hide Next;
    InitInv(initial, threads);
    InvRun(Init(initial, threads), actions, spins);
    var s := Run(Init(initial, threads), actions, spins);
    ThreadsStay(Init(initial, threads), actions, spins);
    if t < |s.threads| {
      assert CallSound(s.threads[t]);
      if Uninterrupted(Init(initial, threads), actions, spins, t) {
        PersistsRun(Init(initial, threads), actions, spins, t);
      }
    }
  }

  lemma {:induction false} ThreadsStay(s: State, actions: seq<Action>, spins: nat)
    ensures |Run(s, actions, spins).threads| == |s.threads|
    decreases |actions|
  {
    if actions != [] {
      ThreadsStay(Next(s, actions[0], spins), actions[1..], spins);
    }
  }

  /** The exception is real: an interrupted untimed wait comes back with nothing. */
  lemma InterruptedReturnsNothing()
    ensures var r := Request(1, Forever);
      var actions := [Wait(0, r), Advance(0, true), Advance(0, true), Advance(0, true),
                      Advance(0, false), Advance(0, true), Advance(0, true)];
      Run(Init(0, 1), actions, 0).threads == [Finished(r, 0)]
  {
    hide Next, Run;
    var r := Request(1, Forever);
    var first, rest := [Wait(0, r), Advance(0, true), Advance(0, true)],
                       [Advance(0, true), Advance(0, false), Advance(0, true), Advance(0, true)];
    FallsAsleep(r);
    GivesUp(r);
    RunJoin(Init(0, 1), first, rest, 0);
    assert first + rest == [Wait(0, r), Advance(0, true), Advance(0, true), Advance(0, true),
                            Advance(0, false), Advance(0, true), Advance(0, true)];
  }

  lemma FallsAsleep(r: Request)
    requires r == Request(1, Forever)
    ensures Run(Init(0, 1), [Wait(0, r), Advance(0, true), Advance(0, true)], 0) == State(0, 0, [Decrement(r)], 0, 0)
  {
    RunThree(Init(0, 1), Wait(0, r), Advance(0, true), Advance(0, true), 0);
  }

  lemma GivesUp(r: Request)
    requires r == Request(1, Forever)
    ensures Run(State(0, 0, [Decrement(r)], 0, 0),
                [Advance(0, true), Advance(0, false), Advance(0, true), Advance(0, true)], 0).threads
         == [Finished(r, 0)]
  {
    var rest := [Advance(0, false), Advance(0, true), Advance(0, true)];
    assert ([Advance(0, true)] + rest)[1..] == rest;
    RunThree(State(-1, 0, [Sleeping(r)], 0, 0), rest[0], rest[1], rest[2], 0);
  }

  lemma RunThree(s: State, a: Action, b: Action, c: Action, spins: nat)
    ensures Run(s, [a, b, c], spins) == Next(Next(Next(s, a, spins), b, spins), c, spins)
  {
    hide Next;
    var s1, s2 := Next(s, a, spins), Next(Next(s, a, spins), b, spins);
    assert [a, b, c][1..] == [b, c] && [b, c][1..] == [c] && [c][1..] == [];
    assert Run(s2, [c], spins) == Next(s2, c, spins);
    assert Run(s1, [b, c], spins) == Run(s2, [c], spins);
  }

  lemma {:induction false} RunJoin(s: State, first: seq<Action>, rest: seq<Action>, spins: nat)
    ensures Run(s, first + rest, spins) == Run(Run(s, first, spins), rest, spins)
    decreases |first|
  {
    hide Next;
    if first == [] {
      assert first + rest == rest;
    } else {
      assert (first + rest)[1..] == first[1..] + rest;
      RunJoin(Next(s, first[0], spins), first[1..], rest, spins);
    }
  }

  /** A signal wakes no more threads than there are, so narrowing the number to an int
      loses nothing below 2^31 threads. */
  lemma SignalWakesAtMostAllThreads(s: State, n: nat)
    requires Inv(s)
    ensures ToRelease(s.count, n) <= |s.threads|
  {
    SumAtMostLength(Waiting, s.threads);
  }

  // ---- calls on their own ----

  /** Thread t makes k accesses, all of them lucky, and nobody else any. */
  function Alone(t: nat, k: nat): seq<Action> {
    seq(k, _ => Advance(t, true))
  }

  lemma AloneStep(s: State, t: nat, k: nat, spins: nat)
    requires k > 0
    ensures Run(s, Alone(t, k), spins) == Run(Next(s, Advance(t, true), spins), Alone(t, k - 1), spins)
  {
    hide Next;
    assert Alone(t, k)[1..] == Alone(t, k - 1);
  }

  /** At rest: out of a call, at its end, or asleep with no token there. */
  predicate Rests(s: State, pc: Pc) {
    pc == Idle || pc.Finished? || (pc.Sleeping? && s.tokens == 0)
  }

  lemma {:induction false} AloneRests(s: State, t: nat, k: nat, spins: nat)
    requires t < |s.threads| && Rests(s, s.threads[t])
    ensures Run(s, Alone(t, k), spins) == s
  {
    if k > 0 {
      AloneStep(s, t, k, spins);
      AloneRests(s, t, k - 1, spins);
    }
  }

  function AtMost(n: nat, count: int): nat {
    if count <= 0 then 0 else if count < n then count else n
  }

  /** Thread t has ended its call with got permits, of which it took more from the count. */
  function Ended(s: State, t: nat, r: Request, got: nat, more: nat): State
    requires t < |s.threads|
  {
    Goto(s.(count := s.count - more, acquired := s.acquired + more), t, Finished(r, got))
  }

  /** The part of a call that tries without waiting takes what there is, up to what is
      still wanted. */
  lemma LoneTry(s: State, t: nat, r: Request, got: nat, k: nat, spins: nat)
    requires t < |s.threads| && s.threads[t] == TryLoad(r, got) && got <= r.max && k >= 2
    requires s.count > 0 || got > 0 || r.max == 0 || r.mode == Try
    ensures var more := AtMost(r.max - got, s.count);
      Run(s, Alone(t, k), spins) == Ended(s, t, r, got + more, more)
  {
    var end := Ended(s, t, r, got + AtMost(r.max - got, s.count), AtMost(r.max - got, s.count));
    if s.count > 0 {
      var s1 := Goto(s, t, TryCas(r, got, s.count));
      assert Next(s, Advance(t, true), spins) == s1;
      assert Next(s1, Advance(t, true), spins) == end;
      hide Next;
      AloneStep(s1, t, k - 1, spins);
      AloneStep(s, t, k, spins);
      AloneRests(end, t, k - 2, spins);
    } else {
      assert Next(s, Advance(t, true), spins) == end;
      hide Next;
      AloneStep(s, t, k, spins);
      AloneRests(end, t, k - 1, spins);
    }
  }

  /** A permit from the slow path is followed by what more there is. */
  lemma LoneGotOne(s: State, t: nat, r: Request, k: nat, spins: nat)
    requires t < |s.threads| && s.threads[t] == GotOne(r) && r.max > 0 && k >= 2
    ensures var more := AtMost(r.max - 1, s.count);
      Run(s, Alone(t, k), spins) == Ended(s, t, r, 1 + more, more)
  {
    if r.max > 1 {
      LoneTry(s, t, r, 1, k, spins);
    } else {
      assert Ended(s, t, r, 1, 0) == s;
      AloneRests(s, t, k, spins);
    }
  }

  /** What a waiter ends with when it takes a token: that permit, and more from the count. */
  function Woken(s: State, t: nat, r: Request): State
    requires t < |s.threads| && s.tokens > 0 && r.max > 0
  {
    var more := AtMost(r.max - 1, s.count);
    Ended(s.(tokens := s.tokens - 1, acquired := s.acquired + 1), t, r, 1 + more, more)
  }

  lemma TakesToken(s: State, t: nat, k: nat, spins: nat)
    requires t < |s.threads| && s.tokens > 0 && CallSound(s.threads[t]) && k >= 3
    requires s.threads[t].Sleeping? || s.threads[t].TryToken?
    ensures Run(s, Alone(t, k), spins) == Woken(s, t, s.threads[t].r)
  {
    var r := s.threads[t].r;
    var s1 := Goto(s.(tokens := s.tokens - 1, acquired := s.acquired + 1), t, GotOne(r));
    assert Next(s, Advance(t, true), spins) == s1;
    LoneGotOne(s1, t, r, k - 1, spins);
    hide Next;
    AloneStep(s, t, k, spins);
    var more := AtMost(r.max - 1, s.count);
    assert Ended(s1, t, r, 1 + more, more) == Woken(s, t, r);
  }

  /** A waiter that has given up the OS wait looks at the count again. */
  lemma LoneTimedOut(s: State, t: nat, k: nat, spins: nat)
    requires t < |s.threads| && s.threads[t].TimedOut? && CallSound(s.threads[t]) && k >= 4
    requires s.count >= 0 ==> s.tokens > 0
    ensures var r := s.threads[t].r;
      Run(s, Alone(t, k), spins)
      == if s.count >= 0 then Woken(s, t, r) else Goto(s.(count := s.count + 1), t, Finished(r, 0))
  {
    var r := s.threads[t].r;
    if s.count >= 0 {
      var s1 := Goto(s, t, TryToken(r));
      assert Next(s, Advance(t, true), spins) == s1;
      TakesToken(s1, t, k - 1, spins);
      hide Next;
      AloneStep(s, t, k, spins);
      assert Woken(s1, t, r) == Woken(s, t, r);
    } else {
      var s1, s2 := Goto(s, t, GiveBack(r, s.count)), Goto(s.(count := s.count + 1), t, Finished(r, 0));
      assert Next(s, Advance(t, true), spins) == s1;
      assert Next(s1, Advance(t, true), spins) == s2;
      hide Next;
      AloneStep(s, t, k, spins);
      AloneStep(s1, t, k - 1, spins);
      AloneRests(s2, t, k - 2, spins);
    }
  }

  /** A waiter with a token posted for it, advancing alone, takes the token and then as
      many more permits as it wants and the count has. Only one that has given up the OS
      wait and still finds the count negative returns without: it gives its place back. */
  lemma LoneWaiter(s: State, t: nat, k: nat, spins: nat)
    requires Inv(s) && t < |s.threads| && Waiting(s.threads[t]) == 1 && k >= 5
    requires s.tokens > 0 || (s.count < 0 && (s.threads[t].TimedOut? || s.threads[t].GiveBack?))
    ensures var s' := Run(s, Alone(t, k), spins); var pc := s.threads[t];
      if pc.Sleeping? || pc.TryToken? || s.count >= 0 then
        var more := AtMost(pc.r.max - 1, s.count);
        s' == s.(tokens := s.tokens - 1, count := s.count - more, acquired := s.acquired + 1 + more,
                 threads := s.threads[t := Finished(pc.r, 1 + more)])
      else s' == s.(count := s.count + 1, threads := s.threads[t := Finished(pc.r, 0)])
  {
    assert CallSound(s.threads[t]);
    hide Run, Next, CallSound, Inv;
    match s.threads[t]
    case Sleeping(r) => TakesToken(s, t, k, spins);
    case TryToken(r) => TakesToken(s, t, k, spins);
    case TimedOut(r) => LoneTimedOut(s, t, k, spins);
    case GiveBack(r, seen) => LoneGiveBack(s, t, k, spins);
  }

  lemma LoneGiveBack(s: State, t: nat, k: nat, spins: nat)
    requires t < |s.threads| && s.threads[t].GiveBack? && CallSound(s.threads[t]) && k >= 5
    requires s.count >= 0 ==> s.tokens > 0
    ensures var r := s.threads[t].r;
      Run(s, Alone(t, k), spins)
      == if s.count >= 0 then Woken(s, t, r) else Goto(s.(count := s.count + 1), t, Finished(r, 0))
  {
    var GiveBack(r, seen) := s.threads[t];
    AloneStep(s, t, k, spins);
    if s.count == seen {
      var s1 := Goto(s.(count := s.count + 1), t, Finished(r, 0));
      assert Next(s, Advance(t, true), spins) == s1;
      hide Next;
      AloneRests(s1, t, k - 1, spins);
    } else {
      var s1 := Goto(s, t, TimedOut(r));
      assert Next(s, Advance(t, true), spins) == s1;
      LoneTimedOut(s1, t, k - 1, spins);
    }
  }

  ghost predicate Quiescent(s: State) {
    forall u | 0 <= u < |s.threads| :: s.threads[u] == Idle
  }

  lemma QuiescentCount(s: State)
    requires Inv(s) && Quiescent(s)
    ensures s.count >= 0 && s.tokens == 0
  {
    SumZero(Waiting, s.threads);
    SumZero(Owed, s.threads);
  }

  /** A call with nobody else at work takes min(max, count) permits at once if there are
      any or it does not want to wait; otherwise it goes to sleep, owed one permit. */
  lemma LoneWait(s: State, t: nat, r: Request, k: nat, spins: nat)
    requires Inv(s) && Quiescent(s) && t < |s.threads| && k >= spins + 3
    ensures var s' := Run(Next(s, Wait(t, r), spins), Alone(t, k), spins);
      if s.count > 0 || r.mode == Try || r.max == 0 then
        var got := AtMost(r.max, s.count);
        s' == s.(count := s.count - got, acquired := s.acquired + got, threads := s.threads[t := Finished(r, got)])
      else s' == s.(count := -1, threads := s.threads[t := Sleeping(r)])
  {
    QuiescentCount(s);
    var s1 := Goto(s, t, TryLoad(r, 0));
    assert Next(s, Wait(t, r), spins) == s1;
    if s.count > 0 || r.mode == Try || r.max == 0 {
      hide Next;
      LoneTry(s1, t, r, 0, k, spins);
    } else {
      var s2 := Goto(s, t, SpinLoad(r, spins));
      assert Next(s1, Advance(t, true), spins) == s2;
      hide Next;
      AloneStep(s1, t, k, spins);
      LoneSpin(s2, t, r, spins, k - 1, spins);
    }
  }

  /** Spinning finds nothing; then the count is decremented. */
  lemma {:induction false} LoneSpin(s: State, t: nat, r: Request, left: nat, k: nat, spins: nat)
    requires t < |s.threads| && s.threads[t] == SpinLoad(r, left) && s.count == s.tokens == 0 && k >= left + 2
    ensures Run(s, Alone(t, k), spins) == Goto(s.(count := -1), t, Sleeping(r))
    decreases left
  {
    AloneStep(s, t, k, spins);
    if left == 0 {
      var s1, s2 := Goto(s, t, Decrement(r)), Goto(s.(count := -1), t, Sleeping(r));
      assert Next(s, Advance(t, true), spins) == s1;
      assert Next(s1, Advance(t, true), spins) == s2;
      hide Next;
      AloneStep(s1, t, k - 1, spins);
      AloneRests(s2, t, k - 2, spins);
    } else {
      assert Next(s, Advance(t, true), spins) == Goto(s, t, SpinLoad(r, left - 1));
      LoneSpin(Goto(s, t, SpinLoad(r, left - 1)), t, r, left - 1, k - 1, spins);
    }
  }

  /** A call in the middle of its spinning, with permits there, takes as many as it wants
      and there are, also if the count has changed since it looked. */
  lemma LoneSpinner(s: State, t: nat, k: nat, spins: nat)
    requires t < |s.threads| && CallSound(s.threads[t]) && s.count > 0 && k >= 5
    requires s.threads[t].SpinLoad? || s.threads[t].SpinCas? || s.threads[t].Decrement?
    ensures var r := s.threads[t].r; var got := AtMost(r.max, s.count);
      Run(s, Alone(t, k), spins) == Ended(s, t, r, got, got)
  {
    hide Next, Run, Alone;
    var r := s.threads[t].r;
    match s.threads[t]
    case Decrement(_) => LoneDecrement(s, t, k, spins);
    case SpinLoad(_, _) => LoneSpinLoad(s, t, k, spins);
    case SpinCas(_, left, seen) =>
      if s.count == seen {
        SpinTakes(s, t, k, spins);
      } else {
        var s1 := Goto(s, t, SpinLoad(r, left));
        SpinRetries(s, t, spins);
        AloneStep(s, t, k, spins);
        LoneSpinLoad(s1, t, k - 1, spins);
        var got := AtMost(r.max, s.count);
        assert s1.threads[t := Finished(r, got)] == s.threads[t := Finished(r, got)];
      }
  }

  lemma SpinRetries(s: State, t: nat, spins: nat)
    requires t < |s.threads| && s.threads[t].SpinCas? && s.count != s.threads[t].seen
    ensures Next(s, Advance(t, true), spins) == Goto(s, t, SpinLoad(s.threads[t].r, s.threads[t].spins))
  {
  }

  lemma SpinTakes(s: State, t: nat, k: nat, spins: nat)
    requires t < |s.threads| && s.threads[t].SpinCas? && s.count == s.threads[t].seen > 0 && k >= 1
    ensures var r := s.threads[t].r; var got := AtMost(r.max, s.count);
      Run(s, Alone(t, k), spins) == Ended(s, t, r, got, got)
  {
    var r := s.threads[t].r;
    var got := AtMost(r.max, s.count);
    assert Next(s, Advance(t, true), spins) == Ended(s, t, r, got, got);
    hide Next;
    AloneStep(s, t, k, spins);
    AloneRests(Ended(s, t, r, got, got), t, k - 1, spins);
  }

  lemma LoneSpinLoad(s: State, t: nat, k: nat, spins: nat)
    requires t < |s.threads| && CallSound(s.threads[t]) && s.count > 0 && s.threads[t].SpinLoad? && k >= 4
    ensures var r := s.threads[t].r; var got := AtMost(r.max, s.count);
      Run(s, Alone(t, k), spins) == Ended(s, t, r, got, got)
  {
    var SpinLoad(r, left) := s.threads[t];
    var got := AtMost(r.max, s.count);
    AloneStep(s, t, k, spins);
    var pc := if left == 0 then Decrement(r) else SpinCas(r, left - 1, s.count);
    assert Next(s, Advance(t, true), spins) == Goto(s, t, pc);
    hide Next;
    if left == 0 {
      LoneDecrement(Goto(s, t, pc), t, k - 1, spins);
    } else {
      SpinTakes(Goto(s, t, pc), t, k - 1, spins);
    }
    assert s.threads[t := pc][t := Finished(r, got)] == s.threads[t := Finished(r, got)];
  }

  lemma LoneDecrement(s: State, t: nat, k: nat, spins: nat)
    requires t < |s.threads| && CallSound(s.threads[t]) && s.count > 0 && s.threads[t].Decrement? && k >= 3
    ensures var r := s.threads[t].r; var got := AtMost(r.max, s.count);
      Run(s, Alone(t, k), spins) == Ended(s, t, r, got, got)
  {
    var r := s.threads[t].r;
    var s1 := Goto(s.(count := s.count - 1, acquired := s.acquired + 1), t, GotOne(r));
    assert Next(s, Advance(t, true), spins) == s1;
    hide Next;
    AloneStep(s, t, k, spins);
    LoneGotOne(s1, t, r, k - 1, spins);
    var got := AtMost(r.max, s.count);
    assert s1.threads[t := Finished(r, got)] == s.threads[t := Finished(r, got)];
  }

  /** A signal with nobody else at work raises the count by n and posts a token for each
      sleeper it makes up for. */
  lemma LoneSignal(s: State, t: nat, n: nat, k: nat, spins: nat)
    requires t < |s.threads| && s.threads[t] == Idle && k >= n + 2
    ensures Run(Next(s, Signal(t, n), spins), Alone(t, k), spins)
         == s.(count := s.count + n, supplied := s.supplied + n, tokens := s.tokens + AtMost(n, 0 - s.count))
  {
    var s1 := Goto(s, t, Increment(n));
    var s2 := Goto(s.(count := s.count + n, supplied := s.supplied + n), t, Posting(AtMost(n, 0 - s.count)));
    assert Next(s, Signal(t, n), spins) == s1;
    assert Next(s1, Advance(t, true), spins) == s2;
    hide Next;
    AloneStep(s1, t, k, spins);
    LonePosts(s2, t, AtMost(n, 0 - s.count), k - 1, spins);
    assert s2.threads[t := Idle] == s.threads;
  }

  lemma {:induction false} LonePosts(s: State, t: nat, owed: nat, k: nat, spins: nat)
    requires t < |s.threads| && s.threads[t] == Posting(owed) && k >= owed + 1
    ensures Run(s, Alone(t, k), spins) == Goto(s.(tokens := s.tokens + owed), t, Idle)
    decreases owed
  {
    AloneStep(s, t, k, spins);
    var s1 := Next(s, Advance(t, true), spins);
    if owed == 0 {
      AloneRests(s1, t, k - 1, spins);
    } else {
      LonePosts(s1, t, owed - 1, k - 1, spins);
    }
  }

  /** A sleeper is woken by the next signal: a call on a count of zero that waits, then a
      signal of n > 0, and the call ends with min(max, n) permits. */
  lemma SignalWakes(s: State, t: nat, r: Request, u: nat, n: nat, k: nat, spins: nat)
    requires Inv(s) && Quiescent(s) && s.count == 0 && t < |s.threads| && u < |s.threads| && t != u
    requires r.max > 0 && r.mode != Try && n > 0 && k >= spins + 5 && k >= n + 2
    ensures var asleep := Run(Next(s, Wait(t, r), spins), Alone(t, k), spins);
            var signalled := Run(Next(asleep, Signal(u, n), spins), Alone(u, k), spins);
            var s' := Run(signalled, Alone(t, k), spins); var got := AtMost(r.max, n);
      && s'.threads == s.threads[t := Finished(r, got)] && s'.count == n - got && s'.tokens == 0
      && s'.supplied == s.supplied + n && s'.acquired == s.acquired + got
  {
    QuiescentCount(s);
    LoneWait(s, t, r, k, spins);
    var asleep := s.(count := -1, threads := s.threads[t := Sleeping(r)]);
    LoneSignal(asleep, u, n, k, spins);
    var signalled := asleep.(count := n - 1, supplied := s.supplied + n, tokens := 1);
    hide Run, Next;
    TakesToken(signalled, t, k, spins);
  }
}
