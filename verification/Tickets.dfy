/** The consumer ticket protocol of one producer's sub-queue.

    Consumers take tickets from an optimistic count and decide each ticket against
    the tail; refused tickets are paid back through an overcommit count, granted
    ones advance the head. Every action below is one access to one shared counter,
    made by the single producer or by any of the consumers, in any order.

    Single dequeue is bulk dequeue with max == 1: its guard
    optimistic - overcommit < tail says the desired count is positive, so one ticket
    is taken, and my - overcommit < tail says that ticket is granted. Counters are
    unbounded here; MachineGuards shows what the stored words decide. */
module Tickets {
  import opened Basics
  import opened Sums
  import Circular

  /** Where a consumer stands between two shared accesses. */
  datatype Pc =
    | Idle
    | SawTail(max: nat, tail: nat)
    | SawOvercommit(max: nat, tail: nat, over: nat)
    | Ready(n: nat, over: nat)              // first guard passed, n tickets wanted
    | Ticketed(my: nat, n: nat, over: nat)  // owns tickets my .. my + n, undecided
    | Refunding(k: nat, first: nat, refused: nat)  // k granted; refused ones from first on to pay back
    | Granted(k: nat)                       // k elements granted, head not yet advanced

  /** What became of a ticket: still a consumer's, granted, or refused and refunded. */
  datatype Fate = HeldBy(t: nat) | Won | Refused

  /** The shared counters, with their history. items are all elements ever published
      (the tail is their number), claims[i] is the consumer that claimed index i (the
      head is their number), fates[j] is what became of ticket j so far, and received[t]
      is what consumer t has taken out. */
  datatype State<T> = State(
    items: seq<T>, claims: seq<nat>, opt: nat, over: nat,
    threads: seq<Pc>, fates: seq<Fate>, received: seq<seq<T>>)

  datatype Action<T> =
    | Publish(xs: seq<T>)        // the producer's store to the tail index
    | Begin(t: nat, max: nat)    // a consumer calls dequeue (max == 1) or dequeue_bulk
    | Advance(t: nat)            // that consumer's next shared access

  function Init<T>(consumers: nat): State<T> {
    State([], [], 0, 0, seq(consumers, _ => Idle), [], seq(consumers, _ => []))
  }

  /** fates with the tickets lo .. hi settled as f. */
  function Settle(fates: seq<Fate>, lo: nat, hi: nat, f: Fate): (r: seq<Fate>)
    ensures |r| == |fates|
    ensures forall j | 0 <= j < |fates| :: r[j] == if lo <= j < hi then f else fates[j]
  {
    seq(|fates|, j requires 0 <= j < |fates| => if lo <= j < hi then f else fates[j])
  }

  /** One shared access. An action that is not enabled changes nothing. */
  function Next<T>(s: State<T>, a: Action<T>): State<T> {
    match a
    case Publish(xs) => s.(items := s.items + xs)
    case Begin(t, max) =>
      if t < |s.threads| && s.threads[t] == Idle
      then s.(threads := s.threads[t := SawTail(max, |s.items|)]) else s
    case Advance(t) => if t < |s.threads| && t < |s.received| then Access(s, t) else s
  }

  function Access<T>(s: State<T>, t: nat): State<T>
    requires t < |s.threads| && t < |s.received|
  {
    match s.threads[t]
    case Idle => s
    case SawTail(max, tail) => s.(threads := s.threads[t := SawOvercommit(max, tail, s.over)])
    case SawOvercommit(max, tail, over) =>
      // load of the optimistic count
      var desired := tail - (s.opt - over);
      s.(threads := s.threads[t := if desired > 0 then Ready(Min(desired, max), over) else Idle])
    case Ready(n, over) =>
      // fetch_add on the optimistic count
      s.(opt := s.opt + n, fates := s.fates + seq(n, _ => HeldBy(t)),
         threads := s.threads[t := Ticketed(s.opt, n, over)])
    case Ticketed(my, n, over) =>
      // second load of the tail decides all n tickets
      var k := Grants(|s.items|, my, n, over);
      s.(fates := Settle(s.fates, my, my + k, Won), threads := s.threads[t := Decided(|s.items|, my, n, over)])
    case Refunding(k, first, refused) =>
      // fetch_add on the overcommit count
      s.(over := s.over + refused, fates := Settle(s.fates, first, first + refused, Refused),
         threads := s.threads[t := if k > 0 then Granted(k) else Idle])
    case Granted(k) =>
      // fetch_add on the head index; the claimed elements are then this consumer's
      var head := |s.claims|;
      var taken := if head + k <= |s.items| then s.items[head .. head + k] else [];
      s.(claims := s.claims + seq(k, _ => t),
         received := s.received[t := s.received[t] + taken],
         threads := s.threads[t := Idle])
  }

  /** How many of its n tickets a consumer may keep, seeing this tail. */
  function Grants(tail: nat, my: nat, n: nat, over: nat): (k: nat)
    ensures k <= n && (k > 0 ==> my + k - over <= tail)
  {
    if my - over < tail then Min(n, tail - (my - over)) else 0
  }

  function Decided(tail: nat, my: nat, n: nat, over: nat): Pc {
    var k := Grants(tail, my, n, over);
    if my - over < tail && k == n then Granted(k) else Refunding(k, my + k, n - k)
  }

  function Run<T>(s: State<T>, actions: seq<Action<T>>): State<T>
    decreases |actions|
  {
    if actions == [] then s else Run(Next(s, actions[0]), actions[1..])
  }

  // ---- the invariant ----

  function Unclaimed(pc: Pc): nat {
    match pc
    case Refunding(k, _, _) => k
    case Granted(k) => k
    case _ => 0
  }

  function Undecided(pc: Pc): nat {
    match pc
    case Ticketed(_, n, _) => n
    case Refunding(_, _, refused) => refused
    case _ => 0
  }

  /** How many of the first j tickets have met fate f. */
  function Count(fates: seq<Fate>, f: Fate, j: nat): (c: nat)
    requires j <= |fates|
  {
    if j == 0 then 0 else Count(fates, f, j - 1) + if fates[j - 1] == f then 1 else 0
  }

  /** The tickets lo .. hi are thread t's, still to be settled. */
  ghost predicate Holds(fates: seq<Fate>, t: nat, lo: nat, hi: nat) {
    hi <= |fates| && forall j | lo <= j < hi :: fates[j] == HeldBy(t)
  }

  ghost predicate HoldsOwn(fates: seq<Fate>, t: nat, pc: Pc) {
    match pc
    case Ticketed(my, n, _) => Holds(fates, t, my, my + n)
    case Refunding(_, first, refused) => Holds(fates, t, first, first + refused)
    case _ => true
  }

  /** What a consumer's stale reading of the overcommit count is still good for: at
      least that many refused tickets lie below its own. */
  ghost predicate ReadingSound(fates: seq<Fate>, total: nat, pc: Pc) {
    match pc
    case SawOvercommit(_, _, over) => over <= total
    case Ready(_, over) => over <= total
    case Ticketed(my, _, over) => my <= |fates| && over <= Count(fates, Refused, my)
    case _ => true
  }

  ghost predicate ThreadsSound(fates: seq<Fate>, total: nat, threads: seq<Pc>) {
    forall t | 0 <= t < |threads| :: HoldsOwn(fates, t, threads[t]) && ReadingSound(fates, total, threads[t])
  }

  /** A granted ticket leaves room for every refused ticket below it. */
  ghost predicate GrantsJustified(fates: seq<Fate>, tail: nat) {
    forall j | 0 <= j < |fates| && fates[j] == Won :: j + 1 <= tail + Count(fates, Refused, j)
  }

  ghost predicate Counted(fates: seq<Fate>, head: nat, over: nat, threads: seq<Pc>) {
    && Count(fates, Refused, |fates|) == over
    && Count(fates, Won, |fates|) == head + Sum(Unclaimed, threads)
    && |fates| == head + Sum(Unclaimed, threads) + over + Sum(Undecided, threads)
  }

  /** Each consumer has received exactly the elements at the indices it claimed. */
  ghost predicate Delivered<T>(items: seq<T>, claims: seq<nat>, received: seq<seq<T>>) {
    && |claims| <= |items|
    && (forall i | 0 <= i < |claims| :: claims[i] < |received|)
    && (forall t | 0 <= t < |received| :: received[t] == Share(items[..|claims|], claims, t))
  }

  /** The elements of xs whose index is claimed by t, in index order. */
  function Share<T>(xs: seq<T>, claims: seq<nat>, t: nat): seq<T>
    requires |xs| == |claims|
  {
    if xs == [] then []
    else Share(xs[..|xs| - 1], claims[..|xs| - 1], t)
         + if claims[|xs| - 1] == t then [xs[|xs| - 1]] else []
  }

  ghost predicate Inv<T>(s: State<T>) {
    && s.opt == |s.fates| && |s.received| == |s.threads|
    && ThreadsSound(s.fates, s.over, s.threads)
    && GrantsJustified(s.fates, |s.items|)
    && Counted(s.fates, |s.claims|, s.over, s.threads)
    && Delivered(s.items, s.claims, s.received)
  }

  // ---- counting fates ----

  lemma {:induction false} CountAppend(fates: seq<Fate>, more: seq<Fate>, f: Fate, j: nat)
    requires j <= |fates|
    ensures Count(fates + more, f, j) == Count(fates, f, j)
  {
    if j > 0 {
      CountAppend(fates, more, f, j - 1);
    }
  }

  lemma {:induction false} CountTaken(fates: seq<Fate>, t: nat, n: nat, f: Fate, j: nat)
    requires f != HeldBy(t) && j <= n
    ensures Count(fates + seq(n, _ => HeldBy(t)), f, |fates| + j) == Count(fates, f, |fates|)
  {
    if j == 0 {
      CountAppend(fates, seq(n, _ => HeldBy(t)), f, |fates|);
    } else {
      CountTaken(fates, t, n, f, j - 1);
    }
  }

  /** Settling tickets as f adds the settled ones to the count of f and leaves the
      count of the other outcome alone. */
  lemma {:induction false} CountSettled(fates: seq<Fate>, t: nat, lo: nat, hi: nat, f: Fate, g: Fate, j: nat)
    requires lo <= hi && Holds(fates, t, lo, hi) && j <= |fates|
    requires !f.HeldBy? && !g.HeldBy? && f != g
    ensures Count(Settle(fates, lo, hi, f), g, j) == Count(fates, g, j)
    ensures Count(Settle(fates, lo, hi, f), f, j)
         == Count(fates, f, j) + if j <= lo then 0 else if j <= hi then j - lo else hi - lo
  {
    if j > 0 {
      CountSettled(fates, t, lo, hi, f, g, j - 1);
    }
  }

  /** All tickets below j are of at most one fate each. */
  lemma {:induction false} CountTwo(fates: seq<Fate>, j: nat)
    requires j <= |fates|
    ensures Count(fates, Won, j) + Count(fates, Refused, j) <= j
  {
    if j > 0 {
      CountTwo(fates, j - 1);
    }
  }

  lemma {:induction false} CountGrows(fates: seq<Fate>, f: Fate, i: nat, j: nat)
    requires i <= j <= |fates|
    ensures Count(fates, f, i) <= Count(fates, f, j)
    decreases j
  {
    if i < j {
      CountGrows(fates, f, i, j - 1);
    }
  }

  /** The heart of the protocol: grants never outnumber published elements. The last
      granted ticket leaves room for the refused tickets below it, and all granted
      tickets lie at or below it. */
  lemma {:induction false} GrantsAtMostItems(fates: seq<Fate>, tail: nat, j: nat)
    requires j <= |fates| && GrantsJustified(fates, tail)
    ensures Count(fates, Won, j) <= tail
  {
    if j > 0 {
      if fates[j - 1] == Won {
        CountTwo(fates, j - 1);
      } else {
        GrantsAtMostItems(fates, tail, j - 1);
      }
    }
  }

  // ---- preservation ----

  lemma SumsMove(threads: seq<Pc>, t: nat, pc: Pc)
    requires t < |threads|
    ensures Sum(Unclaimed, threads[t := pc]) + Unclaimed(threads[t]) == Sum(Unclaimed, threads) + Unclaimed(pc)
    ensures Sum(Undecided, threads[t := pc]) + Undecided(threads[t]) == Sum(Undecided, threads) + Undecided(pc)
  {
    SumUpdate(Unclaimed, threads, t, pc);
    SumUpdate(Undecided, threads, t, pc);
  }

  lemma {:induction false} ShareStep<T>(xs: seq<T>, claims: seq<nat>, t: nat, more: seq<T>, owner: nat)
    requires |xs| == |claims|
    ensures Share(xs + more, claims + seq(|more|, _ => owner), t)
         == Share(xs, claims, t) + if t == owner then more else []
    decreases |more|
  {
    if more == [] {
      assert xs + more == xs && claims + seq(|more|, _ => owner) == claims;
    } else {
      var fewer := more[..|more| - 1];
      var ys, cs := xs + more, claims + seq(|more|, _ => owner);
      assert ys[..|ys| - 1] == xs + fewer;
      assert cs[..|ys| - 1] == claims + seq(|fewer|, _ => owner);
      ShareStep(xs, claims, t, fewer, owner);
      assert more == fewer + [more[|more| - 1]];
    }
  }

  lemma HoldsAfterSettle(fates: seq<Fate>, t: nat, lo: nat, hi: nat, f: Fate, u: nat, a: nat, b: nat)
    requires Holds(fates, t, lo, hi) && Holds(fates, u, a, b) && (u != t || b <= lo || hi <= a)
    ensures Holds(Settle(fates, lo, hi, f), u, a, b)
  {
    forall j | a <= j < b ensures Settle(fates, lo, hi, f)[j] == HeldBy(u) {
      assert fates[j] == HeldBy(u);
    }
  }

  /** Settling the tickets of thread t leaves every other thread's knowledge sound. */
  lemma ThreadsAfterSettle(fates: seq<Fate>, total: nat, threads: seq<Pc>, t: nat, lo: nat, hi: nat, f: Fate,
                           total': nat, pc: Pc)
    requires ThreadsSound(fates, total, threads) && t < |threads| && lo <= hi && Holds(fates, t, lo, hi)
    requires !f.HeldBy? && total <= total'
    requires HoldsOwn(Settle(fates, lo, hi, f), t, pc) && ReadingSound(Settle(fates, lo, hi, f), total', pc)
    ensures ThreadsSound(Settle(fates, lo, hi, f), total', threads[t := pc])
  {
    var fates' := Settle(fates, lo, hi, f);
    forall u | 0 <= u < |threads| && u != t
      ensures HoldsOwn(fates', u, threads[u]) && ReadingSound(fates', total', threads[u])
    {
      assert HoldsOwn(fates, u, threads[u]) && ReadingSound(fates, total, threads[u]);
      match threads[u]
      case Ticketed(my, n, _) =>
        RefusedAfterSettle(fates, t, lo, hi, f, my);
        HoldsAfterSettle(fates, t, lo, hi, f, u, my, my + n);
      case Refunding(_, first, refused) =>
        HoldsAfterSettle(fates, t, lo, hi, f, u, first, first + refused);
      case _ =>
    }
  }

  lemma RefusedAfterSettle(fates: seq<Fate>, t: nat, lo: nat, hi: nat, f: Fate, j: nat)
    requires lo <= hi && Holds(fates, t, lo, hi) && j <= |fates| && !f.HeldBy?
    ensures Count(fates, Refused, j) <= Count(Settle(fates, lo, hi, f), Refused, j)
  {
    CountSettled(fates, t, lo, hi, f, if f == Won then Refused else Won, j);
  }

  /** Settling keeps the granted tickets justified, if the new ones are. */
  lemma GrantsAfterSettle(fates: seq<Fate>, tail: nat, t: nat, lo: nat, hi: nat, f: Fate)
    requires GrantsJustified(fates, tail) && lo <= hi && Holds(fates, t, lo, hi) && !f.HeldBy?
    requires f == Won && lo < hi ==> hi <= tail + Count(fates, Refused, lo)
    ensures GrantsJustified(Settle(fates, lo, hi, f), tail)
  {
    var fates' := Settle(fates, lo, hi, f);
    forall j | 0 <= j < |fates'| && fates'[j] == Won
      ensures j + 1 <= tail + Count(fates', Refused, j)
    {
      RefusedAfterSettle(fates, t, lo, hi, f, j);
      if lo <= j < hi {
        CountGrows(fates, Refused, lo, j);
      }
    }
  }

  lemma CountsAfterSettle(fates: seq<Fate>, head: nat, over: nat, threads: seq<Pc>, t: nat, lo: nat, hi: nat, f: Fate,
                          pc: Pc)
    requires Counted(fates, head, over, threads) && t < |threads|
    requires lo <= hi && Holds(fates, t, lo, hi) && !f.HeldBy?
    requires Undecided(threads[t]) == Undecided(pc) + hi - lo
    requires Unclaimed(pc) == Unclaimed(threads[t]) + if f == Won then hi - lo else 0
    ensures Counted(Settle(fates, lo, hi, f), head, if f == Refused then over + hi - lo else over, threads[t := pc])
  {
    SumsMove(threads, t, pc);
    CountSettled(fates, t, lo, hi, f, if f == Won then Refused else Won, |fates|);
  }

  /** Accesses that only read, or only move the consumer between reading points. */
  lemma LocalStep<T>(s: State<T>, t: nat, pc: Pc)
    requires Inv(s) && t < |s.threads|
    requires HoldsOwn(s.fates, t, pc) && ReadingSound(s.fates, s.over, pc)
    requires Unclaimed(s.threads[t]) == Unclaimed(pc) && Undecided(s.threads[t]) == Undecided(pc)
    ensures Inv(s.(threads := s.threads[t := pc]))
  {
    SumsMove(s.threads, t, pc);
  }

  lemma TakeTicketsStep<T>(s: State<T>, t: nat)
    requires Inv(s) && t < |s.threads| && s.threads[t].Ready?
    ensures Inv(Access(s, t))
  {
    var n, over := s.threads[t].n, s.threads[t].over;
    var more := seq(n, _ => HeldBy(t));
    var fates' := s.fates + more;
    SumsMove(s.threads, t, Ticketed(s.opt, n, over));
    CountTaken(s.fates, t, n, Won, n);
    CountTaken(s.fates, t, n, Refused, n);
    forall f, j: nat | j <= |s.fates| ensures Count(fates', f, j) == Count(s.fates, f, j) {
      CountAppend(s.fates, more, f, j);
    }
    assert ThreadsSound(fates', s.over, s.threads[t := Ticketed(s.opt, n, over)]) by {
      assert ReadingSound(s.fates, s.over, s.threads[t]);
      forall u | 0 <= u < |s.threads| && u != t
        ensures HoldsOwn(fates', u, s.threads[u]) && ReadingSound(fates', s.over, s.threads[u])
      {
        assert HoldsOwn(s.fates, u, s.threads[u]) && ReadingSound(s.fates, s.over, s.threads[u]);
      }
    }
  }

  /** Thread t settles the tickets lo .. hi it holds, all with the same fate. */
  lemma SettleInv<T>(s: State<T>, t: nat, lo: nat, hi: nat, f: Fate, pc: Pc, s': State<T>)
    requires Inv(s) && t < |s.threads| && lo <= hi && Holds(s.fates, t, lo, hi) && !f.HeldBy?
    requires Undecided(s.threads[t]) == Undecided(pc) + hi - lo
    requires Unclaimed(pc) == Unclaimed(s.threads[t]) + if f == Won then hi - lo else 0
    requires f == Won && lo < hi ==> hi <= |s.items| + Count(s.fates, Refused, lo)
    requires s' == s.(fates := Settle(s.fates, lo, hi, f), threads := s.threads[t := pc],
                      over := if f == Refused then s.over + hi - lo else s.over)
    requires HoldsOwn(s'.fates, t, pc) && ReadingSound(s'.fates, s'.over, pc)
    ensures Inv(s')
  {
    GrantsAfterSettle(s.fates, |s.items|, t, lo, hi, f);
    CountsAfterSettle(s.fates, |s.claims|, s.over, s.threads, t, lo, hi, f, pc);
    ThreadsAfterSettle(s.fates, s.over, s.threads, t, lo, hi, f, s'.over, pc);
  }

  lemma DecideStep<T>(s: State<T>, t: nat)
    requires Inv(s) && t < |s.threads| && s.threads[t].Ticketed?
    ensures Inv(Access(s, t))
  {
    var Ticketed(my, n, over) := s.threads[t];
    var k, pc := Grants(|s.items|, my, n, over), Decided(|s.items|, my, n, over);
    assert HoldsOwn(s.fates, t, s.threads[t]) && ReadingSound(s.fates, s.over, s.threads[t]);
    assert HoldsOwn(Settle(s.fates, my, my + k, Won), t, pc) by {
      assert Holds(s.fates, t, my, my + k) && Holds(s.fates, t, my + k, my + n);
      HoldsAfterSettle(s.fates, t, my, my + k, Won, t, my + k, my + n);
    }
    SettleInv(s, t, my, my + k, Won, pc, Access(s, t));
  }

  lemma RefundStep<T>(s: State<T>, t: nat)
    requires Inv(s) && t < |s.threads| && s.threads[t].Refunding?
    ensures Inv(Access(s, t))
  {
    var Refunding(k, first, refused) := s.threads[t];
    assert HoldsOwn(s.fates, t, s.threads[t]);
    SettleInv(s, t, first, first + refused, Refused, Access(s, t).threads[t], Access(s, t));
  }

  lemma DeliverMore<T>(items: seq<T>, claims: seq<nat>, received: seq<seq<T>>, t: nat, k: nat)
    requires Delivered(items, claims, received) && t < |received| && |claims| + k <= |items|
    ensures Delivered(items, claims + seq(k, _ => t), received[t := received[t] + items[|claims| .. |claims| + k]])
  {
    var head := |claims|;
    var more := items[head .. head + k];
    var claims' := claims + seq(k, _ => t);
    var received' := received[t := received[t] + more];
    assert items[..|claims'|] == items[..head] + more;
    assert claims' == claims + seq(|more|, _ => t);
    forall u | 0 <= u < |received|
      ensures received'[u] == Share(items[..|claims'|], claims', u)
    {
      ShareStep(items[..head], claims, u, more, t);
    }
    forall i | 0 <= i < |claims'| ensures claims'[i] < |received| {
    }
  }

  lemma ClaimStep<T>(s: State<T>, t: nat)
    requires Inv(s) && t < |s.threads| && s.threads[t].Granted?
    ensures |s.claims| + s.threads[t].k <= |s.items|
    ensures Inv(Access(s, t))
  {
    SumsMove(s.threads, t, Idle);
    SumEntry(Unclaimed, s.threads, t);
    GrantsAtMostItems(s.fates, |s.items|, |s.fates|);
    DeliverMore(s.items, s.claims, s.received, t, s.threads[t].k);
  }

  lemma PublishStep<T>(s: State<T>, xs: seq<T>)
    requires Inv(s)
    ensures Inv(Next(s, Publish(xs)))
  {
    assert (s.items + xs)[..|s.claims|] == s.items[..|s.claims|];
  }

  lemma InvStep<T>(s: State<T>, a: Action<T>)
    requires Inv(s)
    ensures Inv(Next(s, a))
  {
    match a
    case Publish(xs) => PublishStep(s, xs);
    case Begin(t, max) =>
      if t < |s.threads| && s.threads[t] == Idle {
        LocalStep(s, t, SawTail(max, |s.items|));
      }
    case Advance(t) =>
      if t < |s.threads| {
        match s.threads[t]
        case Idle =>
        case SawTail(_, _) => LocalStep(s, t, Next(s, a).threads[t]);
        case SawOvercommit(_, _, _) =>
          assert ReadingSound(s.fates, s.over, s.threads[t]);
          LocalStep(s, t, Next(s, a).threads[t]);
        case Ready(_, _) => TakeTicketsStep(s, t);
        case Ticketed(_, _, _) => DecideStep(s, t);
        case Refunding(_, _, _) => RefundStep(s, t);
        case Granted(_) => ClaimStep(s, t);
      }
  }

  lemma InitInv<T>(consumers: nat)
    ensures Inv(Init<T>(consumers))
  {
    var s := Init<T>(consumers);
    SumZero(Unclaimed, s.threads);
    SumZero(Undecided, s.threads);
  }

  lemma {:induction false} InvRun<T>(s: State<T>, actions: seq<Action<T>>)
    requires Inv(s)
    ensures Inv(Run(s, actions))
    decreases |actions|
  {
    if actions != [] {
      InvStep(s, actions[0]);
      InvRun(Next(s, actions[0]), actions[1..]);
    }
  }

  // ---- what holds over every run ----

  /** In every interleaving of any number of consumers and one producer: the head plus
      what is granted but not yet claimed never passes the tail, and the effective
      count optimistic - overcommit is the head plus every ticket still unresolved. */
  lemma HeadStaysBehindTail<T>(consumers: nat, actions: seq<Action<T>>)
    ensures var s := Run(Init<T>(consumers), actions);
      && |s.claims| + Sum(Unclaimed, s.threads) <= |s.items|
      && s.opt - s.over == |s.claims| + Sum(Unclaimed, s.threads) + Sum(Undecided, s.threads)
  {
    InitInv<T>(consumers);
    InvRun(Init<T>(consumers), actions);
    var s := Run(Init<T>(consumers), actions);
    GrantsAtMostItems(s.fates, |s.items|, |s.fates|);
  }

  function Occurrences(claims: seq<nat>, t: nat): nat {
    if claims == [] then 0
    else Occurrences(claims[..|claims| - 1], t) + if claims[|claims| - 1] == t then 1 else 0
  }

  /** A share holds one element for each claim, and the element of claim i stands at
      the place given by its owner's earlier claims. */
  lemma {:induction false} ShareAt<T>(xs: seq<T>, claims: seq<nat>, t: nat)
    requires |xs| == |claims|
    ensures |Share(xs, claims, t)| == Occurrences(claims, t)
    ensures forall i | 0 <= i < |xs| && claims[i] == t ::
      Occurrences(claims[..i], t) < |Share(xs, claims, t)| && Share(xs, claims, t)[Occurrences(claims[..i], t)] == xs[i]
  {
    if xs != [] {
      var last := |xs| - 1;
      ShareAt(xs[..last], claims[..last], t);
      forall i | 0 <= i < |xs| && claims[i] == t
        ensures Occurrences(claims[..i], t) < |Share(xs, claims, t)|
        ensures Share(xs, claims, t)[Occurrences(claims[..i], t)] == xs[i]
      {
        if i < last {
          assert claims[..last][..i] == claims[..i];
        }
      }
    }
  }

  /** Every claimed index delivers the element published at that index, to the one
      consumer that claimed it, in claim order; nothing else is delivered. */
  lemma EachElementDeliveredOnce<T>(consumers: nat, actions: seq<Action<T>>, i: nat)
    ensures var s := Run(Init<T>(consumers), actions);
      && |s.received| == consumers
      && (forall t | 0 <= t < consumers :: |s.received[t]| == Occurrences(s.claims, t))
      && (i < |s.claims| ==>
            && i < |s.items| && s.claims[i] < consumers
            && Occurrences(s.claims[..i], s.claims[i]) < |s.received[s.claims[i]]|
            && s.received[s.claims[i]][Occurrences(s.claims[..i], s.claims[i])] == s.items[i])
  {
    var s := Run(Init<T>(consumers), actions);
    InitInv<T>(consumers);
    InvRun(Init<T>(consumers), actions);
    ThreadsKept(Init<T>(consumers), actions);
    forall t | 0 <= t < consumers ensures |s.received[t]| == Occurrences(s.claims, t) {
      ShareAt(s.items[..|s.claims|], s.claims, t);
    }
    if i < |s.claims| {
      ShareAt(s.items[..|s.claims|], s.claims, s.claims[i]);
    }
  }

  lemma {:induction false} ThreadsKept<T>(s: State<T>, actions: seq<Action<T>>)
    ensures |Run(s, actions).threads| == |s.threads|
    decreases |actions|
  {
    if actions != [] {
      ThreadsKept(Next(s, actions[0]), actions[1..]);
    }
  }

  /** Claims and publications are never taken back. */
  lemma {:induction false} HistoryGrows<T>(s: State<T>, actions: seq<Action<T>>)
    ensures s.items <= Run(s, actions).items && s.claims <= Run(s, actions).claims
    decreases |actions|
  {
    if actions != [] {
      HistoryGrows(Next(s, actions[0]), actions[1..]);
    }
  }

  /** The elements published during a run, in order. */
  function Published<T>(actions: seq<Action<T>>): seq<T> {
    if actions == [] then []
    else (if actions[0].Publish? then actions[0].xs else []) + Published(actions[1..])
  }

  lemma {:induction false} ItemsArePublished<T>(s: State<T>, actions: seq<Action<T>>)
    ensures Run(s, actions).items == s.items + Published(actions)
    decreases |actions|
  {
    if actions != [] {
      ItemsArePublished(Next(s, actions[0]), actions[1..]);
      var first := if actions[0].Publish? then actions[0].xs else [];
      assert Next(s, actions[0]).items == s.items + first;
    }
  }

  // ---- a consumer on its own ----

  ghost predicate Quiescent<T>(s: State<T>) {
    forall i | 0 <= i < |s.threads| :: s.threads[i] == Idle
  }

  /** A whole call of consumer t while no other consumer moves; the producer may
      publish after each of its accesses. */
  function Call<T>(s: State<T>, t: nat, max: nat, p: seq<seq<T>>): State<T>
    requires |p| == 5
  {
    var s1 := Next(Next(s, Begin(t, max)), Publish(p[0]));
    var s2 := Next(Next(s1, Advance(t)), Publish(p[1]));
    var s3 := Next(Next(s2, Advance(t)), Publish(p[2]));
    var s4 := Next(Next(s3, Advance(t)), Publish(p[3]));
    var s5 := Next(Next(s4, Advance(t)), Publish(p[4]));
    Next(s5, Advance(t))
  }

  lemma LoneCounts<T>(s: State<T>)
    requires Inv(s) && Quiescent(s)
    ensures s.opt - s.over == |s.claims| <= |s.items|
  {
    SumZero(Unclaimed, s.threads);
    SumZero(Undecided, s.threads);
  }

  function AdvanceAndPublish<T>(s: State<T>, t: nat, xs: seq<T>): State<T> {
    Next(Next(s, Advance(t)), Publish(xs))
  }

  /** The ticket-taking part of a lone call: three reads, then tickets if any are due. */
  lemma LoneTickets<T>(s: State<T>, t: nat, max: nat, p: seq<seq<T>>, k: nat)
    requires t < |s.threads| && t < |s.received| && s.threads[t] == Idle && |p| == 5
    requires s.opt - s.over == |s.claims| <= |s.items|
    requires k == Min(max, |s.items| - |s.claims|)
    ensures var s1 := Next(Next(s, Begin(t, max)), Publish(p[0]));
            var s4 := AdvanceAndPublish(AdvanceAndPublish(AdvanceAndPublish(s1, t, p[1]), t, p[2]), t, p[3]);
      && s4.items == s.items + p[0] + p[1] + p[2] + p[3]
      && s4.claims == s.claims && s4.received == s.received
      && if |s.items| == |s.claims| then s4.threads == s.threads
         else s4.threads == s.threads[t := Ticketed(s.opt, k, s.over)]
  {
    var s1 := Next(Next(s, Begin(t, max)), Publish(p[0]));
    assert s1 == s.(items := s.items + p[0], threads := s.threads[t := SawTail(max, |s.items|)]);
    var s2 := AdvanceAndPublish(s1, t, p[1]);
    assert s2.threads == s.threads[t := SawOvercommit(max, |s.items|, s.over)];
    var s3 := AdvanceAndPublish(s2, t, p[2]);
    assert s3.threads == if |s.items| == |s.claims| then s.threads else s.threads[t := Ready(k, s.over)];
  }

  /** The claiming part: the decision grants all k tickets, then the head moves. */
  lemma LoneClaim<T>(s: State<T>, t: nat, my: nat, k: nat, over: nat, xs: seq<T>)
    requires t < |s.threads| && t < |s.received| && s.threads[t] == Ticketed(my, k, over)
    requires my - over == |s.claims| && |s.claims| + k <= |s.items| && |s.claims| < |s.items|
    ensures var s' := Next(AdvanceAndPublish(s, t, xs), Advance(t));
      && s'.threads == s.threads[t := Idle]
      && s'.claims == s.claims + seq(k, _ => t)
      && s'.received == s.received[t := s.received[t] + s.items[|s.claims| .. |s.claims| + k]]
  {
    var s1 := AdvanceAndPublish(s, t, xs);
    assert s1.threads == s.threads[t := Granted(k)] && s1.items == s.items + xs;
    assert s1.items[|s.claims| .. |s.claims| + k] == s.items[|s.claims| .. |s.claims| + k];
  }

  /** Whatever failed earlier, a consumer that runs alone from a quiescent reachable
      state gets exactly min(max, stored) elements, the oldest ones: refused tickets
      never strand an element, and the call fails only on an empty sub-queue. */
  lemma LoneCallSucceeds<T>(s: State<T>, t: nat, max: nat, p: seq<seq<T>>)
    requires Inv(s) && Quiescent(s) && t < |s.threads| && |p| == 5
    ensures var k := Min(max, |s.items| - |s.claims|); var s' := Call(s, t, max, p);
      && k >= 0 && Quiescent(s')
      && s'.claims == s.claims + seq(k, _ => t)
      && |s'.received| == |s.received|
      && s'.received[t] == s.received[t] + s.items[|s.claims| .. |s.claims| + k]
  {
    LoneCounts(s);
    assert |s.received| == |s.threads|;
    LoneCallFrom(s, t, max, p, Min(max, |s.items| - |s.claims|));
  }

  lemma LoneCallFrom<T>(s: State<T>, t: nat, max: nat, p: seq<seq<T>>, k: nat)
    requires t < |s.threads| && t < |s.received| && s.threads[t] == Idle && |p| == 5
    requires s.opt - s.over == |s.claims| <= |s.items|
    requires k == Min(max, |s.items| - |s.claims|)
    ensures var s' := Call(s, t, max, p);
      && s'.threads == s.threads
      && s'.claims == s.claims + seq(k, _ => t)
      && s'.received == s.received[t := s.received[t] + s.items[|s.claims| .. |s.claims| + k]]
  {
    LoneTickets(s, t, max, p, k);
    var s1 := Next(Next(s, Begin(t, max)), Publish(p[0]));
    var s4 := AdvanceAndPublish(AdvanceAndPublish(AdvanceAndPublish(s1, t, p[1]), t, p[2]), t, p[3]);
    assert Call(s, t, max, p) == Next(AdvanceAndPublish(s4, t, p[4]), Advance(t));
    if |s.items| == |s.claims| {
      assert s.received[t] + [] == s.received[t];
    } else {
      LoneClaim(s4, t, s.opt, k, s.over, p[4]);
      assert s4.items[|s.claims| .. |s.claims| + k] == s.items[|s.claims| .. |s.claims| + k];
    }
  }

  function Advances<T>(t: nat, k: nat): seq<Action<T>> {
    seq(k, _ => Advance(t))
  }

  /** Accesses a consumer has at most still to make. */
  function CallWork(pc: Pc): nat {
    match pc
    case Idle => 0
    case SawTail(_, _) => 6
    case SawOvercommit(_, _, _) => 5
    case Ready(_, _) => 4
    case Ticketed(_, _, _) => 3
    case Refunding(_, _, _) => 2
    case Granted(_) => 1
  }

  /** No consumer waits for another: from every state, wherever the others have stopped, a
      consumer on its own is out of its call after at most six accesses. */
  lemma {:induction false} CallsEnd<T>(s: State<T>, t: nat, k: nat)
    requires t < |s.threads| == |s.received| && k >= CallWork(s.threads[t])
    ensures var s' := Run(s, Advances(t, k));
      |s'.threads| == |s.threads| && s'.threads[t] == Idle && s'.items == s.items
    decreases k
  {
    if k > 0 {
      CallAdvances(s, t);
      hide Next;
      assert Advances<T>(t, k)[1..] == Advances(t, k - 1);
      CallsEnd(Next(s, Advance(t)), t, k - 1);
    }
  }

  lemma CallAdvances<T>(s: State<T>, t: nat)
    requires t < |s.threads| == |s.received|
    ensures var s' := Next(s, Advance(t));
      && |s'.threads| == |s.threads| && |s'.received| == |s.received| && s'.items == s.items
      && (s.threads[t] == Idle ==> s' == s)
      && (s.threads[t] != Idle ==> CallWork(s'.threads[t]) < CallWork(s.threads[t]))
  {
  }

  // ---- the guards on stored words ----

  /** The code evaluates the guards on words. They decide as the model does whenever
      the compared counters are less than half the word range apart. */
  lemma MachineGuards(opt: nat, over: nat, tail: nat)
    requires -Circular.HALF < tail - (opt - over) < Circular.HALF
    ensures var stored := Circular.Wrap(Circular.Wrap(opt) - Circular.Wrap(over));
      && (Circular.CircularLess(stored, Circular.Wrap(tail)) <==> opt - over < tail)
      && (Circular.CircularLess(0, Circular.Wrap(Circular.Wrap(tail) - stored)) <==> tail - (opt - over) > 0)
      && (tail - (opt - over) > 0 ==> Circular.Wrap(Circular.Wrap(tail) - stored) == tail - (opt - over))
  {
    Circular.WrapSub(opt, over);
    Circular.CircularLessIsLess(opt - over, tail);
    Circular.WrapSub(tail, opt - over);
    Circular.WrapSmall(tail - (opt - over));
    Circular.CircularLessIsLess(0, tail - (opt - over));
  }
}
