/** The reference-counted CAS free list of blocks.

    Every action is one atomic access by one thread to the list head, to a node's
    reference word or to its next pointer. The word holds a 31-bit count and the
    should-be-on-freelist flag in its top bit, and wraps at 2^32. Nodes are never
    destroyed while the list exists, as the code assumes. */
module FreeLists {
  import opened Basics
  import opened Sums

  const FLAG: nat := 0x8000_0000
  const WORD: nat := 0x1_0000_0000

  /** What a publishing thread does when it is done: return from add, or go on with
      the loop of try_get at the head it has last seen. */
  datatype Resume = Return | Retry(head: Option<nat>)

  /** The access a thread performs next on the node it works on. */
  datatype Op =
    // add
    | SetFlag
    // add_knowing_refcount_is_zero
    | LoadHead(resume: Resume)
    | StoreNext(head: Option<nat>, resume: Resume)
    | StoreRefs(head: Option<nat>, resume: Resume)
    | CasPublish(head: Option<nat>, resume: Resume)
    | Retract(head: Option<nat>, resume: Resume)
    // try_get
    | ReadRefs
    | CasRefs(refs: nat)
    | ReadNext
    | CasHead(next: Option<nat>)
    | CheckFlag
    | DropTwo
    | Release(head: Option<nat>)

  datatype Pc = Idle | ReadHead | On(n: nat, op: Op)

  /** Where a node is: on the list, with a client, on its way to either in the hands of
      one thread, or left to whoever drops its last reference. */
  datatype Place = Listed | Client | Adder(t: nat) | Publisher(t: nat) | Pending | Taker(t: nat)

  /** Shared memory (head, word, next), the threads, what their calls of try_get have
      returned so far, and for the proof the list's contents and the place of every node. */
  datatype State = State(
    head: Option<nat>, word: seq<nat>, next: seq<Option<nat>>,
    threads: seq<Pc>, results: seq<seq<Option<nat>>>, list: seq<nat>, place: seq<Place>)

  datatype Action =
    | Add(t: nat, n: nat)   // a client gives node n back
    | TryGet(t: nat)
    | Advance(t: nat)

  function Init(nodes: nat, threads: nat): State {
    State(None, seq(nodes, _ => 0), seq(nodes, _ => None), seq(threads, _ => Idle), seq(threads, _ => []),
          [], seq(nodes, _ => Client))
  }

  function After(resume: Resume): Pc {
    match resume
    case Return => Idle
    case Retry(head) => Loop(head)
  }

  /** The loop head of try_get: an empty list ends the call. */
  function Loop(head: Option<nat>): Pc {
    match head
    case None => Idle
    case Some(h) => On(h, ReadRefs)
  }

  function FetchAdd(w: nat, k: int): nat {
    (w + k) % WORD
  }

  function Next(s: State, a: Action): State {
    if a.Advance? && a.t < |s.threads| then Noted(Moved(s, a), a.t, s.threads[a.t]) else Moved(s, a)
  }

  /** Thread t is in a call of try_get. */
  predicate Getting(pc: Pc) {
    || pc.ReadHead?
    || (pc.On? && match pc.op {
          case SetFlag => false
          case LoadHead(r) => r.Retry?
          case StoreNext(_, r) => r.Retry?
          case StoreRefs(_, r) => r.Retry?
          case CasPublish(_, r) => r.Retry?
          case Retract(_, r) => r.Retry?
          case _ => true
        })
  }

  /** A call of try_get that ends returns the node it has dropped its references to, or
      no node. */
  function Noted(s: State, t: nat, was: Pc): (r: State)
    ensures r == s.(results := r.results) && |r.results| == |s.results|
  {
    if t < |s.threads| && t < |s.results| && Getting(was) && s.threads[t] == Idle
    then s.(results := s.results[t := s.results[t] + [if was.On? && was.op.DropTwo? then Some(was.n) else None]])
    else s
  }

  function Moved(s: State, a: Action): State {
    match a
    case Add(t, n) =>
      if t < |s.threads| && s.threads[t] == Idle && n < |s.place| && s.place[n] == Client
      then s.(threads := s.threads[t := On(n, SetFlag)], place := s.place[n := Adder(t)]) else s
    case TryGet(t) =>
      if t < |s.threads| && s.threads[t] == Idle then Goto(s, t, ReadHead) else s
    case Advance(t) =>
      if t >= |s.threads| then s
      else match s.threads[t]
        case Idle => s
        case ReadHead => Goto(s, t, Loop(s.head))
        case On(n, op) => if n < |s.word| == |s.next| == |s.place| then Access(s, t, n, op) else s
  }

  /** Thread t's access op on node n. */
  function Access(s: State, t: nat, n: nat, op: Op): State
    requires t < |s.threads| && n < |s.word| == |s.next| == |s.place|
  {
    match op
    case SetFlag =>
      if s.word[n] == 0
      then Step(s, t, n, FetchAdd(s.word[n], FLAG), Publisher(t), On(n, LoadHead(Return)))
      else Step(s, t, n, FetchAdd(s.word[n], FLAG), Pending, Idle)
    case LoadHead(r) => Goto(s, t, On(n, StoreNext(s.head, r)))
    case StoreNext(h, r) => Goto(s.(next := s.next[n := h]), t, On(n, StoreRefs(h, r)))
    case StoreRefs(h, r) => Step(s, t, n, 1, s.place[n], On(n, CasPublish(h, r)))
    case CasPublish(h, r) =>
      if s.head == h
      then Goto(s.(head := Some(n), list := [n] + s.list, place := s.place[n := Listed]), t, After(r))
      else Goto(s, t, On(n, Retract(s.head, r)))
    case Retract(h, r) =>
      if s.word[n] == 1
      then Step(s, t, n, FetchAdd(s.word[n], FLAG - 1), s.place[n], On(n, StoreNext(h, r)))
      else Step(s, t, n, FetchAdd(s.word[n], FLAG - 1), Pending, After(r))
    case ReadRefs => Goto(s, t, if s.word[n] % FLAG == 0 then ReadHead else On(n, CasRefs(s.word[n])))
    case CasRefs(refs) =>
      if s.word[n] == refs
      then Step(s, t, n, FetchAdd(refs, 1), s.place[n], On(n, ReadNext))
      else Goto(s, t, ReadHead)
    case ReadNext => Goto(s, t, On(n, CasHead(s.next[n])))
    case CasHead(next) =>
      if s.head == Some(n)
      then Goto(s.(head := next, list := if s.list == [] then [] else s.list[1..], place := s.place[n := Taker(t)]),
                t, On(n, CheckFlag))
      else Goto(s, t, On(n, Release(s.head)))
    case CheckFlag => Goto(s, t, On(n, DropTwo))
    case DropTwo => Step(s, t, n, FetchAdd(s.word[n], WORD - 2), Client, Idle)
    case Release(h) =>
      if s.word[n] == FLAG + 1
      then Step(s, t, n, FetchAdd(s.word[n], WORD - 1), Publisher(t), On(n, LoadHead(Retry(h))))
      else Step(s, t, n, FetchAdd(s.word[n], WORD - 1), s.place[n], Loop(h))
  }

  function Goto(s: State, t: nat, pc: Pc): State
    requires t < |s.threads|
  {
    s.(threads := s.threads[t := pc])
  }

  function Step(s: State, t: nat, n: nat, w: nat, p: Place, pc: Pc): State
    requires t < |s.threads| && n < |s.word| && n < |s.place|
  {
    s.(word := s.word[n := w], place := s.place[n := p], threads := s.threads[t := pc])
  }

  function Run(s: State, actions: seq<Action>): State
    decreases |actions|
  {
    if actions == [] then s else Run(Next(s, actions[0]), actions[1..])
  }

  // ---- the invariant ----

  predicate HoldsReference(pc: Pc, n: nat) {
    pc.On? && pc.n == n
    && (pc.op.ReadNext? || pc.op.CasHead? || pc.op.CheckFlag? || pc.op.DropTwo? || pc.op.Release?)
  }

  function ReferenceTo(n: nat): Pc -> nat {
    pc => if HoldsReference(pc, n) then 1 else 0
  }

  /** How many threads hold a reference to node n. */
  function References(threads: seq<Pc>, n: nat): nat {
    Sum(ReferenceTo(n), threads)
  }

  /** Publishing n, whose count is still zero: nobody else can reach it. */
  predicate Preparing(pc: Pc, n: nat) {
    pc.On? && pc.n == n && (pc.op.LoadHead? || pc.op.StoreNext? || pc.op.StoreRefs?)
  }

  /** Publishing n, whose count is already one. */
  predicate Offering(pc: Pc, n: nat) {
    pc.On? && pc.n == n && (pc.op.CasPublish? || pc.op.Retract?)
  }

  /** Has just removed n from the list. */
  predicate Taking(pc: Pc, n: nat) {
    pc.On? && pc.n == n && (pc.op.CheckFlag? || pc.op.DropTwo?)
  }

  predicate InHandsOf(pc: Pc, n: nat, p: Place) {
    match p
    case Adder(_) => pc == On(n, SetFlag)
    case Publisher(_) => Preparing(pc, n) || Offering(pc, n)
    case Taker(_) => Taking(pc, n)
    case _ => true
  }

  /** The thread a place names. */
  predicate Names(p: Place, t: nat) {
    (p.Adder? || p.Publisher? || p.Taker?) && p.t == t
  }

  /** The reference word of n, from its place and the references held. */
  predicate WordSound(w: nat, p: Place, pc: Pc, n: nat, refs: nat) {
    match p
    case Listed => w == 1 + refs
    case Client => w == refs
    case Adder(_) => w == refs
    case Publisher(_) => if Preparing(pc, n) then w == FLAG && refs == 0 else w == 1 + refs
    case Pending => w == FLAG + refs && refs > 0
    case Taker(_) => w == 1 + refs
  }

  function PcAt(threads: seq<Pc>, p: Place): Pc {
    if (p.Adder? || p.Publisher? || p.Taker?) && p.t < |threads| then threads[p.t] else Idle
  }

  ghost predicate NodeSound(s: State, n: nat)
    requires n < |s.word| && n < |s.place|
  {
    && WordSound(s.word[n], s.place[n], PcAt(s.threads, s.place[n]), n, References(s.threads, n))
    && InHandsOf(PcAt(s.threads, s.place[n]), n, s.place[n])
  }

  /** What a thread knows between two accesses. */
  ghost predicate ThreadSound(s: State, t: nat)
    requires t < |s.threads| && |s.word| == |s.next| == |s.place|
  {
    s.threads[t].On? ==> s.threads[t].n < |s.word| && OpSound(s, t, s.threads[t].n, s.threads[t].op)
  }

  ghost predicate OpSound(s: State, t: nat, n: nat, op: Op)
    requires n < |s.word| == |s.next| == |s.place|
  {
    match op
    case SetFlag => s.place[n] == Adder(t)
    case LoadHead(r) => s.place[n] == Publisher(t) && ResumeKnown(r, |s.word|)
    case StoreNext(h, r) => s.place[n] == Publisher(t) && HeadKnown(h, |s.word|) && ResumeKnown(r, |s.word|)
    case StoreRefs(h, r) =>
      s.place[n] == Publisher(t) && s.next[n] == h && HeadKnown(h, |s.word|) && ResumeKnown(r, |s.word|)
    case CasPublish(h, r) =>
      s.place[n] == Publisher(t) && s.next[n] == h && HeadKnown(h, |s.word|) && ResumeKnown(r, |s.word|)
    case Retract(h, r) => s.place[n] == Publisher(t) && HeadKnown(h, |s.word|) && ResumeKnown(r, |s.word|)
    case CasRefs(refs) => refs % FLAG != 0
    case CasHead(next) => s.next[n] == next
    case CheckFlag => s.place[n] == Taker(t)
    case DropTwo => s.place[n] == Taker(t)
    case Release(h) => HeadKnown(h, |s.word|)
    case _ => true
  }

  predicate ResumeKnown(r: Resume, nodes: nat) {
    r.Retry? ==> HeadKnown(r.head, nodes)
  }

  predicate HeadKnown(head: Option<nat>, nodes: nat) {
    head.Some? ==> head.value < nodes
  }

  /** Following next from head yields exactly list, and the listed nodes are those
      whose place says so, each once. */
  ghost predicate ListSound(s: State)
    requires |s.word| == |s.next| == |s.place|
  {
    && OnlyListed(s.list, s.place)
    && Distinct(s.list)
    && AllListed(s.list, s.place)
    && s.head == First(s.list)
    && Linked(s.list, s.next)
    && (forall n | 0 <= n < |s.next| :: HeadKnown(s.next[n], |s.next|))
  }

  ghost predicate OnlyListed(list: seq<nat>, place: seq<Place>) {
    forall i | 0 <= i < |list| :: list[i] < |place| && place[list[i]] == Listed
  }

  ghost predicate AllListed(list: seq<nat>, place: seq<Place>) {
    forall n | 0 <= n < |place| && place[n] == Listed :: n in list
  }

  ghost predicate Linked(list: seq<nat>, next: seq<Option<nat>>) {
    forall i | 0 <= i < |list| :: list[i] < |next| && next[list[i]] == First(list[i + 1..])
  }

  function First(list: seq<nat>): Option<nat> {
    if list == [] then None else Some(list[0])
  }

  ghost predicate Inv(s: State) {
    && |s.word| == |s.next| == |s.place|
    && |s.threads| + 1 < FLAG && |s.results| == |s.threads|
    && (forall n | 0 <= n < |s.word| :: NodeSound(s, n))
    && (forall t | 0 <= t < |s.threads| :: ThreadSound(s, t))
    && ListSound(s)
  }

  // ---- counting references ----

  lemma ReferencesMove(threads: seq<Pc>, t: nat, pc: Pc, n: nat)
    requires t < |threads|
    ensures References(threads[t := pc], n) + ReferenceTo(n)(threads[t]) == References(threads, n) + ReferenceTo(n)(pc)
  {
    SumUpdate(ReferenceTo(n), threads, t, pc);
  }

  lemma ReferencesBound(threads: seq<Pc>, n: nat)
    ensures References(threads, n) <= |threads|
  {
    SumAtMostLength(ReferenceTo(n), threads);
  }

  lemma ReferenceCounts(threads: seq<Pc>, t: nat, n: nat)
    requires t < |threads| && HoldsReference(threads[t], n)
    ensures References(threads, n) >= 1
  {
    SumEntry(ReferenceTo(n), threads, t);
  }

  // ---- preservation ----

  /** A step of thread t that concerns node n leaves all other nodes sound. */
  lemma OtherNodes(s: State, s': State, t: nat, n: nat)
    requires Inv(s) && t < |s.threads| && |s'.word| == |s'.place| == |s.word|
    requires |s'.threads| == |s.threads| && s'.threads == s.threads[t := s'.threads[t]]
    requires forall m | 0 <= m < |s.word| && m != n :: s'.word[m] == s.word[m] && s'.place[m] == s.place[m]
    requires forall m | m != n :: !HoldsReference(s.threads[t], m) && !HoldsReference(s'.threads[t], m)
    requires forall m | 0 <= m < |s.word| && m != n :: !Names(s.place[m], t)
    ensures forall m | 0 <= m < |s.word| && m != n :: NodeSound(s', m)
  {
    forall m | 0 <= m < |s.word| && m != n
      ensures NodeSound(s', m)
    {
      assert NodeSound(s, m);
      ReferencesMove(s.threads, t, s'.threads[t], m);
    }
  }

  /** What the invariant says of the node and the thread a step is about. */
  lemma Look(s: State, t: nat, n: nat)
    requires Inv(s) && t < |s.threads| && n < |s.word|
    ensures |s.word| == |s.next| == |s.place|
    ensures NodeSound(s, n) && ThreadSound(s, t) && HeadKnown(s.head, |s.word|)
    ensures References(s.threads, n) <= |s.threads| < FLAG - 1
  {
    ReferencesBound(s.threads, n);
  }

  /** Thread t is named by no node but the one its program counter is about. */
  lemma NamedOnlyOnce(s: State, t: nat, n: nat)
    requires Inv(s) && t < |s.threads| && (s.threads[t].On? ==> s.threads[t].n == n)
    ensures forall m | 0 <= m < |s.word| && m != n :: !Names(s.place[m], t)
  {
    forall m | 0 <= m < |s.word| && m != n
      ensures !Names(s.place[m], t)
    {
      assert NodeSound(s, m);
    }
  }

  /** A step of thread t that concerns node n leaves what the other threads know sound,
      if it moves n only out of a place that names no other thread, and writes n's
      next pointer only while nobody else can see n. */
  lemma OtherThreads(s: State, s': State, t: nat, n: nat)
    requires Inv(s) && t < |s.threads| && n < |s.word|
    requires |s'.word| == |s'.next| == |s'.place| == |s.word| && |s'.threads| == |s.threads|
    requires forall u | 0 <= u < |s.threads| && u != t :: s'.threads[u] == s.threads[u]
    requires forall m | 0 <= m < |s.word| && m != n :: s'.place[m] == s.place[m] && s'.next[m] == s.next[m]
    requires s'.place[n] == s.place[n] || forall u | u != t :: !Names(s.place[n], u)
    requires s'.next[n] == s.next[n] || (s.place[n] == Publisher(t) && References(s.threads, n) == 0)
    ensures forall u | 0 <= u < |s.threads| && u != t :: ThreadSound(s', u)
  {
    forall u | 0 <= u < |s.threads| && u != t
      ensures ThreadSound(s', u)
    {
      assert ThreadSound(s, u);
      assert Names(s.place[n], u) ==> s'.place[n] == s.place[n];
      if s.threads[u].On? && s.threads[u].op.CasHead? && s.threads[u].n == n {
        ReferenceCounts(s.threads, u, n);
      }
    }
  }

  /** Steps that touch neither the list nor any next pointer, nor list or unlist n. */
  lemma ListKept(s: State, s': State, n: nat)
    requires |s.word| == |s.next| == |s.place| && ListSound(s) && n < |s.word|
    requires |s'.word| == |s.word| && s'.next == s.next && s'.list == s.list && s'.head == s.head
    requires |s'.place| == |s.place| && s'.place == s.place[n := s'.place[n]]
    requires s'.place[n] == Listed <==> s.place[n] == Listed
    ensures ListSound(s')
  {
    forall i | 0 <= i < |s.list| ensures s'.place[s.list[i]] == Listed {
      assert s.place[s.list[i]] == Listed;
    }
  }

  /** The common case: thread t rewrites the word and the place of n and moves on. */
  lemma StepInv(s: State, t: nat, n: nat, w: nat, p: Place, pc: Pc, refs: nat)
    requires Inv(s) && t < |s.threads| && n < |s.word|
    requires s.threads[t].On? ==> s.threads[t].n == n
    requires forall m | m != n :: !HoldsReference(pc, m)
    requires p == s.place[n] || forall u | u != t :: !Names(s.place[n], u)
    requires p == Listed <==> s.place[n] == Listed
    requires refs + ReferenceTo(n)(s.threads[t]) == References(s.threads, n) + ReferenceTo(n)(pc)
    requires var at := if p.Adder? || p.Publisher? || p.Taker? then if p.t == t then pc else PcAt(s.threads, p)
                       else Idle;
      WordSound(w, p, at, n, refs) && InHandsOf(at, n, p)
    requires ThreadSound(Step(s, t, n, w, p, pc), t)
    ensures Inv(Step(s, t, n, w, p, pc))
  {
    var s' := Step(s, t, n, w, p, pc);
    assert NodeSound(s', n) by {
      ReferencesMove(s.threads, t, pc, n);
    }
    NamedOnlyOnce(s, t, n);
    OtherNodes(s, s', t, n);
    OtherThreads(s, s', t, n);
    ListKept(s, s', n);
  }

  /** Moves that change no shared memory at all. */
  lemma GotoInv(s: State, t: nat, pc: Pc)
    requires Inv(s) && t < |s.threads|
    requires s.threads[t].On? && pc.On? ==> s.threads[t].n == pc.n
    requires forall n :: HoldsReference(pc, n) == HoldsReference(s.threads[t], n)
    requires s.threads[t].On? && s.threads[t].n < |s.word| && Names(s.place[s.threads[t].n], t) ==>
      PcKeepsPlace(s.threads[t], pc, s.threads[t].n, s.place[s.threads[t].n])
    requires ThreadSound(Goto(s, t, pc), t)
    ensures Inv(Goto(s, t, pc))
  {
    var s' := Goto(s, t, pc);
    forall n | 0 <= n < |s.word| ensures NodeSound(s', n) {
      assert NodeSound(s, n);
      ReferencesMove(s.threads, t, pc, n);
    }
    forall u | 0 <= u < |s.threads| && u != t ensures ThreadSound(s', u) {
      assert ThreadSound(s, u);
    }
  }

  /** The thread stays in the role its node's place gives it. */
  predicate PcKeepsPlace(was: Pc, pc: Pc, n: nat, p: Place) {
    InHandsOf(pc, n, p) && (p.Publisher? ==> Preparing(was, n) == Preparing(pc, n))
  }

  lemma AddInv(s: State, t: nat, n: nat)
    requires Inv(s)
    ensures Inv(Moved(s, Add(t, n)))
  {
    var s' := Moved(s, Add(t, n));
    if t < |s.threads| && s.threads[t] == Idle && n < |s.place| && s.place[n] == Client {
      assert NodeSound(s, n);
      assert s' == Step(s, t, n, s.word[n], Adder(t), On(n, SetFlag));
      StepInv(s, t, n, s.word[n], Adder(t), On(n, SetFlag), References(s.threads, n));
    }
  }

  lemma SetFlagInv(s: State, t: nat, n: nat)
    requires Inv(s) && t < |s.threads| && s.threads[t] == On(n, SetFlag) && n < |s.word|
    ensures Inv(Access(s, t, n, SetFlag))
  {
    hide Inv, ListSound;
    Look(s, t, n);
    var w := s.word[n];
    if w == 0 {
      StepInv(s, t, n, FLAG, Publisher(t), On(n, LoadHead(Return)), 0);
    } else {
      StepInv(s, t, n, w + FLAG, Pending, Idle, w);
    }
  }

  lemma LoadHeadInv(s: State, t: nat, n: nat, r: Resume)
    requires Inv(s) && t < |s.threads| && s.threads[t] == On(n, LoadHead(r)) && n < |s.word|
    ensures Inv(Access(s, t, n, LoadHead(r)))
  {
    hide Inv, ListSound;
    Look(s, t, n);
    GotoInv(s, t, On(n, StoreNext(s.head, r)));
  }

  /** Writing the next pointer of a node nobody else can reach. */
  lemma StoreNextInv(s: State, t: nat, n: nat, h: Option<nat>, r: Resume)
    requires Inv(s) && t < |s.threads| && s.threads[t] == On(n, StoreNext(h, r)) && n < |s.word|
    ensures Inv(Access(s, t, n, StoreNext(h, r)))
  {
    hide ListSound;
    Look(s, t, n);
    var pc := On(n, StoreRefs(h, r));
    var s' := Access(s, t, n, StoreNext(h, r));
    ReferencesMove(s.threads, t, pc, n);
    NamedOnlyOnce(s, t, n);
    OtherNodes(s, s', t, n);
    OtherThreads(s, s', t, n);
    UnlistedNext(s, s', n, h);
  }

  lemma UnlistedNext(s: State, s': State, n: nat, h: Option<nat>)
    requires |s.word| == |s.next| == |s.place| && ListSound(s) && n < |s.word|
    requires s.place[n] != Listed && HeadKnown(h, |s.word|)
    requires s'.word == s.word && s'.place == s.place && s'.list == s.list && s'.head == s.head
    requires s'.next == s.next[n := h]
    ensures ListSound(s')
  {
    forall i | 0 <= i < |s.list| ensures s'.next[s.list[i]] == First(s.list[i + 1..]) {
      assert s.place[s.list[i]] == Listed;
    }
  }

  lemma StoreRefsInv(s: State, t: nat, n: nat, h: Option<nat>, r: Resume)
    requires Inv(s) && t < |s.threads| && s.threads[t] == On(n, StoreRefs(h, r)) && n < |s.word|
    ensures Inv(Access(s, t, n, StoreRefs(h, r)))
  {
    hide Inv, ListSound;
    Look(s, t, n);
    StepInv(s, t, n, 1, s.place[n], On(n, CasPublish(h, r)), 0);
  }

  lemma CasPublishInv(s: State, t: nat, n: nat, h: Option<nat>, r: Resume)
    requires Inv(s) && t < |s.threads| && s.threads[t] == On(n, CasPublish(h, r)) && n < |s.word|
    ensures Inv(Access(s, t, n, CasPublish(h, r)))
  {
    hide Inv, ListSound;
    if s.head == h {
      PublishedInv(s, t, n, h, r);
    } else {
      Look(s, t, n);
      GotoInv(s, t, On(n, Retract(s.head, r)));
    }
  }

  lemma PublishedInv(s: State, t: nat, n: nat, h: Option<nat>, r: Resume)
    requires Inv(s) && t < |s.threads| && s.threads[t] == On(n, CasPublish(h, r)) && n < |s.word|
    requires s.head == h
    ensures Inv(Access(s, t, n, CasPublish(h, r)))
  {
    hide ListSound;
    Look(s, t, n);
    var s' := Access(s, t, n, CasPublish(h, r));
    ReferencesMove(s.threads, t, After(r), n);
    NamedOnlyOnce(s, t, n);
    OtherNodes(s, s', t, n);
    OtherThreads(s, s', t, n);
    PushList(s, s', n);
  }

  lemma PushList(s: State, s': State, n: nat)
    requires |s.word| == |s.next| == |s.place| && ListSound(s) && n < |s.word|
    requires |s'.word| == |s.word| && s'.next == s.next && s'.place == s.place[n := Listed]
    requires s.place[n] != Listed && s.next[n] == s.head
    requires s'.list == [n] + s.list && s'.head == Some(n)
    ensures ListSound(s')
  {
    hide Linked, Distinct, OnlyListed, AllListed;
    PushMembers(s.list, s.place, n);
    PushLinks(s.list, s.next, n);
  }

  lemma PushMembers(list: seq<nat>, place: seq<Place>, n: nat)
    requires n < |place| && place[n] != Listed
    requires OnlyListed(list, place) && Distinct(list) && AllListed(list, place)
    ensures OnlyListed([n] + list, place[n := Listed])
    ensures Distinct([n] + list)
    ensures AllListed([n] + list, place[n := Listed])
  {
    var list' := [n] + list;
    forall i | 0 <= i < |list'|
      ensures list'[i] < |place| && place[n := Listed][list'[i]] == Listed && (i > 0 ==> list'[i] != n)
    {
      if i > 0 {
        assert list'[i] == list[i - 1] && place[list[i - 1]] == Listed;
      }
    }
    forall m | 0 <= m < |place| && place[n := Listed][m] == Listed ensures m in list' {
      assert m == n || m in list;
    }
  }

  lemma PushLinks(list: seq<nat>, next: seq<Option<nat>>, n: nat)
    requires n < |next| && next[n] == First(list) && Linked(list, next)
    ensures Linked([n] + list, next)
  {
    var list' := [n] + list;
    forall i | 0 <= i < |list'|
      ensures list'[i] < |next| && next[list'[i]] == First(list'[i + 1..])
    {
      if i == 0 {
        assert list'[1..] == list;
      } else {
        assert list'[i] == list[i - 1] && list'[i + 1..] == list[(i - 1) + 1..];
      }
    }
  }

  lemma RetractInv(s: State, t: nat, n: nat, h: Option<nat>, r: Resume)
    requires Inv(s) && t < |s.threads| && s.threads[t] == On(n, Retract(h, r)) && n < |s.word|
    ensures Inv(Access(s, t, n, Retract(h, r)))
  {
    hide Inv, ListSound;
    Look(s, t, n);
    var w := s.word[n];
    if w == 1 {
      StepInv(s, t, n, FLAG, s.place[n], On(n, StoreNext(h, r)), 0);
    } else {
      StepInv(s, t, n, w + FLAG - 1, Pending, After(r), w - 1);
    }
  }

  lemma ReadRefsInv(s: State, t: nat, n: nat)
    requires Inv(s) && t < |s.threads| && s.threads[t] == On(n, ReadRefs) && n < |s.word|
    ensures Inv(Access(s, t, n, ReadRefs))
  {
    hide Inv, ListSound;
    Look(s, t, n);
    GotoInv(s, t, if s.word[n] % FLAG == 0 then ReadHead else On(n, CasRefs(s.word[n])));
  }

  lemma CasRefsInv(s: State, t: nat, n: nat, refs: nat)
    requires Inv(s) && t < |s.threads| && s.threads[t] == On(n, CasRefs(refs)) && n < |s.word|
    ensures Inv(Access(s, t, n, CasRefs(refs)))
  {
    hide Inv, ListSound;
    Look(s, t, n);
    if s.word[n] == refs {
      assert !Names(s.place[n], t);
      StepInv(s, t, n, refs + 1, s.place[n], On(n, ReadNext), References(s.threads, n) + 1);
    } else {
      GotoInv(s, t, ReadHead);
    }
  }

  lemma ReadNextInv(s: State, t: nat, n: nat)
    requires Inv(s) && t < |s.threads| && s.threads[t] == On(n, ReadNext) && n < |s.word|
    ensures Inv(Access(s, t, n, ReadNext))
  {
    hide Inv, ListSound;
    Look(s, t, n);
    GotoInv(s, t, On(n, CasHead(s.next[n])));
  }

  lemma CasHeadInv(s: State, t: nat, n: nat, next: Option<nat>)
    requires Inv(s) && t < |s.threads| && s.threads[t] == On(n, CasHead(next)) && n < |s.word|
    ensures Inv(Access(s, t, n, CasHead(next)))
  {
    hide Inv, ListSound;
    if s.head == Some(n) {
      TakenInv(s, t, n, next);
    } else {
      Look(s, t, n);
      GotoInv(s, t, On(n, Release(s.head)));
    }
  }

  lemma TakenInv(s: State, t: nat, n: nat, next: Option<nat>)
    requires Inv(s) && t < |s.threads| && s.threads[t] == On(n, CasHead(next)) && n < |s.word|
    requires s.head == Some(n)
    ensures Inv(Access(s, t, n, CasHead(next)))
  {
    hide Inv, ListSound;
    Look(s, t, n);
    ListOf(s);
    FirstListed(s);
    var s' := Access(s, t, n, CasHead(next));
    NamedOnlyOnce(s, t, n);
    OtherNodes(s, s', t, n);
    OtherThreads(s, s', t, n);
    PopList(s, s', n, t);
    assert NodeSound(s', n) by {
      ReferencesMove(s.threads, t, On(n, CheckFlag), n);
    }
    Assemble(s', t, n);
  }

  lemma ListOf(s: State)
    requires Inv(s)
    ensures |s.word| == |s.next| == |s.place| && |s.results| == |s.threads| && ListSound(s)
  {
    hide ListSound, NodeSound, ThreadSound;
  }

  lemma Assemble(s: State, t: nat, n: nat)
    requires |s.word| == |s.next| == |s.place| && |s.results| == |s.threads| < FLAG - 1 && ListSound(s)
    requires t < |s.threads| && n < |s.word| && NodeSound(s, n) && ThreadSound(s, t)
    requires forall m | 0 <= m < |s.word| && m != n :: NodeSound(s, m)
    requires forall u | 0 <= u < |s.threads| && u != t :: ThreadSound(s, u)
    ensures Inv(s)
  {
    hide ListSound, NodeSound, ThreadSound;
  }

  lemma FirstListed(s: State)
    requires |s.word| == |s.next| == |s.place| && ListSound(s) && s.head.Some?
    ensures s.list != [] && s.list[0] == s.head.value < |s.place| && s.place[s.head.value] == Listed
  {
  }

  lemma PopList(s: State, s': State, n: nat, t: nat)
    requires |s.word| == |s.next| == |s.place| && ListSound(s) && n < |s.word|
    requires s.list != [] && s.list[0] == n
    requires |s'.word| == |s.word| && s'.next == s.next && s'.place == s.place[n := Taker(t)]
    requires s'.list == s.list[1..] && s'.head == s.next[n]
    ensures ListSound(s')
  {
    assert s.next[n] == First(s.list[1..]);
    hide Linked, Distinct, OnlyListed, AllListed;
    PopMembers(s.list, s.place, t);
    PopLinks(s.list, s.next);
  }

  lemma PopMembers(list: seq<nat>, place: seq<Place>, t: nat)
    requires OnlyListed(list, place) && Distinct(list) && AllListed(list, place) && list != []
    ensures OnlyListed(list[1..], place[list[0] := Taker(t)])
    ensures Distinct(list[1..])
    ensures AllListed(list[1..], place[list[0] := Taker(t)])
  {
    forall i | 0 <= i < |list[1..]| ensures list[1..][i] == list[i + 1] && list[i + 1] != list[0] {
    }
    forall m | 0 <= m < |place| && place[list[0] := Taker(t)][m] == Listed ensures m in list[1..] {
      assert m != list[0] && m in list;
      assert list == [list[0]] + list[1..];
    }
  }

  lemma PopLinks(list: seq<nat>, next: seq<Option<nat>>)
    requires Linked(list, next) && list != []
    ensures Linked(list[1..], next)
  {
    forall i | 0 <= i < |list[1..]|
      ensures next[list[1..][i]] == First(list[1..][i + 1..])
    {
      assert list[1..][i + 1..] == list[(i + 1) + 1..];
    }
  }

  lemma CheckFlagInv(s: State, t: nat, n: nat)
    requires Inv(s) && t < |s.threads| && s.threads[t] == On(n, CheckFlag) && n < |s.word|
    ensures Inv(Access(s, t, n, CheckFlag))
  {
    hide Inv, ListSound;
    Look(s, t, n);
    GotoInv(s, t, On(n, DropTwo));
  }

  lemma DropTwoInv(s: State, t: nat, n: nat)
    requires Inv(s) && t < |s.threads| && s.threads[t] == On(n, DropTwo) && n < |s.word|
    ensures Inv(Access(s, t, n, DropTwo))
  {
    hide Inv, ListSound;
    Look(s, t, n);
    ReferenceCounts(s.threads, t, n);
    StepInv(s, t, n, s.word[n] - 2, Client, Idle, References(s.threads, n) - 1);
  }

  lemma ReleaseInv(s: State, t: nat, n: nat, h: Option<nat>)
    requires Inv(s) && t < |s.threads| && s.threads[t] == On(n, Release(h)) && n < |s.word|
    ensures Inv(Access(s, t, n, Release(h)))
  {
    hide Inv, ListSound;
    Look(s, t, n);
    ReferenceCounts(s.threads, t, n);
    var refs := References(s.threads, n);
    assert !Names(s.place[n], t);
    if s.word[n] == FLAG + 1 {
      assert s.place[n] == Pending && refs == 1;
      StepInv(s, t, n, FLAG, Publisher(t), On(n, LoadHead(Retry(h))), 0);
    } else {
      StepInv(s, t, n, s.word[n] - 1, s.place[n], Loop(h), refs - 1);
    }
  }

  lemma AccessInv(s: State, t: nat, n: nat, op: Op)
    requires Inv(s) && t < |s.threads| && s.threads[t] == On(n, op) && n < |s.word|
    ensures Inv(Access(s, t, n, op))
  {
    match op
    case SetFlag => SetFlagInv(s, t, n);
    case LoadHead(r) => LoadHeadInv(s, t, n, r);
    case StoreNext(h, r) => StoreNextInv(s, t, n, h, r);
    case StoreRefs(h, r) => StoreRefsInv(s, t, n, h, r);
    case CasPublish(h, r) => CasPublishInv(s, t, n, h, r);
    case Retract(h, r) => RetractInv(s, t, n, h, r);
    case ReadRefs => ReadRefsInv(s, t, n);
    case CasRefs(refs) => CasRefsInv(s, t, n, refs);
    case ReadNext => ReadNextInv(s, t, n);
    case CasHead(next) => CasHeadInv(s, t, n, next);
    case CheckFlag => CheckFlagInv(s, t, n);
    case DropTwo => DropTwoInv(s, t, n);
    case Release(h) => ReleaseInv(s, t, n, h);
  }

  lemma MovedInv(s: State, a: Action)
    requires Inv(s)
    ensures Inv(Moved(s, a))
  {
    match a
    case Add(t, n) => AddInv(s, t, n);
    case TryGet(t) =>
      if t < |s.threads| && s.threads[t] == Idle {
        GotoInv(s, t, ReadHead);
      }
    case Advance(t) =>
      if t < |s.threads| {
        match s.threads[t]
        case Idle =>
        case ReadHead => LoopKnown(s); GotoInv(s, t, Loop(s.head));
        case On(n, op) => assert ThreadSound(s, t); AccessInv(s, t, n, op);
      }
  }

  lemma NotedInv(s: State, t: nat, was: Pc)
    requires Inv(s)
    ensures Inv(Noted(s, t, was))
  {
    var s' := Noted(s, t, was);
    forall n | 0 <= n < |s'.word| ensures NodeSound(s', n) {
      assert NodeSound(s, n);
    }
    forall u | 0 <= u < |s'.threads| ensures ThreadSound(s', u) {
      assert ThreadSound(s, u);
    }
  }

  lemma InvStep(s: State, a: Action)
    requires Inv(s)
    ensures Inv(Next(s, a))
  {
    hide Inv, Moved, Noted;
    MovedInv(s, a);
    if a.Advance? && a.t < |s.threads| {
      NotedInv(Moved(s, a), a.t, s.threads[a.t]);
    }
  }

  lemma LoopKnown(s: State)
    requires Inv(s)
    ensures HeadKnown(s.head, |s.word|)
  {
  }

  lemma InitInv(nodes: nat, threads: nat)
    requires threads + 1 < FLAG
    ensures Inv(Init(nodes, threads))
  {
    var s := Init(nodes, threads);
    forall n | 0 <= n < nodes ensures NodeSound(s, n) {
      SumZero(ReferenceTo(n), s.threads);
    }
  }

  lemma {:induction false} InvRun(s: State, actions: seq<Action>)
    requires Inv(s)
    ensures Inv(Run(s, actions))
    decreases |actions|
  {
    if actions != [] {
      InvStep(s, actions[0]);
      InvRun(Next(s, actions[0]), actions[1..]);
    }
  }

  // ---- what holds over every run ----

  predicate OneMore(p: Place, pc: Pc, n: nat) {
    p == Listed || p.Taker? || (p.Publisher? && Offering(pc, n))
  }

  /** The low 31 bits of every word count the references threads hold, plus one if the
      node is listed, just unlisted or being published; the flag bit marks the nodes
      that still have to be put on the list. */
  lemma WordsCountReferences(nodes: nat, threads: nat, actions: seq<Action>, n: nat)
    requires threads + 1 < FLAG && n < nodes
    ensures var s := Run(Init(nodes, threads), actions);
      && |s.word| == |s.place| == nodes
      && s.word[n] < WORD
      && s.word[n] % FLAG
         == References(s.threads, n) + (if OneMore(s.place[n], PcAt(s.threads, s.place[n]), n) then 1 else 0)
      && (s.word[n] >= FLAG <==> s.place[n] == Pending
                                 || (s.place[n].Publisher? && Preparing(PcAt(s.threads, s.place[n]), n)))
  {
    hide Run, Inv, References, OneMore, Preparing, PcAt;
    InitInv(nodes, threads);
    InvRun(Init(nodes, threads), actions);
    SizesKept(Init(nodes, threads), actions);
    WordCounts(Run(Init(nodes, threads), actions), n);
  }

  lemma WordCounts(s: State, n: nat)
    requires Inv(s) && n < |s.word|
    ensures |s.word| == |s.place| && s.word[n] < WORD
    ensures s.word[n] % FLAG
         == References(s.threads, n) + (if OneMore(s.place[n], PcAt(s.threads, s.place[n]), n) then 1 else 0)
    ensures s.word[n] >= FLAG <==> s.place[n] == Pending
                                   || (s.place[n].Publisher? && Preparing(PcAt(s.threads, s.place[n]), n))
  {
    assert NodeSound(s, n);
    ReferencesBound(s.threads, n);
  }

  lemma {:induction false} SizesKept(s: State, actions: seq<Action>)
    ensures var s' := Run(s, actions);
      && |s'.word| == |s.word| && |s'.next| == |s.next| && |s'.place| == |s.place|
      && |s'.threads| == |s.threads| && |s'.results| == |s.results|
    decreases |actions|
  {
    if actions != [] {
      hide Next;
      StepKeepsSizes(s, actions[0]);
      SizesKept(Next(s, actions[0]), actions[1..]);
    }
  }

  lemma StepKeepsSizes(s: State, a: Action)
    ensures var s' := Next(s, a);
      && |s'.word| == |s.word| && |s'.next| == |s.next| && |s'.place| == |s.place|
      && |s'.threads| == |s.threads| && |s'.results| == |s.results|
  {
    MovedKeepsSizes(s, a);
    hide Moved, Noted;
  }

  lemma MovedKeepsSizes(s: State, a: Action)
    ensures var s' := Moved(s, a);
      && |s'.word| == |s.word| && |s'.next| == |s.next| && |s'.place| == |s.place|
      && |s'.threads| == |s.threads| && s'.results == s.results
  {
  }

  /** While anybody holds a reference to n, no step of any thread changes its next
      pointer. */
  lemma NextStable(s: State, a: Action, u: nat, n: nat)
    requires Inv(s) && u < |s.threads| && n < |s.word| && HoldsReference(s.threads[u], n)
    ensures n < |Next(s, a).next| && Next(s, a).next[n] == s.next[n]
  {
    ReferenceCounts(s.threads, u, n);
    assert NodeSound(s, n);
    if a.Advance? && a.t < |s.threads| {
      assert ThreadSound(s, a.t);
    }
  }

  /** No ABA: when the CAS of the head succeeds, it removes the first node of the list
      and makes that node's true successor the head. */
  lemma HeadCasTakesFirst(s: State, t: nat)
    requires Inv(s) && t < |s.threads| && s.threads[t].On? && s.threads[t].op.CasHead? && s.head == Some(s.threads[t].n)
    ensures var s' := Next(s, Advance(t));
      && s.list != [] && s.list[0] == s.threads[t].n
      && s'.list == s.list[1..] && s'.head == First(s.list[1..])
  {
    assert ThreadSound(s, t);
    assert Linked(s.list, s.next);
  }

  /** The assertion in try_get never fails. */
  lemma AssertionHolds(s: State, t: nat)
    requires Inv(s) && t < |s.threads| && s.threads[t].On? && s.threads[t].op == CheckFlag
    ensures s.threads[t].n < |s.word| && s.word[s.threads[t].n] < FLAG
  {
    var n := s.threads[t].n;
    assert ThreadSound(s, t) && NodeSound(s, n);
    ReferencesBound(s.threads, n);
  }

  /** Thread u is adding, publishing or taking n. */
  predicate WorksOn(pc: Pc, n: nat) {
    pc == On(n, SetFlag) || Preparing(pc, n) || Offering(pc, n) || Taking(pc, n)
  }

  /** A node that is neither listed nor a client's is in the hands of exactly one
      thread, or is flagged and referenced, so that its last holder will publish it. */
  lemma EveryNodeAccountedFor(nodes: nat, threads: nat, actions: seq<Action>, n: nat)
    requires threads + 1 < FLAG && n < nodes
    ensures |Run(Init(nodes, threads), actions).place| == nodes
    ensures |Run(Init(nodes, threads), actions).threads| == threads
    ensures var s := Run(Init(nodes, threads), actions);
      match s.place[n] {
        case Listed => n in s.list && forall u | 0 <= u < threads :: !WorksOn(s.threads[u], n)
        case Client => n !in s.list && forall u | 0 <= u < threads :: !WorksOn(s.threads[u], n)
        case Pending => n !in s.list && (forall u | 0 <= u < threads :: !WorksOn(s.threads[u], n))
                           && exists u | 0 <= u < threads :: HoldsReference(s.threads[u], n)
        case p => n !in s.list && p.t < threads
                     && forall u | 0 <= u < threads :: WorksOn(s.threads[u], n) <==> u == p.t
      }
  {
    var s := Run(Init(nodes, threads), actions);
    InitInv(nodes, threads);
    InvRun(Init(nodes, threads), actions);
    SizesKept(Init(nodes, threads), actions);
    assert NodeSound(s, n);
    forall u | 0 <= u < threads && WorksOn(s.threads[u], n) ensures Names(s.place[n], u) {
      assert ThreadSound(s, u);
    }
    if s.place[n] == Pending {
      var u := SumPositive(ReferenceTo(n), s.threads);
      assert HoldsReference(s.threads[u], n);
    }
    assert OnlyListed(s.list, s.place) && AllListed(s.list, s.place);
  }

  /** With no thread inside, every node given back is on the list, once: following next
      from the head enumerates the listed nodes without repetition. */
  lemma QuiescentListComplete(nodes: nat, threads: nat, actions: seq<Action>)
    requires threads + 1 < FLAG
    requires forall u | 0 <= u < |Run(Init(nodes, threads), actions).threads| ::
               Run(Init(nodes, threads), actions).threads[u] == Idle
    ensures var s := Run(Init(nodes, threads), actions);
      && |s.place| == |s.word| == nodes
      && s.head == First(s.list) && Linked(s.list, s.next) && Distinct(s.list)
      && forall n | 0 <= n < nodes ::
           if n in s.list then s.place[n] == Listed && s.word[n] == 1 else s.place[n] == Client && s.word[n] == 0
  {
    var s := Run(Init(nodes, threads), actions);
    InitInv(nodes, threads);
    InvRun(Init(nodes, threads), actions);
    SizesKept(Init(nodes, threads), actions);
    forall n | 0 <= n < nodes
      ensures if n in s.list then s.place[n] == Listed && s.word[n] == 1 else s.place[n] == Client && s.word[n] == 0
    {
      assert NodeSound(s, n);
      SumZero(ReferenceTo(n), s.threads);
      assert OnlyListed(s.list, s.place) && AllListed(s.list, s.place);
    }
  }

  /** A client keeps its node until it gives it back itself. */
  lemma ClientKeepsNode(s: State, a: Action, n: nat)
    requires Inv(s) && n < |s.place| && s.place[n] == Client
    requires a.Add? ==> a.n != n
    ensures n < |Next(s, a).place| && Next(s, a).place[n] == Client
  {
    hide Noted;
    MovedKeepsNode(s, a, n);
    hide Moved;
  }

  lemma MovedKeepsNode(s: State, a: Action, n: nat)
    requires Inv(s) && n < |s.place| && s.place[n] == Client
    requires a.Add? ==> a.n != n
    ensures n < |Moved(s, a).place| && Moved(s, a).place[n] == Client
  {
    ReferencesBound(s.threads, n);
    assert NodeSound(s, n);
    if a.Advance? && a.t < |s.threads| {
      assert ThreadSound(s, a.t);
      if s.head.Some? {
        FirstListed(s);
      }
    }
  }

  // ---- calls on their own ----

  ghost predicate Quiescent(s: State) {
    forall u | 0 <= u < |s.threads| :: s.threads[u] == Idle
  }

  /** Thread t makes k accesses, nobody else any. */
  function Alone(t: nat, k: nat): seq<Action> {
    seq(k, _ => Advance(t))
  }

  lemma AloneStep(s: State, t: nat, k: nat)
    requires k > 0
    ensures Run(s, Alone(t, k)) == Run(Next(s, Advance(t)), Alone(t, k - 1))
  {
    hide Next;
    assert Alone(t, k)[1..] == Alone(t, k - 1);
  }

  lemma {:induction false} AloneIdle(s: State, t: nat, k: nat)
    requires t < |s.threads| && s.threads[t] == Idle
    ensures Run(s, Alone(t, k)) == s
  {
    if k > 0 {
      AloneStep(s, t, k);
      AloneIdle(s, t, k - 1);
    }
  }

  /** With nobody inside, a listed node's word is one. */
  lemma QuiescentWord(s: State, n: nat)
    requires Inv(s) && Quiescent(s) && n < |s.word|
    ensures s.place[n] == Listed ==> s.word[n] == 1
    ensures s.place[n] == Client ==> s.word[n] == 0
    ensures s.place[n] == Listed || s.place[n] == Client
  {
    assert NodeSound(s, n);
    SumZero(ReferenceTo(n), s.threads);
  }

  /** The first four accesses: the head, its reference count, a reference, its successor. */
  lemma LoneReference(s: State, t: nat, n: nat, k: nat)
    requires t < |s.threads| && s.head == Some(n) && n < |s.word| == |s.next| == |s.place| && s.word[n] == 1 && k >= 4
    ensures Run(Goto(s, t, ReadHead), Alone(t, k))
         == Run(Goto(s.(word := s.word[n := 2]), t, On(n, CasHead(s.next[n]))), Alone(t, k - 4))
  {
    var s1, s2 := Goto(s, t, ReadHead), Goto(s, t, On(n, ReadRefs));
    var s3, s4 := Goto(s, t, On(n, CasRefs(1))), Goto(s.(word := s.word[n := 2]), t, On(n, ReadNext));
    assert Next(s1, Advance(t)) == s2;
    assert Next(s2, Advance(t)) == s3;
    assert Next(s3, Advance(t)) == s4;
    assert Next(s4, Advance(t)) == Goto(s.(word := s.word[n := 2]), t, On(n, CasHead(s.next[n])));
    hide Next, Run;
    AloneStep(s1, t, k);
    AloneStep(s2, t, k - 1);
    AloneStep(s3, t, k - 2);
    AloneStep(s4, t, k - 3);
  }

  /** Thread t has dropped its references to n and returned it. */
  function Dropped(s: State, t: nat, n: nat): State
    requires t < |s.threads| == |s.results| && n < |s.word| == |s.place|
  {
    s.(word := s.word[n := 0], threads := s.threads[t := Idle], place := s.place[n := Client],
       results := s.results[t := s.results[t] + [Some(n)]])
  }

  /** The last three: the head is replaced, the assertion passes, both references go. */
  lemma LoneTake(s: State, t: nat, n: nat, k: nat)
    requires t < |s.threads| == |s.results| && n < |s.word| == |s.next| == |s.place| && k >= 3
    requires s.head == Some(n) && s.list != [] && s.word[n] == 2 && s.threads[t] == On(n, CasHead(s.next[n]))
    ensures Run(s, Alone(t, k)) == Dropped(s.(head := s.next[n], list := s.list[1..]), t, n)
  {
    hide Next, Run, Alone, Dropped;
    TakeHead(s, t, n);
    AloneStep(s, t, k);
    TakeRest(s, t, n, k);
  }

  lemma TakeRest(s: State, t: nat, n: nat, k: nat)
    requires t < |s.threads| == |s.results| && n < |s.word| == |s.next| == |s.place| && k >= 3 && s.list != []
    requires s.word[n] == 2
    ensures var s0 := s.(head := s.next[n], list := s.list[1..]);
      Run(Goto(s0.(place := s.place[n := Taker(t)]), t, On(n, CheckFlag)), Alone(t, k - 1)) == Dropped(s0, t, n)
  {
    hide Next, Run, Alone, Dropped;
    var s0 := s.(head := s.next[n], list := s.list[1..]);
    LoneDrop(Goto(s0.(place := s.place[n := Taker(t)]), t, On(n, CheckFlag)), t, n, k - 1);
    SameDropped(s0, t, n, Taker(t), On(n, CheckFlag));
  }

  lemma SameDropped(s: State, t: nat, n: nat, p: Place, pc: Pc)
    requires t < |s.threads| == |s.results| && n < |s.word| == |s.place|
    ensures Dropped(Goto(s.(place := s.place[n := p]), t, pc), t, n) == Dropped(s, t, n)
  {
    assert s.place[n := p][n := Client] == s.place[n := Client];
    assert s.threads[t := pc][t := Idle] == s.threads[t := Idle];
  }

  lemma TakeHead(s: State, t: nat, n: nat)
    requires t < |s.threads| && n < |s.word| == |s.next| == |s.place| && s.head == Some(n) && s.list != []
    requires s.threads[t] == On(n, CasHead(s.next[n]))
    ensures Next(s, Advance(t))
         == Goto(s.(head := s.next[n], list := s.list[1..], place := s.place[n := Taker(t)]), t, On(n, CheckFlag))
  {
  }

  lemma LoneDrop(s: State, t: nat, n: nat, k: nat)
    requires t < |s.threads| == |s.results| && n < |s.word| == |s.next| == |s.place| && k >= 2
    requires s.word[n] == 2 && s.threads[t] == On(n, CheckFlag)
    ensures Run(s, Alone(t, k)) == Dropped(s, t, n)
  {
    hide Next, Run, Alone;
    var s1 := Goto(s, t, On(n, DropTwo));
    FlagChecked(s, t, n);
    DropBoth(s1, t, n);
    AloneStep(s, t, k);
    AloneStep(s1, t, k - 1);
    AloneIdle(Dropped(s1, t, n), t, k - 2);
    SameDropped(s, t, n, s.place[n], On(n, DropTwo));
    assert s.place[n := s.place[n]] == s.place;
  }

  lemma FlagChecked(s: State, t: nat, n: nat)
    requires t < |s.threads| && n < |s.word| == |s.next| == |s.place| && s.threads[t] == On(n, CheckFlag)
    ensures Next(s, Advance(t)) == Goto(s, t, On(n, DropTwo))
  {
  }

  lemma DropBoth(s: State, t: nat, n: nat)
    requires t < |s.threads| == |s.results| && n < |s.word| == |s.next| == |s.place|
    requires s.word[n] == 2 && s.threads[t] == On(n, DropTwo)
    ensures Next(s, Advance(t)) == Dropped(s, t, n)
  {
  }

  /** A call of try_get with nobody else at work takes the first node of the list and
      returns it, or returns none exactly if the list is empty. */
  lemma LoneTryGet(s: State, t: nat, k: nat)
    requires Inv(s) && Quiescent(s) && t < |s.threads| && k >= 7
    ensures var s' := Run(Next(s, TryGet(t)), Alone(t, k));
      && s'.threads == s.threads && s'.results == s.results[t := s.results[t] + [First(s.list)]]
      && s'.head == First(s'.list) && s'.next == s.next
      && s'.list == (if s.list == [] then [] else s.list[1..])
      && (s.list == [] ==> s'.place == s.place && s'.word == s.word)
      && (s.list != [] ==>
            s.list[0] < |s.place| && s'.place == s.place[s.list[0] := Client] && s'.word == s.word[s.list[0] := 0])
  {
    ListOf(s);
    if s.list == [] {
      EmptyCall(s, t, k);
    } else {
      var n := s.list[0];
      FirstListed(s);
      QuiescentWord(s, n);
      LinkedFirst(s.list, s.next);
      var s4 := Goto(s.(word := s.word[n := 2]), t, On(n, CasHead(s.next[n])));
      assert Next(s, TryGet(t)) == Goto(s, t, ReadHead);
      assert s4.threads[t := Idle] == s.threads;
      hide Next, Run, Inv, ListSound;
      LoneReference(s, t, n, k);
      LoneTake(s4, t, n, k - 4);
      assert s.word[n := 2][n := 0] == s.word[n := 0];
    }
  }

  lemma LinkedFirst(list: seq<nat>, next: seq<Option<nat>>)
    requires Linked(list, next) && list != []
    ensures list[0] < |next| && next[list[0]] == First(list[1..])
  {
  }

  lemma EmptyCall(s: State, t: nat, k: nat)
    requires t < |s.threads| == |s.results| && s.threads[t] == Idle && s.head == None && k >= 1
    ensures Run(Next(s, TryGet(t)), Alone(t, k)) == s.(results := s.results[t := s.results[t] + [None]])
  {
    var s1, s2 := Goto(s, t, ReadHead), s.(results := s.results[t := s.results[t] + [None]]);
    assert Next(s, TryGet(t)) == s1;
    assert s1.threads[t := Idle] == s.threads;
    assert Next(s1, Advance(t)) == s2;
    hide Next, Run;
    AloneStep(s1, t, k);
    AloneIdle(s2, t, k - 1);
  }

  /** A client that gives a node back with nobody else at work puts it on the list, first. */
  lemma LoneAdd(s: State, t: nat, n: nat, k: nat)
    requires Inv(s) && Quiescent(s) && t < |s.threads| && n < |s.place| && s.place[n] == Client && k >= 5
    ensures Run(Next(s, Add(t, n)), Alone(t, k))
         == s.(head := Some(n), word := s.word[n := 1], next := s.next[n := s.head],
               list := [n] + s.list, place := s.place[n := Listed])
  {
    hide Next, Run, Alone, Inv;
    Lengths(s);
    QuiescentWord(s, n);
    AddSteps(s, t, n);
    AloneStep(Next(s, Add(t, n)), t, k);
    var s0 := s.(place := s.place[n := Publisher(t)], word := s.word[n := FLAG]);
    LonePublish(Goto(s0, t, On(n, LoadHead(Return))), t, n, k - 1);
    assert s.threads[t := On(n, LoadHead(Return))][t := Idle] == s.threads;
    assert s0.place[n := Listed] == s.place[n := Listed] && s0.word[n := 1] == s.word[n := 1];
  }

  lemma Lengths(s: State)
    requires Inv(s)
    ensures |s.word| == |s.next| == |s.place| && |s.threads| == |s.results|
  {
  }

  lemma AddSteps(s: State, t: nat, n: nat)
    requires t < |s.threads| && s.threads[t] == Idle && n < |s.word| == |s.next| == |s.place|
    requires s.place[n] == Client && s.word[n] == 0
    ensures Next(Next(s, Add(t, n)), Advance(t))
         == Goto(s.(place := s.place[n := Publisher(t)], word := s.word[n := FLAG]), t, On(n, LoadHead(Return)))
  {
    var s1 := Goto(s.(place := s.place[n := Adder(t)]), t, On(n, SetFlag));
    assert Next(s, Add(t, n)) == s1;
    assert s1.place[n := Publisher(t)] == s.place[n := Publisher(t)];
  }

  lemma LonePublish(s: State, t: nat, n: nat, k: nat)
    requires t < |s.threads| && n < |s.word| == |s.next| == |s.place| && k >= 4
    requires s.threads[t] == On(n, LoadHead(Return)) && s.place[n] == Publisher(t)
    ensures Run(s, Alone(t, k)) == Published(s.(next := s.next[n := s.head]), t, n)
  {
    hide Next, Run, Alone, Published;
    HeadLoaded(s, t, n);
    AloneStep(s, t, k);
    var pc := On(n, StoreNext(s.head, Return));
    LoneStore(Goto(s, t, pc), t, n, k - 1);
    SamePublished(s.(next := s.next[n := s.head]), t, n, pc);
  }

  lemma HeadLoaded(s: State, t: nat, n: nat)
    requires t < |s.threads| && n < |s.word| == |s.next| == |s.place| && s.threads[t] == On(n, LoadHead(Return))
    ensures Next(s, Advance(t)) == Goto(s, t, On(n, StoreNext(s.head, Return)))
  {
  }

  lemma SamePublished(s: State, t: nat, n: nat, pc: Pc)
    requires t < |s.threads| && n < |s.word| == |s.place|
    ensures Published(Goto(s, t, pc), t, n) == Published(s, t, n)
    ensures Published(Goto(s.(word := s.word[n := 1]), t, pc), t, n) == Published(s, t, n)
  {
    assert s.threads[t := pc][t := Idle] == s.threads[t := Idle] && s.word[n := 1][n := 1] == s.word[n := 1];
  }

  /** Thread t has put n on the list and returned. */
  function Published(s: State, t: nat, n: nat): State
    requires t < |s.threads| && n < |s.word| == |s.place|
  {
    s.(head := Some(n), word := s.word[n := 1], threads := s.threads[t := Idle],
       list := [n] + s.list, place := s.place[n := Listed])
  }

  lemma LoneStore(s: State, t: nat, n: nat, k: nat)
    requires t < |s.threads| && n < |s.word| == |s.next| == |s.place| && k >= 3
    requires s.threads[t] == On(n, StoreNext(s.head, Return)) && s.place[n] == Publisher(t)
    ensures Run(s, Alone(t, k)) == Published(s.(next := s.next[n := s.head]), t, n)
  {
    hide Next, Run, Alone, Published;
    NextStored(s, t, n);
    AloneStep(s, t, k);
    var s0, pc := s.(next := s.next[n := s.head]), On(n, StoreRefs(s.head, Return));
    LoneOffer(Goto(s0, t, pc), t, n, k - 1);
    SamePublished(s0, t, n, pc);
  }

  lemma NextStored(s: State, t: nat, n: nat)
    requires t < |s.threads| && n < |s.word| == |s.next| == |s.place|
    requires s.threads[t] == On(n, StoreNext(s.head, Return))
    ensures Next(s, Advance(t)) == Goto(s.(next := s.next[n := s.head]), t, On(n, StoreRefs(s.head, Return)))
  {
  }

  lemma LoneOffer(s: State, t: nat, n: nat, k: nat)
    requires t < |s.threads| && n < |s.word| == |s.next| == |s.place| && k >= 2
    requires s.threads[t] == On(n, StoreRefs(s.head, Return)) && s.place[n] == Publisher(t)
    ensures Run(s, Alone(t, k)) == Published(s, t, n)
  {
    hide Next, Run, Alone;
    var pc := On(n, CasPublish(s.head, Return));
    var s1 := Goto(s.(word := s.word[n := 1]), t, pc);
    RefsStored(s, t, n);
    AloneStep(s, t, k);
    CasSucceeds(s1, t, n);
    AloneStep(s1, t, k - 1);
    AloneIdle(Published(s1, t, n), t, k - 2);
    SamePublished(s, t, n, pc);
  }

  lemma RefsStored(s: State, t: nat, n: nat)
    requires t < |s.threads| && n < |s.word| == |s.next| == |s.place|
    requires s.threads[t] == On(n, StoreRefs(s.head, Return))
    ensures Next(s, Advance(t)) == Goto(s.(word := s.word[n := 1]), t, On(n, CasPublish(s.head, Return)))
  {
    assert s.place[n := s.place[n]] == s.place;
  }

  lemma CasSucceeds(s: State, t: nat, n: nat)
    requires t < |s.threads| && n < |s.word| == |s.next| == |s.place|
    requires s.threads[t] == On(n, CasPublish(s.head, Return)) && s.word[n] == 1
    ensures Next(s, Advance(t)) == Published(s, t, n)
  {
    assert s.word[n := 1] == s.word;
  }

  // ---- a thread on its own, wherever the others stand ----

  /** Accesses at most still to make by a thread that reads the count of node n next: the
      head is taken, a node further down leads to the head, any other may first have to be
      put on the list. */
  function AtNode(s: State, n: nat): nat {
    if s.head == Some(n) then 6 else if n < |s.place| && s.place[n] == Listed then 11 else 20
  }

  function AtLoop(s: State, head: Option<nat>): nat {
    match head
    case None => 0
    case Some(h) => AtNode(s, h)
  }

  /** The same once another node has been put on the list first. */
  function AtResume(s: State, r: Resume): nat {
    match r
    case Return => 0
    case Retry(None) => 0
    case Retry(Some(h)) => if h < |s.place| && s.place[h] == Listed then 11 else 20
  }

  /** A head that is out of date makes the publishing CAS fail once. */
  function OutOfDate(s: State, head: Option<nat>): nat {
    if s.head == head then 0 else 5
  }

  /** Accesses thread t has at most still to make if nobody else moves. */
  function AloneWork(s: State, pc: Pc): nat {
    match pc
    case Idle => 0
    case ReadHead => 7
    case On(n, op) =>
      match op
      case SetFlag => 5
      case LoadHead(r) => 4 + AtResume(s, r)
      case StoreNext(h, r) => 3 + OutOfDate(s, h) + AtResume(s, r)
      case StoreRefs(h, r) => 2 + OutOfDate(s, h) + AtResume(s, r)
      case CasPublish(h, r) => 1 + OutOfDate(s, h) + AtResume(s, r)
      case Retract(h, r) => 4 + OutOfDate(s, h) + AtResume(s, r)
      case ReadRefs => AtNode(s, n)
      case CasRefs(refs) => if n < |s.word| && s.word[n] == refs then AtNode(s, n) - 1 else 8
      case ReadNext => AtNode(s, n) - 2
      case CasHead(_) => AtNode(s, n) - 3
      case CheckFlag => 2
      case DropTwo => 1
      case Release(h) =>
        if n < |s.word| && s.word[n] == FLAG + 1 then 5 + AtResume(s, Retry(h)) else 1 + AtLoop(s, h)
  }

  lemma AloneWorkBound(s: State, pc: Pc)
    ensures AloneWork(s, pc) <= 29
  {
  }

  /** A listed node is referenced at least by the list. */
  lemma ListedWord(s: State, n: nat)
    requires Inv(s) && n < |s.word|
    ensures |s.place| == |s.word| == |s.next| && s.word[n] < WORD
    ensures s.place[n] == Listed ==> s.word[n] % FLAG != 0 && s.word[n] < FLAG
    ensures s.head.Some? ==> s.head.value < |s.place| && s.place[s.head.value] == Listed
  {
    assert NodeSound(s, n);
    ReferencesBound(s.threads, n);
    if s.head.Some? {
      FirstListed(s);
    }
  }

  /** Preparing a node for the list. */
  lemma PreparingAdvances(s: State, t: nat, n: nat, op: Op)
    requires Inv(s) && t < |s.threads| && s.threads[t] == On(n, op) && n < |s.word| == |s.next| == |s.place|
    requires op.SetFlag? || op.LoadHead? || op.StoreNext? || op.StoreRefs?
    ensures var s' := Access(s, t, n, op); AloneWork(s', s'.threads[t]) < AloneWork(s, On(n, op))
  {
    assert ThreadSound(s, t);
    ListedWord(s, n);
    hide Inv, ListSound, NodeSound;
  }

  /** Putting it on the list, or failing to. */
  lemma OfferingAdvances(s: State, t: nat, n: nat, op: Op)
    requires Inv(s) && t < |s.threads| && s.threads[t] == On(n, op) && n < |s.word| == |s.next| == |s.place|
    requires op.CasPublish? || op.Retract?
    ensures var s' := Access(s, t, n, op); AloneWork(s', s'.threads[t]) < AloneWork(s, On(n, op))
  {
    assert ThreadSound(s, t);
    ListedWord(s, n);
    hide Inv, ListSound, NodeSound;
  }

  /** Getting hold of a node. */
  lemma HoldingAdvances(s: State, t: nat, n: nat, op: Op)
    requires Inv(s) && t < |s.threads| && s.threads[t] == On(n, op) && n < |s.word| == |s.next| == |s.place|
    requires op.ReadRefs? || op.CasRefs? || op.ReadNext?
    ensures var s' := Access(s, t, n, op); AloneWork(s', s'.threads[t]) < AloneWork(s, On(n, op))
  {
    assert ThreadSound(s, t);
    ListedWord(s, n);
    hide Inv, ListSound, NodeSound;
  }

  /** Taking it off the list, or failing to. */
  lemma TakingAdvances(s: State, t: nat, n: nat, op: Op)
    requires Inv(s) && t < |s.threads| && s.threads[t] == On(n, op) && n < |s.word| == |s.next| == |s.place|
    requires op.CasHead? || op.CheckFlag? || op.DropTwo?
    ensures var s' := Access(s, t, n, op); AloneWork(s', s'.threads[t]) < AloneWork(s, On(n, op))
  {
    assert ThreadSound(s, t);
    ListedWord(s, n);
    hide Inv, ListSound, NodeSound;
  }

  /** Letting go of a node that was not taken. */
  lemma ReleasingAdvances(s: State, t: nat, n: nat, op: Op)
    requires Inv(s) && t < |s.threads| && s.threads[t] == On(n, op) && n < |s.word| == |s.next| == |s.place|
    requires op.Release?
    ensures var s' := Access(s, t, n, op); AloneWork(s', s'.threads[t]) < AloneWork(s, On(n, op))
  {
    assert ThreadSound(s, t);
    ListedWord(s, n);
    hide Inv, ListSound, NodeSound;
  }

  lemma OpAdvances(s: State, t: nat, n: nat, op: Op)
    requires Inv(s) && t < |s.threads| && s.threads[t] == On(n, op) && n < |s.word| == |s.next| == |s.place|
    ensures var s' := Access(s, t, n, op); AloneWork(s', s'.threads[t]) < AloneWork(s, On(n, op))
  {
    hide Inv, Access, AloneWork;
    if op.SetFlag? || op.LoadHead? || op.StoreNext? || op.StoreRefs? {
      PreparingAdvances(s, t, n, op);
    } else if op.CasPublish? || op.Retract? {
      OfferingAdvances(s, t, n, op);
    } else if op.ReadRefs? || op.CasRefs? || op.ReadNext? {
      HoldingAdvances(s, t, n, op);
    } else if op.Release? {
      ReleasingAdvances(s, t, n, op);
    } else {
      TakingAdvances(s, t, n, op);
    }
  }

  lemma AloneAdvances(s: State, t: nat)
    requires Inv(s) && t < |s.threads| && s.threads[t] != Idle
    ensures var s' := Next(s, Advance(t));
      && |s'.threads| == |s.threads| && AloneWork(s', s'.threads[t]) < AloneWork(s, s.threads[t])
  {
    MovedKeepsSizes(s, Advance(t));
    var s' := Moved(s, Advance(t));
    assert AloneWork(s', s'.threads[t]) < AloneWork(s, s.threads[t]) by {
      if s.threads[t].On? {
        assert ThreadSound(s, t);
        Lengths(s);
        var On(n, op) := s.threads[t];
        OpAdvances(s, t, n, op);
      }
    }
    NotedWork(s', t, s.threads[t]);
  }

  lemma NotedWork(s: State, t: nat, was: Pc)
    requires t < |s.threads|
    ensures AloneWork(Noted(s, t, was), s.threads[t]) == AloneWork(s, s.threads[t])
  {
  }

  /** From every reachable state, wherever the other threads have stopped, a thread that
      runs alone is out of its call after at most 29 accesses. */
  lemma {:induction false} AloneFinishes(s: State, t: nat, k: nat)
    requires Inv(s) && t < |s.threads| && k >= AloneWork(s, s.threads[t])
    ensures var s' := Run(s, Alone(t, k)); Inv(s') && |s'.threads| == |s.threads| && s'.threads[t] == Idle
    decreases k
  {
    hide Inv, Next, AloneWork;
    if s.threads[t] == Idle {
      AloneIdle(s, t, k);
    } else {
      AloneAdvances(s, t);
      InvStep(s, Advance(t));
      AloneStep(s, t, k);
      AloneFinishes(Next(s, Advance(t)), t, k - 1);
    }
  }

  /** No thread ever has to wait for another: after any run, any thread on its own is out
      of its call after 29 accesses. */
  lemma NobodyWaits(nodes: nat, threads: nat, actions: seq<Action>, t: nat)
    requires threads + 1 < FLAG && t < threads
    ensures var s := Run(Run(Init(nodes, threads), actions), Alone(t, 29));
      |s.threads| == threads && s.threads[t] == Idle
  {
    hide Inv, Next, AloneWork, Run;
    InitInv(nodes, threads);
    InvRun(Init(nodes, threads), actions);
    SizesKept(Init(nodes, threads), actions);
    var s := Run(Init(nodes, threads), actions);
    AloneWorkBound(s, s.threads[t]);
    AloneFinishes(s, t, 29);
  }

  // ---- what calls return ----

  /** How many calls of try_get thread t makes during a run. */
  function Calls(s: State, actions: seq<Action>, t: nat): nat
    decreases |actions|
  {
    if actions == [] then 0
    else
      (if actions[0] == TryGet(t) && t < |s.threads| && s.threads[t] == Idle then 1 else 0)
      + Calls(Next(s, actions[0]), actions[1..], t)
  }

  function Unanswered(pc: Pc): nat {
    if Getting(pc) then 1 else 0
  }

  /** A thread moves only itself. */
  lemma OthersStay(s: State, a: Action, t: nat)
    requires t < |s.threads| && a.t != t
    ensures |Moved(s, a).threads| == |s.threads| && Moved(s, a).threads[t] == s.threads[t]
  {
  }

  /** An access stays in the call it belongs to, or ends it. */
  lemma OwnAccess(s: State, t: nat, n: nat, op: Op)
    requires t < |s.threads| && s.threads[t] == On(n, op) && n < |s.word| == |s.next| == |s.place|
    ensures var s' := Access(s, t, n, op);
      && |s'.threads| == |s.threads| && s'.results == s.results
      && (s'.threads[t] == Idle || Getting(s'.threads[t]) == Getting(On(n, op)))
      && (KnowsEmpty(s'.threads[t]) ==> KnowsEmpty(On(n, op)) || s.head == None)
      && (s'.threads[t] == Idle && Getting(On(n, op)) ==>
            if op.DropTwo? then s'.place == s.place[n := Client] else KnowsEmpty(On(n, op)))
  {
  }

  lemma CallStep(s: State, a: Action, t: nat)
    requires t < |s.threads| == |s.results|
    ensures var s' := Next(s, a);
      && |s'.threads| == |s.threads| && |s'.results| == |s.results|
      && |s'.results[t]| + Unanswered(s'.threads[t])
         == |s.results[t]| + Unanswered(s.threads[t])
            + (if a == TryGet(t) && s.threads[t] == Idle then 1 else 0)
  {
    MovedKeepsSizes(s, a);
    if a.t != t {
      OthersStay(s, a, t);
      hide Moved, Getting;
    } else if a.Advance? && s.threads[t].On? && s.threads[t].n < |s.word| == |s.next| == |s.place| {
      OwnAccess(s, t, s.threads[t].n, s.threads[t].op);
      hide Access, Getting;
    }
  }

  lemma {:induction false} CallsRun(s: State, actions: seq<Action>, t: nat)
    requires t < |s.threads| == |s.results|
    ensures var s' := Run(s, actions);
      && |s'.threads| == |s.threads| && |s'.results| == |s.results|
      && |s'.results[t]| + Unanswered(s'.threads[t]) == |s.results[t]| + Unanswered(s.threads[t]) + Calls(s, actions, t)
    decreases |actions|
  {
    hide Next, Unanswered;
    if actions != [] {
      CallStep(s, actions[0], t);
      CallsRun(Next(s, actions[0]), actions[1..], t);
    }
  }

  /** Every call is answered once: between calls a thread has as many results as it has
      made calls. */
  lemma EveryCallAnswered(nodes: nat, threads: nat, actions: seq<Action>, t: nat)
    requires t < threads
    ensures var s := Run(Init(nodes, threads), actions);
      && |s.threads| == |s.results| == threads
      && (s.threads[t] == Idle ==> |s.results[t]| == Calls(Init(nodes, threads), actions, t))
  {
    CallsRun(Init(nodes, threads), actions, t);
  }

  /** In the state after the first j actions the list is empty, and from then on to the
      end of the run thread t never leaves the call it is in. */
  ghost predicate EmptyDuring(start: State, actions: seq<Action>, t: nat, j: nat) {
    && j <= |actions| && Run(start, actions[..j]).list == []
    && forall i | j <= i <= |actions| :: InCall(start, actions, t, i)
  }

  ghost predicate InCall(start: State, actions: seq<Action>, t: nat, i: nat)
    requires i <= |actions|
  {
    var s := Run(start, actions[..i]);
    t < |s.threads| && Getting(s.threads[t])
  }

  /** Has loaded an empty head before. */
  predicate KnowsEmpty(pc: Pc) {
    pc.On? && match pc.op {
      case LoadHead(r) => r == Retry(None)
      case StoreNext(_, r) => r == Retry(None)
      case StoreRefs(_, r) => r == Retry(None)
      case CasPublish(_, r) => r == Retry(None)
      case Retract(_, r) => r == Retry(None)
      case Release(h) => h == None
      case _ => false
    }
  }

  lemma {:induction false} RunJoin(s: State, first: seq<Action>, rest: seq<Action>)
    ensures Run(s, first + rest) == Run(Run(s, first), rest)
    decreases |first|
  {
    hide Next;
    if first == [] {
      assert first + rest == rest;
    } else {
      assert (first + rest)[1..] == first[1..] + rest;
      RunJoin(Next(s, first[0]), first[1..], rest);
    }
  }

  lemma RunLast(s: State, before: seq<Action>, a: Action)
    ensures Run(s, before + [a]) == Next(Run(s, before), a)
  {
    hide Next;
    RunJoin(s, before, [a]);
    assert [a][1..] == [];
  }

  /** Where a thread comes to know of an empty list. */
  lemma KnowsStep(s: State, a: Action, t: nat)
    requires t < |s.threads|
    ensures var s' := Next(s, a);
      && |s'.threads| == |s.threads|
      && (KnowsEmpty(s'.threads[t]) ==> Getting(s.threads[t]) && (KnowsEmpty(s.threads[t]) || s.head == None))
  {
    MovedKeepsSizes(s, a);
    if a.t != t {
      OthersStay(s, a, t);
      hide Moved;
    } else if a.Advance? && s.threads[t].On? && s.threads[t].n < |s.word| == |s.next| == |s.place| {
      OwnAccess(s, t, s.threads[t].n, s.threads[t].op);
      KnowsGetting(Next(s, a).threads[t]);
      hide Access, Getting, KnowsEmpty;
    }
  }

  lemma KnowsGetting(pc: Pc)
    ensures KnowsEmpty(pc) ==> Getting(pc) && pc != Idle
  {
  }

  lemma EmptyLater(start: State, before: seq<Action>, a: Action, t: nat, j: nat)
    requires EmptyDuring(start, before, t, j) && InCall(start, before + [a], t, |before| + 1)
    ensures EmptyDuring(start, before + [a], t, j)
  {
    var actions := before + [a];
    forall i | j <= i <= |actions| ensures InCall(start, actions, t, i) {
      if i <= |before| {
        assert actions[..i] == before[..i] && InCall(start, before, t, i);
      }
    }
    assert actions[..j] == before[..j];
  }

  lemma EmptyNow(start: State, actions: seq<Action>, t: nat)
    requires Run(start, actions).list == [] && InCall(start, actions, t, |actions|)
    ensures EmptyDuring(start, actions, t, |actions|)
  {
    assert actions[..|actions|] == actions;
  }

  lemma {:induction false} KnownEmpty(start: State, actions: seq<Action>, t: nat) returns (j: nat)
    requires Inv(start) && t < |Run(start, actions).threads| && KnowsEmpty(Run(start, actions).threads[t])
    requires t < |start.threads| && !KnowsEmpty(start.threads[t])
    ensures EmptyDuring(start, actions, t, j)
    decreases |actions|
  {
    hide Next, Getting, KnowsEmpty;
    assert actions != [];
    var before, a := actions[..|actions| - 1], actions[|actions| - 1];
    assert actions == before + [a];
    var s := Run(start, before);
    RunLast(start, before, a);
    InvRun(start, before);
    SizesKept(start, before);
    KnowsStep(s, a, t);
    InCallNow(start, actions, t);
    if KnowsEmpty(s.threads[t]) {
      j := KnownEmpty(start, before, t);
      EmptyLater(start, before, a, t, j);
    } else {
      j := |before|;
      EmptyHead(s);
      assert before[..|before|] == before;
      EmptyNow(start, before, t);
      EmptyLater(start, before, a, t, j);
    }
  }

  lemma InCallNow(start: State, actions: seq<Action>, t: nat)
    requires t < |Run(start, actions).threads| && KnowsEmpty(Run(start, actions).threads[t])
    ensures InCall(start, actions, t, |actions|)
  {
    KnowsGetting(Run(start, actions).threads[t]);
    assert actions[..|actions|] == actions;
  }

  lemma EmptyHead(s: State)
    requires Inv(s)
    ensures s.head == None <==> s.list == []
  {
  }

  /** What the last access of a call has seen. */
  lemma AnswerStep(s: State, a: Action, t: nat)
    requires Inv(s) && t < |s.threads| == |s.results| == |Next(s, a).results|
    requires Next(s, a).results[t] != s.results[t]
    ensures var s' := Next(s, a);
      && |s'.results| == |s.results| && Getting(s.threads[t]) && s'.threads[t] == Idle
      && |s'.results[t]| == |s.results[t]| + 1 && s'.results[t][..|s.results[t]|] == s.results[t]
      && match s'.results[t][|s.results[t]|] {
           case Some(n) => n < |s.place| && s.place[n] == Taker(t) && s'.place == s.place[n := Client]
           case None => KnowsEmpty(s.threads[t]) || s.head == None
         }
  {
    MovedKeepsSizes(s, a);
    assert ThreadSound(s, t);
    if a.Advance? && a.t == t && s.threads[t].On? {
      OwnAccess(s, t, s.threads[t].n, s.threads[t].op);
      hide Access, Getting, KnowsEmpty;
    }
  }

  /** A call that returns no node has seen an empty list: in some state since it began
      the list was empty. */
  lemma NoneMeansEmpty(nodes: nat, threads: nat, actions: seq<Action>, a: Action, t: nat)
    requires threads + 1 < FLAG && t < threads
    ensures var start := Init(nodes, threads); var s := Run(start, actions); var s' := Next(s, a);
      && |s.results| == |s'.results| == threads
      && (s'.results[t] == s.results[t] + [None] ==> exists j :: EmptyDuring(start, actions, t, j))
  {
    hide Next, Getting, KnowsEmpty, InCall;
    var start := Init(nodes, threads);
    var s := Run(start, actions);
    InitInv(nodes, threads);
    InvRun(start, actions);
    SizesKept(start, actions);
    StepKeepsSizes(s, a);
    if Next(s, a).results[t] == s.results[t] + [None] {
      AnswerStep(s, a, t);
      if KnowsEmpty(s.threads[t]) {
        NotYet(nodes, threads, t);
        var j := KnownEmpty(start, actions, t);
      } else {
        EmptyHead(s);
        GettingNow(start, actions, t);
        EmptyNow(start, actions, t);
      }
    }
  }

  lemma NotYet(nodes: nat, threads: nat, t: nat)
    requires t < threads
    ensures !KnowsEmpty(Init(nodes, threads).threads[t])
  {
  }

  lemma GettingNow(start: State, actions: seq<Action>, t: nat)
    requires t < |Run(start, actions).threads| && Getting(Run(start, actions).threads[t])
    ensures InCall(start, actions, t, |actions|)
  {
    assert actions[..|actions|] == actions;
  }

  /** A call that returns a node had that node in its own hands, and leaves it to its
      client. */
  lemma SomeMeansTaken(nodes: nat, threads: nat, actions: seq<Action>, a: Action, t: nat, n: nat)
    requires threads + 1 < FLAG && t < threads
    ensures var s := Run(Init(nodes, threads), actions); var s' := Next(s, a);
      && |s.results| == |s'.results| == threads
      && (s'.results[t] == s.results[t] + [Some(n)] ==>
            n < |s.place| == |s'.place| && s.place[n] == Taker(t) && s'.place[n] == Client)
  {
    hide Next, Getting, KnowsEmpty;
    var start := Init(nodes, threads);
    var s := Run(start, actions);
    InitInv(nodes, threads);
    InvRun(start, actions);
    SizesKept(start, actions);
    StepKeepsSizes(s, a);
    if Next(s, a).results[t] == s.results[t] + [Some(n)] {
      AnswerStep(s, a, t);
    }
  }
}
