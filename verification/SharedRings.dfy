/** The block ring of one explicit producer while any number of consumers use it: the
    ticket counters of module Tickets, composed with the blocks, their flags and the
    block index. Every action is one access to shared memory, made by the producer or by
    a consumer; what a thread does on its own data comes with the access before it.

    Indices count without bound here; LookupOnWords shows what the stored words give. */
module SharedRings {
  import opened Basics
  import opened Circular
  import opened Blocks
  import Tickets
  import ExplicitProducers

  /** A cell of a block. The flag of cell k is the one stored at place 31 - k. */
  datatype Loc = Loc(block: nat, cell: nat)

  datatype Entry = Entry(base: nat, block: Option<nat>)

  /** A block index as consumers see it. The rest is history: count is the number of
      blocks published in it, and block number c is in the slot c + off. */
  datatype Header = Header(entries: seq<Entry>, front: nat, off: int, count: nat)

  /** What the producer does next with the element x. */
  datatype Producer<T> =
    | Ready
    | Scan(x: T, cell: nat)     // the flags above that cell were seen set
    | Reset(x: T, cell: nat)    // the flags above that cell are cleared
    | Room(x: T)                // about to load the head index
    | Growing(x: T)             // needs room in the block index
    | Fetch(x: T)               // needs a block
    | WriteBase(x: T)
    | WriteBlock(x: T)
    | StoreFront(x: T)
    | Construct(x: T)
    | Publish(x: T)

  /** What a consumer that has claimed the indices lo .. hi does next; Free, it has none
      and its calls are at the ticket counters. */
  datatype Reader =
    | Free
    | Claimed(lo: nat, hi: nat)                          // about to load the index pointer
    | AtFront(lo: nat, hi: nat, h: nat)                  // about to load the front of index h
    | AtBase(lo: nat, hi: nat, h: nat, front: nat, count: nat)  // about to read a base there
    | AtBlock(lo: nat, hi: nat, h: nat, slot: nat)       // about to read the block in that slot
    | Moving(lo: nat, hi: nat, h: nat, slot: nat, block: nat, i: nat)    // moved up to i
    | Flagging(lo: nat, hi: nat, h: nat, slot: nat, block: nat, i: nat)  // flagged down to i
    | Fault                                              // a null block or an empty cell

  /** What became of a claimed index. */
  datatype Progress = Held(t: nat) | Emptied(t: nat) | Done

  /** cells are the constructed elements, flags the cells flagged as dequeued. ring lists
      the blocks along their next pointers, the tail block last; its first block has
      number first, that is, holds the indices from 32 * first on. out[t] is what
      consumer t has moved out of cells, progress[i] what became of index i. */
  datatype State<T> = State(
    q: Tickets.State<T>, cells: map<Loc, T>, flags: set<Loc>, blocks: nat, ring: seq<nat>, first: nat,
    headers: seq<Header>, indexSize: nat, indexFront: nat, pc: Producer<T>,
    readers: seq<Reader>, progress: seq<Progress>, out: seq<seq<T>>)

  datatype Action<T> =
    | Enqueue(x: T)
    | Produce(ok: bool)        // ok: size limit, allocation and free list permit the step
    | Begin(t: nat, max: nat)
    | Consume(t: nat)

  /** The first block index may or may not have been allocated. */
  function Init<T>(consumers: nat, half: nat, indexed: bool): State<T>
    requires half > 0
  {
    State(Tickets.Init(consumers), map[], {}, 0, [], 0,
          if indexed then [Header(seq(2 * half, _ => Entry(0, None)), 0, 0, 0)] else [],
          if indexed then 2 * half else half, 0, Ready,
          seq(consumers, _ => Free), [], seq(consumers, _ => []))
  }

  function Next<T>(s: State<T>, a: Action<T>): State<T> {
    match a
    case Enqueue(x) =>
      if !s.pc.Ready? then s
      else s.(pc := if |s.q.items| % BLOCK_SIZE != 0 then Construct(x)
                    else if s.ring == [] then Room(x) else Scan(x, BLOCK_SIZE - 1))
    case Produce(ok) => Produced(s, ok)
    case Begin(t, max) =>
      if t < |s.readers| && s.readers[t].Free? then s.(q := Tickets.Next(s.q, Tickets.Begin(t, max))) else s
    case Consume(t) => if t < |s.readers| && t < |s.out| then Consumed(s, t) else s
  }

  function Run<T>(s: State<T>, actions: seq<Action<T>>): State<T>
    decreases |actions|
  {
    if actions == [] then s else Run(Next(s, actions[0]), actions[1..])
  }

  // ---- the producer ----

  function TailBlock(ring: seq<nat>): nat {
    if ring == [] then 0 else ring[|ring| - 1]
  }

  function Produced<T>(s: State<T>, ok: bool): State<T> {
    var tail := |s.q.items|;
    match s.pc
    case Ready => s
    case Scan(x, cell) =>
      if s.ring == [] || Loc(s.ring[0], cell) !in s.flags then s.(pc := Room(x))
      else if cell > 0 then s.(pc := Scan(x, cell - 1))
      else s.(ring := s.ring[1..] + [s.ring[0]], first := s.first + 1, pc := Reset(x, BLOCK_SIZE - 1))
    case Reset(x, cell) =>
      s.(flags := s.flags - {Loc(TailBlock(s.ring), cell)}, pc := if cell > 0 then Reset(x, cell - 1) else WriteBase(x))
    case Room(x) =>
      s.(pc := if ok && tail + BLOCK_SIZE < |s.q.claims| + HALF then Growing(x) else Ready)
    case Growing(x) =>
      if s.headers != [] && |s.ring| < s.indexSize then s.(pc := Fetch(x))
      else if !ok then s.(pc := Ready)
      else s.(headers := s.headers + [Copied(s.headers, s.ring, s.first, s.indexSize, s.indexFront)],
              indexSize := 2 * s.indexSize, indexFront := |s.ring|, pc := Fetch(x))
    case Fetch(x) =>
      if ok then s.(ring := s.ring + [s.blocks], blocks := s.blocks + 1, pc := WriteBase(x)) else s.(pc := Ready)
    case WriteBase(x) =>
      s.(headers := WithEntry(s.headers, s.indexFront, Entry(tail, EntryAt(s.headers, s.indexFront).block)),
         pc := WriteBlock(x))
    case WriteBlock(x) =>
      s.(headers := WithEntry(s.headers, s.indexFront,
                              Entry(EntryAt(s.headers, s.indexFront).base, Some(TailBlock(s.ring)))),
         pc := StoreFront(x))
    case StoreFront(x) =>
      s.(headers := WithFront(s.headers, s.indexFront),
         indexFront := if s.indexSize > 0 then (s.indexFront + 1) % s.indexSize else 0, pc := Construct(x))
    case Construct(x) => s.(cells := s.cells[Loc(TailBlock(s.ring), tail % BLOCK_SIZE) := x], pc := Publish(x))
    case Publish(x) => s.(q := Tickets.Next(s.q, Tickets.Publish([x])), pc := Ready)
  }

  /** The larger index: the entries in use, copied to the slots from 0 on. */
  function Copied(headers: seq<Header>, ring: seq<nat>, first: nat, size: nat, front: nat): (r: Header)
    ensures |r.entries| == 2 * size
  {
    Header(seq(2 * size, m => if m < |ring| then EntryAt(headers, (front - |ring| + m) % (if size > 0 then size else 1))
                              else Entry(0, None)),
           if ring == [] then 0 else |ring| - 1, 0 - first, first + |ring|)
  }

  function EntryAt(headers: seq<Header>, slot: nat): Entry {
    if headers != [] && slot < |headers[|headers| - 1].entries| then headers[|headers| - 1].entries[slot]
    else Entry(0, None)
  }

  function WithEntry(headers: seq<Header>, slot: nat, e: Entry): (r: seq<Header>)
    ensures |r| == |headers|
  {
    if headers != [] && slot < |headers[|headers| - 1].entries| then
      var last := headers[|headers| - 1];
      headers[|headers| - 1 := last.(entries := last.entries[slot := e])]
    else headers
  }

  function WithFront(headers: seq<Header>, slot: nat): (r: seq<Header>)
    ensures |r| == |headers|
  {
    if headers == [] then headers
    else
      var last := headers[|headers| - 1];
      headers[|headers| - 1 := last.(front := slot, count := last.count + 1)]
  }

  // ---- the consumers ----

  function Goto<T>(s: State<T>, t: nat, r: Reader): State<T>
    requires t < |s.readers|
  {
    s.(readers := s.readers[t := r])
  }

  /** The end of what lies in the block of index lo. */
  function End(lo: nat, hi: nat): (end: nat)
    ensures end <= hi && (lo < hi ==> lo < end)
  {
    if lo - lo % BLOCK_SIZE + BLOCK_SIZE < hi then lo - lo % BLOCK_SIZE + BLOCK_SIZE else hi
  }

  /** The slot of the block of index lo, counted from a slot and the base found there. */
  function SlotFrom(front: nat, base: nat, size: nat, lo: nat): (slot: nat)
    requires size > 0
    ensures slot < size
  {
    (front + Quotient(lo - lo % BLOCK_SIZE - base, BLOCK_SIZE)) % size
  }

  function Consumed<T>(s: State<T>, t: nat): State<T>
    requires t < |s.readers| && t < |s.out|
  {
    match s.readers[t]
    case Free => AtTickets(s, t)
    case Claimed(lo, hi) => Goto(s, t, if s.headers == [] then Fault else AtFront(lo, hi, |s.headers| - 1))
    case AtFront(lo, hi, h) =>
      Goto(s, t, if h < |s.headers| then AtBase(lo, hi, h, s.headers[h].front, s.headers[h].count) else Fault)
    case AtBase(lo, hi, h, front, _) =>
      Goto(s, t, if h < |s.headers| && front < |s.headers[h].entries|
                 then AtBlock(lo, hi, h, SlotFrom(front, s.headers[h].entries[front].base, |s.headers[h].entries|, lo))
                 else Fault)
    case AtBlock(lo, hi, h, slot) =>
      Goto(s, t, if h < |s.headers| && slot < |s.headers[h].entries| && s.headers[h].entries[slot].block.Some?
                 then Moving(lo, hi, h, slot, s.headers[h].entries[slot].block.value, lo)
                 else Fault)
    case Moving(lo, hi, h, slot, block, i) =>
      // move the element out and destroy it
      var loc := Loc(block, i % BLOCK_SIZE);
      if loc !in s.cells || i >= |s.progress| then Goto(s, t, Fault)
      else s.(cells := s.cells - {loc}, out := s.out[t := s.out[t] + [s.cells[loc]]],
              progress := s.progress[i := Emptied(t)],
              readers := s.readers[t := if i + 1 < End(lo, hi) then Moving(lo, hi, h, slot, block, i + 1)
                                        else Flagging(lo, hi, h, slot, block, i)])
    case Flagging(lo, hi, h, slot, block, i) =>
      if h >= |s.headers| || |s.headers[h].entries| == 0 || i >= |s.progress| then Goto(s, t, Fault)
      else s.(flags := s.flags + {Loc(block, i % BLOCK_SIZE)}, progress := s.progress[i := Done],
              readers := s.readers[t := if i > lo then Flagging(lo, hi, h, slot, block, i - 1)
                                        else if End(lo, hi) == hi then Free
                                        else AtBlock(End(lo, hi), hi, h, (slot + 1) % |s.headers[h].entries|)])
    case Fault => s
  }

  /** An access to the ticket counters; advancing the head claims indices. */
  function AtTickets<T>(s: State<T>, t: nat): State<T>
    requires t < |s.readers|
  {
    var q := Tickets.Next(s.q, Tickets.Advance(t));
    var lo, hi := |s.q.claims|, |q.claims|;
    if lo < hi
    then s.(q := q, readers := s.readers[t := Claimed(lo, hi)], progress := s.progress + seq(hi - lo, _ => Held(t)))
    else s.(q := q)
  }

  // ---- the invariant: where the blocks are ----

  predicate Opening<T>(pc: Producer<T>) {
    pc.Reset? || pc.WriteBase? || pc.WriteBlock? || pc.StoreFront?
  }

  /** The last block ends at, behind or just before the tail, as the producer's place says. */
  ghost predicate Placed<T>(pc: Producer<T>, tail: nat, n: nat, first: nat) {
    match pc
    case Ready => if n == 0 then tail == first == 0
                  else BLOCK_SIZE * (first + n - 1) < tail <= BLOCK_SIZE * (first + n)
    case Scan(_, cell) => n > 0 && tail == BLOCK_SIZE * (first + n) && cell < BLOCK_SIZE
    case Room(_) => tail == BLOCK_SIZE * (first + n) && (n == 0 ==> tail == 0)
    case Growing(_) => tail == BLOCK_SIZE * (first + n) && (n == 0 ==> tail == 0)
    case Fetch(_) => tail == BLOCK_SIZE * (first + n) && (n == 0 ==> tail == 0)
    case Construct(_) => n > 0 && BLOCK_SIZE * (first + n - 1) <= tail < BLOCK_SIZE * (first + n)
    case Publish(_) => n > 0 && BLOCK_SIZE * (first + n - 1) <= tail < BLOCK_SIZE * (first + n)
    case Reset(_, cell) => n > 0 && tail == BLOCK_SIZE * (first + n - 1) && cell < BLOCK_SIZE
    case _ => n > 0 && tail == BLOCK_SIZE * (first + n - 1)
  }

  ghost predicate Owned<T>(ring: seq<nat>, blocks: nat, cells: map<Loc, T>, flags: set<Loc>) {
    && Distinct(ring) && (forall i | 0 <= i < |ring| :: ring[i] < blocks)
    && (forall loc | loc in cells :: loc.block < blocks)
    && (forall loc | loc in flags :: loc.block < blocks)
  }

  predicate InRing(ring: seq<nat>, first: nat, i: nat) {
    BLOCK_SIZE * first <= i < BLOCK_SIZE * (first + |ring|)
  }

  /** The cell of index i. */
  function At(ring: seq<nat>, first: nat, i: nat): Loc
    requires InRing(ring, first, i)
  {
    Loc(ring[i / BLOCK_SIZE - first], i % BLOCK_SIZE)
  }

  // ---- the invariant: what is in the blocks ----

  /** Index i has an element in its cell. */
  predicate Live<T>(stored: seq<T>, progress: seq<Progress>, i: nat) {
    i < |stored| && (i < |progress| ==> progress[i].Held?)
  }

  ghost predicate CellsSound<T>(cells: map<Loc, T>, ring: seq<nat>, first: nat, stored: seq<T>,
                                progress: seq<Progress>) {
    forall i: nat | InRing(ring, first, i) ::
      && (At(ring, first, i) in cells <==> Live(stored, progress, i))
      && (At(ring, first, i) in cells ==> cells[At(ring, first, i)] == stored[i])
  }

  predicate IsDone(progress: seq<Progress>, i: nat) {
    i < |progress| && progress[i].Done?
  }

  /** But for the first stale flags of the last block, the flags are those of the indices
      done with. */
  ghost predicate FlagsSound(flags: set<Loc>, ring: seq<nat>, first: nat, progress: seq<Progress>, stale: nat) {
    forall i: nat | InRing(ring, first, i) && !(0 <= i - BLOCK_SIZE * (first + |ring| - 1) < stale) ::
      At(ring, first, i) in flags <==> IsDone(progress, i)
  }

  function Stale<T>(pc: Producer<T>): nat {
    if pc.Reset? then pc.cell + 1 else 0
  }

  /** The elements published, and the one constructed behind them. */
  function Stored<T>(items: seq<T>, pc: Producer<T>): seq<T> {
    if pc.Publish? then items + [pc.x] else items
  }

  /** Every index before the ring is done with. */
  ghost predicate Passed(progress: seq<Progress>, first: nat) {
    forall i | 0 <= i < BLOCK_SIZE * first :: IsDone(progress, i)
  }

  ghost predicate Seen<T>(pc: Producer<T>, ring: seq<nat>, flags: set<Loc>) {
    pc.Scan? && ring != [] ==> forall k | pc.cell < k < BLOCK_SIZE :: Loc(ring[0], k) in flags
  }

  // ---- the invariant: the block indices ----

  function Slot(h: Header, c: int): (slot: nat)
    requires h.entries != []
    ensures slot < |h.entries|
  {
    (c + h.off) % |h.entries|
  }

  /** The entries of the published blocks that are still in their places. */
  ghost predicate HeaderSound(h: Header, ring: seq<nat>, first: nat) {
    && h.entries != [] && h.count <= first + |ring|
    && (forall c | first <= c < h.count :: h.entries[Slot(h, c)] == Entry(BLOCK_SIZE * c, Some(ring[c - first])))
    && (h.count > 0 ==> h.front == Slot(h, h.count - 1))
  }

  function Listed<T>(pc: Producer<T>, n: nat, first: nat): int {
    if Opening(pc) then first + n - 1 else first + n
  }

  ghost predicate HeadersSound(headers: seq<Header>, ring: seq<nat>, first: nat) {
    forall h | 0 <= h < |headers| :: HeaderSound(headers[h], ring, first)
  }

  /** The current index shows all blocks but one being added, and has room for that. */
  ghost predicate Current(headers: seq<Header>, n: nat, listed: int, indexSize: nat, indexFront: nat) {
    && indexSize > 0
    && (headers == [] ==> n == 0)
    && (headers != [] ==>
          var h := headers[|headers| - 1];
          |h.entries| == indexSize && h.count == listed && n <= indexSize && indexFront == Slot(h, listed))
  }

  /** Where there is room, and the entry that is being written. */
  ghost predicate Underway<T>(pc: Producer<T>, headers: seq<Header>, tail: nat, ring: seq<nat>, size: nat, front: nat) {
    && (pc.Fetch? ==> headers != [] && |ring| < size)
    && (pc.WriteBlock? ==> EntryAt(headers, front).base == tail)
    && (pc.StoreFront? ==> EntryAt(headers, front) == Entry(tail, Some(TailBlock(ring))))
  }

  // ---- the invariant: the readers ----

  ghost predicate AllHeld(progress: seq<Progress>, t: nat, lo: nat, hi: nat) {
    hi <= |progress| && forall i | lo <= i < hi :: progress[i] == Held(t)
  }

  ghost predicate AllEmptied(progress: seq<Progress>, t: nat, lo: nat, hi: nat) {
    hi <= |progress| && forall i | lo <= i < hi :: progress[i] == Emptied(t)
  }

  ghost predicate Owns(progress: seq<Progress>, t: nat, r: Reader) {
    match r
    case Free => true
    case Moving(lo, hi, _, _, _, i) =>
      lo <= i < End(lo, hi) && AllEmptied(progress, t, lo, i) && AllHeld(progress, t, i, hi)
    case Flagging(lo, hi, _, _, _, i) =>
      lo <= i < End(lo, hi) && AllEmptied(progress, t, lo, i + 1) && AllHeld(progress, t, End(lo, hi), hi)
    case Fault => false
    case _ => r.lo < r.hi && AllHeld(progress, t, r.lo, r.hi)
  }

  /** The index it has, though perhaps replaced since, shows the blocks it looks for. */
  ghost predicate Shows(headers: seq<Header>, hi: nat, h: nat) {
    h < |headers| && headers[h].entries != [] && hi <= BLOCK_SIZE * headers[h].count
  }

  ghost predicate Looks(headers: seq<Header>, ring: seq<nat>, first: nat, r: Reader) {
    match r
    case Free => true
    case Claimed(_, _) => true
    case AtFront(_, hi, h) => Shows(headers, hi, h)
    case AtBase(_, hi, h, front, count) =>
      && Shows(headers, hi, h) && hi <= BLOCK_SIZE * count
      && count <= headers[h].count && front == Slot(headers[h], count - 1)
    case AtBlock(lo, hi, h, slot) => Shows(headers, hi, h) && slot == Slot(headers[h], lo / BLOCK_SIZE)
    case Moving(lo, hi, h, slot, block, _) =>
      Shows(headers, hi, h) && slot == Slot(headers[h], lo / BLOCK_SIZE) && HasBlock(ring, first, lo, block)
    case Flagging(lo, hi, h, slot, block, _) =>
      Shows(headers, hi, h) && slot == Slot(headers[h], lo / BLOCK_SIZE) && HasBlock(ring, first, lo, block)
    case Fault => false
  }

  predicate HasBlock(ring: seq<nat>, first: nat, i: nat, block: nat) {
    InRing(ring, first, i) && ring[i / BLOCK_SIZE - first] == block
  }

  /** What a reader has still to move out. */
  function Rest<T>(items: seq<T>, r: Reader): seq<T> {
    match r
    case Free => []
    case Moving(_, hi, _, _, _, i) => Slice(items, i, hi)
    case Flagging(lo, hi, _, _, _, _) => Slice(items, End(lo, hi), hi)
    case Fault => []
    case _ => Slice(items, r.lo, r.hi)
  }

  function Slice<T>(items: seq<T>, lo: nat, hi: nat): seq<T> {
    if lo <= hi <= |items| then items[lo..hi] else []
  }

  /** The indices a reader has claimed and not flagged. */
  predicate InHand(r: Reader, i: nat) {
    match r
    case Free => false
    case Flagging(lo, hi, _, _, _, j) => lo <= i <= j || End(lo, hi) <= i < hi
    case Fault => false
    case _ => r.lo <= i < r.hi
  }

  ghost predicate HasOwner(progress: seq<Progress>, readers: seq<Reader>, i: nat)
    requires i < |progress|
  {
    progress[i].Done? || (progress[i].t < |readers| && InHand(readers[progress[i].t], i))
  }

  ghost predicate OwnersSound(progress: seq<Progress>, readers: seq<Reader>) {
    && (forall t | 0 <= t < |readers| :: Owns(progress, t, readers[t]))
    && (forall i | 0 <= i < |progress| :: HasOwner(progress, readers, i))
  }

  ghost predicate LooksSound(headers: seq<Header>, ring: seq<nat>, first: nat, readers: seq<Reader>) {
    forall t | 0 <= t < |readers| :: Looks(headers, ring, first, readers[t])
  }

  /** The tickets are in order, and what readers moved out is what their tickets gave them. */
  ghost predicate Ticketed<T>(q: Tickets.State<T>, readers: seq<Reader>, out: seq<seq<T>>) {
    && Tickets.Inv(q)
    && |readers| == |q.threads| == |out|
    && (forall t | 0 <= t < |readers| :: readers[t].Free? || q.threads[t] == Tickets.Idle)
    && (forall t | 0 <= t < |readers| :: out[t] + Rest(q.items, readers[t]) == q.received[t])
  }

  ghost predicate MemorySound<T>(s: State<T>) {
    && Owned(s.ring, s.blocks, s.cells, s.flags)
    && Passed(s.progress, s.first)
    && CellsSound(s.cells, s.ring, s.first, Stored(s.q.items, s.pc), s.progress)
    && FlagsSound(s.flags, s.ring, s.first, s.progress, Stale(s.pc))
    && Seen(s.pc, s.ring, s.flags)
  }

  ghost predicate IndexSound<T>(s: State<T>) {
    && HeadersSound(s.headers, s.ring, s.first)
    && Current(s.headers, |s.ring|, Listed(s.pc, |s.ring|, s.first), s.indexSize, s.indexFront)
    && Underway(s.pc, s.headers, |s.q.items|, s.ring, s.indexSize, s.indexFront)
  }

  ghost predicate Inv<T>(s: State<T>) {
    && Ticketed(s.q, s.readers, s.out)
    && |s.progress| == |s.q.claims| <= |s.q.items|
    && Placed(s.pc, |s.q.items|, |s.ring|, s.first)
    && MemorySound(s) && IndexSound(s)
    && OwnersSound(s.progress, s.readers) && LooksSound(s.headers, s.ring, s.first, s.readers)
  }

  // ---- slots and cells ----

  lemma Unique(x: int, q: int, r: nat, n: nat)
    requires r < n && x == q * n + r
    ensures x % n == r
  {
    var d := q - x / n;
    assert d * n == x % n - r;
    assert d >= 1 ==> d * n >= n;
    assert d <= -1 ==> d * n <= 0 - n;
  }

  /** Slots move along with the numbers of the blocks. */
  lemma SlotMoves(h: Header, a: int, b: int)
    requires h.entries != []
    ensures (Slot(h, a) + (b - a)) % |h.entries| == Slot(h, b)
  {
    var n, x := |h.entries|, a + h.off;
    Unique(Slot(h, a) + (b - a), (b + h.off) / n - x / n, Slot(h, b), n);
  }

  lemma SlotsDiffer(h: Header, a: int, b: int)
    requires h.entries != [] && a < b < a + |h.entries|
    ensures Slot(h, a) != Slot(h, b)
  {
    SlotMoves(h, a, b);
    var n, x := |h.entries|, Slot(h, a) + (b - a);
    Remainder(x, if x < n then x else x - n, n);
  }

  lemma AtDiffers(ring: seq<nat>, first: nat, i: nat, j: nat)
    requires Distinct(ring) && InRing(ring, first, i) && InRing(ring, first, j)
    ensures At(ring, first, i) == At(ring, first, j) <==> i == j
  {
  }

  // ---- the producer turns the ring ----

  function Turned(ring: seq<nat>): seq<nat>
    requires ring != []
  {
    ring[1..] + [ring[0]]
  }

  lemma TurnedAt(ring: seq<nat>, first: nat, i: nat)
    requires ring != [] && InRing(Turned(ring), first + 1, i)
    ensures if i < BLOCK_SIZE * (first + |ring|)
            then InRing(ring, first, i) && At(Turned(ring), first + 1, i) == At(ring, first, i)
            else i >= BLOCK_SIZE * |ring| && InRing(ring, first, i - BLOCK_SIZE * |ring|)
                 && i - BLOCK_SIZE * |ring| < BLOCK_SIZE * (first + 1)
                 && At(Turned(ring), first + 1, i) == At(ring, first, i - BLOCK_SIZE * |ring|)
  {
  }

  /** A block is taken for the next elements only when each of its indices is done with. */
  lemma BlockDone(flags: set<Loc>, ring: seq<nat>, first: nat, progress: seq<Progress>)
    requires ring != [] && FlagsSound(flags, ring, first, progress, 0) && Passed(progress, first)
    requires forall k | 0 <= k < BLOCK_SIZE :: Loc(ring[0], k) in flags
    ensures Passed(progress, first + 1)
  {
    forall i | 0 <= i < BLOCK_SIZE * (first + 1) ensures IsDone(progress, i) {
      if i >= BLOCK_SIZE * first {
        assert InRing(ring, first, i) && At(ring, first, i) == Loc(ring[0], i - BLOCK_SIZE * first);
      }
    }
  }

  lemma CellsTurned<T>(cells: map<Loc, T>, ring: seq<nat>, first: nat, stored: seq<T>, progress: seq<Progress>)
    requires ring != [] && CellsSound(cells, ring, first, stored, progress) && Passed(progress, first + 1)
    requires |stored| <= BLOCK_SIZE * (first + |ring|)
    ensures CellsSound(cells, Turned(ring), first + 1, stored, progress)
  {
    hide At, Turned;
    forall i: nat | InRing(Turned(ring), first + 1, i)
      ensures At(Turned(ring), first + 1, i) in cells <==> Live(stored, progress, i)
      ensures At(Turned(ring), first + 1, i) in cells ==> cells[At(Turned(ring), first + 1, i)] == stored[i]
    {
      TurnedAt(ring, first, i);
      if i >= BLOCK_SIZE * (first + |ring|) {
        assert IsDone(progress, i - BLOCK_SIZE * |ring|);
      }
    }
  }

  lemma FlagsTurned(flags: set<Loc>, ring: seq<nat>, first: nat, progress: seq<Progress>)
    requires ring != [] && FlagsSound(flags, ring, first, progress, 0)
    ensures FlagsSound(flags, Turned(ring), first + 1, progress, BLOCK_SIZE)
  {
    hide At;
    forall i: nat | InRing(Turned(ring), first + 1, i) && i < BLOCK_SIZE * (first + |ring|)
      ensures At(Turned(ring), first + 1, i) in flags <==> IsDone(progress, i)
    {
      TurnedAt(ring, first, i);
    }
  }

  lemma HeadersTurned(headers: seq<Header>, ring: seq<nat>, first: nat)
    requires ring != [] && HeadersSound(headers, ring, first)
    ensures HeadersSound(headers, Turned(ring), first + 1)
  {
    hide Slot;
    forall h | 0 <= h < |headers| ensures HeaderSound(headers[h], Turned(ring), first + 1) {
      assert HeaderSound(headers[h], ring, first);
    }
  }

  lemma RingTurned<T>(ring: seq<nat>, blocks: nat, cells: map<Loc, T>, flags: set<Loc>)
    requires ring != [] && Owned(ring, blocks, cells, flags)
    ensures Owned(Turned(ring), blocks, cells, flags)
  {
  }

  /** Indices still in hand are in the ring. */
  lemma StillInRing(progress: seq<Progress>, t: nat, r: Reader, first: nat, i: nat)
    requires Owns(progress, t, r) && Passed(progress, first) && InHand(r, i)
    ensures BLOCK_SIZE * first <= i < |progress| && !progress[i].Done?
  {
    assert i < BLOCK_SIZE * first ==> IsDone(progress, i);
  }

  lemma LooksTurned(headers: seq<Header>, ring: seq<nat>, first: nat, progress: seq<Progress>, readers: seq<Reader>)
    requires ring != [] && LooksSound(headers, ring, first, readers) && OwnersSound(progress, readers)
    requires Passed(progress, first + 1)
    ensures LooksSound(headers, Turned(ring), first + 1, readers)
  {
    hide Passed, Shows, Slot;
    forall t | 0 <= t < |readers| ensures Looks(headers, Turned(ring), first + 1, readers[t]) {
      var r := readers[t];
      assert Looks(headers, ring, first, r) && Owns(progress, t, r);
      if r.Moving? || r.Flagging? {
        StillInRing(progress, t, r, first + 1, if r.Moving? then r.i else r.lo);
      }
    }
  }

  // ---- the producer adds a block ----

  lemma CellsAdded<T>(cells: map<Loc, T>, flags: set<Loc>, ring: seq<nat>, blocks: nat, first: nat, stored: seq<T>,
                      progress: seq<Progress>)
    requires Owned(ring, blocks, cells, flags) && CellsSound(cells, ring, first, stored, progress)
    requires |progress| <= |stored| <= BLOCK_SIZE * (first + |ring|)
    ensures Owned(ring + [blocks], blocks + 1, cells, flags)
    ensures CellsSound(cells, ring + [blocks], first, stored, progress)
  {
    forall i: nat | InRing(ring + [blocks], first, i)
      ensures At(ring + [blocks], first, i) in cells <==> Live(stored, progress, i)
      ensures At(ring + [blocks], first, i) in cells ==> cells[At(ring + [blocks], first, i)] == stored[i]
    {
      AddedAt(ring, first, i, blocks);
    }
  }

  lemma AddedAt(ring: seq<nat>, first: nat, i: nat, b: nat)
    requires InRing(ring + [b], first, i)
    ensures if i < BLOCK_SIZE * (first + |ring|)
            then InRing(ring, first, i) && At(ring + [b], first, i) == At(ring, first, i)
            else At(ring + [b], first, i).block == b
  {
  }

  lemma FlagsAdded<T>(cells: map<Loc, T>, flags: set<Loc>, ring: seq<nat>, blocks: nat, first: nat,
                      progress: seq<Progress>)
    requires Owned(ring, blocks, cells, flags) && FlagsSound(flags, ring, first, progress, 0)
    requires |progress| <= BLOCK_SIZE * (first + |ring|)
    ensures FlagsSound(flags, ring + [blocks], first, progress, 0)
  {
    forall i: nat | InRing(ring + [blocks], first, i)
      ensures At(ring + [blocks], first, i) in flags <==> IsDone(progress, i)
    {
      AddedAt(ring, first, i, blocks);
    }
  }

  lemma HeadersAdded(headers: seq<Header>, ring: seq<nat>, first: nat, b: nat)
    requires HeadersSound(headers, ring, first)
    ensures HeadersSound(headers, ring + [b], first)
  {
    hide Slot;
    forall h | 0 <= h < |headers| ensures HeaderSound(headers[h], ring + [b], first) {
      assert HeaderSound(headers[h], ring, first);
    }
  }

  lemma LooksAdded(headers: seq<Header>, ring: seq<nat>, first: nat, readers: seq<Reader>, b: nat)
    requires LooksSound(headers, ring, first, readers)
    ensures LooksSound(headers, ring + [b], first, readers)
  {
    hide Shows, Slot;
    forall t | 0 <= t < |readers| ensures Looks(headers, ring + [b], first, readers[t]) {
      assert Looks(headers, ring, first, readers[t]);
    }
  }

  // ---- the producer works on its index ----

  /** Indices never change but for entries and the number of blocks they show. */
  ghost predicate Grown(headers: seq<Header>, headers': seq<Header>) {
    && |headers| <= |headers'|
    && (forall h | 0 <= h < |headers| ::
          && |headers'[h].entries| == |headers[h].entries|
          && headers'[h].off == headers[h].off && headers'[h].count >= headers[h].count)
  }

  /** Readers keep what they know, also of an index that has been replaced. */
  lemma LooksGrown(headers: seq<Header>, headers': seq<Header>, ring: seq<nat>, first: nat, readers: seq<Reader>)
    requires LooksSound(headers, ring, first, readers) && Grown(headers, headers')
    ensures LooksSound(headers', ring, first, readers)
  {
    hide HasBlock;
    forall t | 0 <= t < |readers| ensures Looks(headers', ring, first, readers[t]) {
      assert Looks(headers, ring, first, readers[t]);
    }
  }

  lemma SameSlot(h: Header, h': Header, c: int)
    requires h.entries != [] && |h'.entries| == |h.entries| && h'.off == h.off
    ensures Slot(h', c) == Slot(h, c)
  {
  }

  lemma LastSound(headers: seq<Header>, ring: seq<nat>, first: nat)
    requires HeadersSound(headers, ring, first) && headers != []
    ensures HeaderSound(headers[|headers| - 1], ring, first)
  {
  }

  lemma LastReplaced(headers: seq<Header>, ring: seq<nat>, first: nat, h: Header)
    requires HeadersSound(headers, ring, first) && headers != [] && HeaderSound(h, ring, first)
    ensures HeadersSound(headers[|headers| - 1 := h], ring, first)
  {
    hide HeaderSound;
  }

  lemma CopySlot(h: Header, first: nat, c: nat)
    requires h.entries != [] && h.off == 0 - first && first <= c < first + |h.entries|
    ensures Slot(h, c) == c - first
  {
    Remainder(c - first, c - first, |h.entries|);
  }

  lemma CopiedEntry(headers: seq<Header>, ring: seq<nat>, first: nat, size: nat, front: nat, m: nat)
    requires HeadersSound(headers, ring, first) && Current(headers, |ring|, first + |ring|, size, front) && m < |ring|
    ensures EntryAt(headers, (front - |ring| + m) % size) == Entry(BLOCK_SIZE * (first + m), Some(ring[m]))
  {
    hide HeadersSound, Slot;
    var last := headers[|headers| - 1];
    LastSound(headers, ring, first);
    SlotMoves(last, first + |ring|, first + m);
    assert front - |ring| + m == front + (first + m - (first + |ring|));
    assert last.entries[Slot(last, first + m)] == Entry(BLOCK_SIZE * (first + m), Some(ring[first + m - first]));
  }

  /** The copied entries are in their places. */
  lemma CopiedSound(headers: seq<Header>, ring: seq<nat>, first: nat, size: nat, front: nat)
    requires HeadersSound(headers, ring, first) && Current(headers, |ring|, first + |ring|, size, front)
    requires ring == [] ==> first == 0
    ensures HeaderSound(Copied(headers, ring, first, size, front), ring, first)
  {
    hide HeadersSound, Slot, EntryAt;
    var r := Copied(headers, ring, first, size, front);
    forall c | first <= c < r.count ensures r.entries[Slot(r, c)] == Entry(BLOCK_SIZE * c, Some(ring[c - first])) {
      CopySlot(r, first, c);
      CopiedEntry(headers, ring, first, size, front, c - first);
    }
    if ring != [] {
      CopySlot(r, first, r.count - 1);
    }
  }

  lemma EntryApart(h: Header, ring: seq<nat>, first: nat, e: Entry)
    requires ring != [] && HeaderSound(h, ring, first) && h.count == first + |ring| - 1 && |ring| <= |h.entries|
    ensures HeaderSound(h.(entries := h.entries[Slot(h, h.count) := e]), ring, first)
  {
    hide Slot;
    var h' := h.(entries := h.entries[Slot(h, h.count) := e]);
    forall c | first <= c < h.count ensures h'.entries[Slot(h', c)] == h.entries[Slot(h, c)] {
      SlotsDiffer(h, c, h.count);
      SameSlot(h, h', c);
    }
    SameSlot(h, h', h.count - 1);
  }

  /** Writing behind the published entries disturbs none that is needed. */
  lemma EntryWritten(headers: seq<Header>, ring: seq<nat>, first: nat, size: nat, front: nat, e: Entry)
    requires ring != [] && HeadersSound(headers, ring, first)
    requires Current(headers, |ring|, first + |ring| - 1, size, front)
    ensures HeadersSound(WithEntry(headers, front, e), ring, first) && Grown(headers, WithEntry(headers, front, e))
    ensures Current(WithEntry(headers, front, e), |ring|, first + |ring| - 1, size, front)
    ensures EntryAt(WithEntry(headers, front, e), front) == e
  {
    hide HeadersSound, HeaderSound, Slot;
    var last := headers[|headers| - 1];
    LastSound(headers, ring, first);
    EntryApart(last, ring, first, e);
    LastReplaced(headers, ring, first, last.(entries := last.entries[front := e]));
    SameSlot(last, last.(entries := last.entries[front := e]), last.count);
  }

  lemma OneMore(h: Header, ring: seq<nat>, first: nat)
    requires ring != [] && HeaderSound(h, ring, first) && h.count == first + |ring| - 1
    requires h.entries[Slot(h, h.count)] == Entry(BLOCK_SIZE * h.count, Some(TailBlock(ring)))
    ensures HeaderSound(h.(front := Slot(h, h.count), count := h.count + 1), ring, first)
  {
    hide Slot;
    var h' := h.(front := Slot(h, h.count), count := h.count + 1);
    forall c | first <= c < h'.count ensures h'.entries[Slot(h', c)] == Entry(BLOCK_SIZE * c, Some(ring[c - first])) {
      SameSlot(h, h', c);
    }
    SameSlot(h, h', h.count);
  }

  /** Storing the front publishes the block just entered. */
  lemma FrontStored(headers: seq<Header>, ring: seq<nat>, first: nat, size: nat, front: nat)
    requires ring != [] && HeadersSound(headers, ring, first)
    requires Current(headers, |ring|, first + |ring| - 1, size, front)
    requires EntryAt(headers, front) == Entry(BLOCK_SIZE * (first + |ring| - 1), Some(TailBlock(ring)))
    ensures HeadersSound(WithFront(headers, front), ring, first) && Grown(headers, WithFront(headers, front))
    ensures Current(WithFront(headers, front), |ring|, first + |ring|, size, (front + 1) % size)
  {
    hide HeadersSound, HeaderSound, Slot;
    var last := headers[|headers| - 1];
    LastSound(headers, ring, first);
    OneMore(last, ring, first);
    LastReplaced(headers, ring, first, last.(front := front, count := last.count + 1));
    SlotMoves(last, last.count, last.count + 1);
    SameSlot(last, last.(front := front, count := last.count + 1), last.count + 1);
  }

  // ---- the producer's steps ----

  /** A step on data of the producer's own. */
  lemma OwnStep<T>(s: State<T>, pc: Producer<T>)
    requires Inv(s) && !s.pc.Publish? && !pc.Publish? && Stale(s.pc) == Stale(pc) == 0
    requires Opening(s.pc) <==> Opening(pc)
    requires Placed(pc, |s.q.items|, |s.ring|, s.first) && Seen(pc, s.ring, s.flags)
    requires Underway(pc, s.headers, |s.q.items|, s.ring, s.indexSize, s.indexFront)
    ensures Inv(s.(pc := pc))
  {
    hide Ticketed, Owned, Passed, CellsSound, FlagsSound, HeadersSound, Current, OwnersSound, LooksSound;
  }

  lemma EnqueueInv<T>(s: State<T>, x: T)
    requires Inv(s)
    ensures Inv(Next(s, Enqueue(x)))
  {
    hide Ticketed, Owned, Passed, CellsSound, FlagsSound, HeadersSound, Current, OwnersSound, LooksSound;
    if s.pc.Ready? {
      OwnStep(s, Next(s, Enqueue(x)).pc);
    }
  }

  lemma ScanInv<T>(s: State<T>)
    requires Inv(s) && s.pc.Scan?
    ensures Inv(Produced(s, true))
  {
    hide Ticketed, Owned, Passed, CellsSound, FlagsSound, HeadersSound, OwnersSound, LooksSound;
    if Loc(s.ring[0], s.pc.cell) !in s.flags || s.pc.cell > 0 {
      OwnStep(s, Produced(s, true).pc);
    } else {
      BlockDone(s.flags, s.ring, s.first, s.progress);
      CellsTurned(s.cells, s.ring, s.first, s.q.items, s.progress);
      FlagsTurned(s.flags, s.ring, s.first, s.progress);
      HeadersTurned(s.headers, s.ring, s.first);
      RingTurned(s.ring, s.blocks, s.cells, s.flags);
      LooksTurned(s.headers, s.ring, s.first, s.progress, s.readers);
    }
  }

  lemma FlagCleared<T>(cells: map<Loc, T>, flags: set<Loc>, ring: seq<nat>, blocks: nat, first: nat,
                       progress: seq<Progress>, cell: nat)
    requires Owned(ring, blocks, cells, flags) && ring != [] && cell < BLOCK_SIZE
    requires FlagsSound(flags, ring, first, progress, cell + 1) && |progress| <= BLOCK_SIZE * (first + |ring| - 1)
    ensures Owned(ring, blocks, cells, flags - {Loc(TailBlock(ring), cell)})
    ensures FlagsSound(flags - {Loc(TailBlock(ring), cell)}, ring, first, progress, cell)
  {
    var base := BLOCK_SIZE * (first + |ring| - 1);
    assert InRing(ring, first, base + cell) && At(ring, first, base + cell) == Loc(TailBlock(ring), cell);
    forall i: nat | InRing(ring, first, i) && !(0 <= i - base < cell)
      ensures At(ring, first, i) in flags - {Loc(TailBlock(ring), cell)} <==> IsDone(progress, i)
    {
      AtDiffers(ring, first, i, base + cell);
    }
  }

  lemma ResetInv<T>(s: State<T>)
    requires Inv(s) && s.pc.Reset?
    ensures Inv(Produced(s, true))
  {
    hide Ticketed, Owned, Passed, CellsSound, FlagsSound, HeadersSound, Current, OwnersSound, LooksSound;
    FlagCleared(s.cells, s.flags, s.ring, s.blocks, s.first, s.progress, s.pc.cell);
  }

  lemma GrowingInv<T>(s: State<T>, ok: bool)
    requires Inv(s) && s.pc.Growing?
    ensures Inv(Produced(s, ok))
  {
    hide Ticketed, Owned, Passed, CellsSound, FlagsSound, OwnersSound, LooksSound, HeaderSound;
    if (s.headers != [] && |s.ring| < s.indexSize) || !ok {
      OwnStep(s, Produced(s, ok).pc);
    } else {
      var r := Copied(s.headers, s.ring, s.first, s.indexSize, s.indexFront);
      CopiedSound(s.headers, s.ring, s.first, s.indexSize, s.indexFront);
      CopySlot(r, s.first, s.first + |s.ring|);
      LooksGrown(s.headers, s.headers + [r], s.ring, s.first, s.readers);
    }
  }

  lemma FetchInv<T>(s: State<T>, ok: bool)
    requires Inv(s) && s.pc.Fetch?
    ensures Inv(Produced(s, ok))
  {
    hide Ticketed, Owned, Passed, CellsSound, FlagsSound, OwnersSound, LooksSound, HeadersSound;
    if !ok {
      OwnStep(s, Ready);
    } else {
      CellsAdded(s.cells, s.flags, s.ring, s.blocks, s.first, s.q.items, s.progress);
      FlagsAdded(s.cells, s.flags, s.ring, s.blocks, s.first, s.progress);
      HeadersAdded(s.headers, s.ring, s.first, s.blocks);
      LooksAdded(s.headers, s.ring, s.first, s.readers, s.blocks);
    }
  }

  lemma WriteInv<T>(s: State<T>)
    requires Inv(s) && (s.pc.WriteBase? || s.pc.WriteBlock?)
    ensures Inv(Produced(s, true))
  {
    hide Ticketed, Owned, Passed, CellsSound, FlagsSound, OwnersSound, LooksSound, HeadersSound, Current, Grown;
    hide WithEntry, EntryAt;
    var e := EntryAt(s.headers, s.indexFront);
    e := if s.pc.WriteBase? then e.(base := |s.q.items|) else e.(block := Some(TailBlock(s.ring)));
    EntryWritten(s.headers, s.ring, s.first, s.indexSize, s.indexFront, e);
    LooksGrown(s.headers, WithEntry(s.headers, s.indexFront, e), s.ring, s.first, s.readers);
  }

  lemma StoreFrontInv<T>(s: State<T>)
    requires Inv(s) && s.pc.StoreFront?
    ensures Inv(Produced(s, true))
  {
    hide Ticketed, Owned, Passed, CellsSound, FlagsSound, OwnersSound, LooksSound, HeadersSound, Grown;
    hide WithFront, EntryAt;
    FrontStored(s.headers, s.ring, s.first, s.indexSize, s.indexFront);
    LooksGrown(s.headers, WithFront(s.headers, s.indexFront), s.ring, s.first, s.readers);
  }

  lemma CellConstructed<T>(cells: map<Loc, T>, flags: set<Loc>, ring: seq<nat>, blocks: nat, first: nat, items: seq<T>,
                           progress: seq<Progress>, x: T)
    requires Owned(ring, blocks, cells, flags) && CellsSound(cells, ring, first, items, progress)
    requires ring != [] && BLOCK_SIZE * (first + |ring| - 1) <= |items| < BLOCK_SIZE * (first + |ring|)
    requires |progress| <= |items|
    ensures Owned(ring, blocks, cells[Loc(TailBlock(ring), |items| % BLOCK_SIZE) := x], flags)
    ensures CellsSound(cells[Loc(TailBlock(ring), |items| % BLOCK_SIZE) := x], ring, first, items + [x], progress)
  {
    var tail := |items|;
    assert InRing(ring, first, tail) && At(ring, first, tail) == Loc(TailBlock(ring), tail % BLOCK_SIZE);
    var cells' := cells[At(ring, first, tail) := x];
    forall i: nat | InRing(ring, first, i)
      ensures At(ring, first, i) in cells' <==> Live(items + [x], progress, i)
      ensures At(ring, first, i) in cells' ==> cells'[At(ring, first, i)] == (items + [x])[i]
    {
      AtDiffers(ring, first, i, tail);
    }
  }

  lemma ConstructInv<T>(s: State<T>)
    requires Inv(s) && s.pc.Construct?
    ensures Inv(Produced(s, true))
  {
    hide Ticketed, Owned, Passed, CellsSound, FlagsSound, OwnersSound, LooksSound, HeadersSound, Current;
    CellConstructed(s.cells, s.flags, s.ring, s.blocks, s.first, s.q.items, s.progress, s.pc.x);
  }

  lemma PublishInv<T>(s: State<T>)
    requires Inv(s) && s.pc.Publish?
    ensures Inv(Produced(s, true))
  {
    hide Owned, Passed, CellsSound, FlagsSound, OwnersSound, LooksSound, HeadersSound, Current, Tickets.Inv;
    Tickets.InvStep(s.q, Tickets.Publish([s.pc.x]));
    forall t | 0 <= t < |s.readers|
      ensures Rest(s.q.items + [s.pc.x], s.readers[t]) == Rest(s.q.items, s.readers[t])
    {
      OwnedBound(s.progress, s.readers, t);
    }
  }

  /** A reader's indices have been claimed. */
  lemma OwnedBound(progress: seq<Progress>, readers: seq<Reader>, t: nat)
    requires OwnersSound(progress, readers) && t < |readers|
    ensures var r := readers[t]; !r.Fault? && (!r.Free? ==> r.lo < r.hi <= |progress|)
  {
    assert Owns(progress, t, readers[t]);
  }

  lemma ProduceInv<T>(s: State<T>, ok: bool)
    requires Inv(s)
    ensures Inv(Produced(s, ok))
  {
    match s.pc
    case Ready =>
    case Scan(_, _) => ScanInv(s);
    case Reset(_, _) => ResetInv(s);
    case Room(_) => OwnStep(s, Produced(s, ok).pc);
    case Growing(_) => GrowingInv(s, ok);
    case Fetch(_) => FetchInv(s, ok);
    case WriteBase(_) => WriteInv(s);
    case WriteBlock(_) => WriteInv(s);
    case StoreFront(_) => StoreFrontInv(s);
    case Construct(_) => ConstructInv(s);
    case Publish(_) => PublishInv(s);
  }

  // ---- the consumers look their block up ----

  lemma OwnersSame(progress: seq<Progress>, readers: seq<Reader>, t: nat, r: Reader)
    requires OwnersSound(progress, readers) && t < |readers| && Owns(progress, t, r)
    requires forall i | InHand(readers[t], i) :: InHand(r, i)
    ensures OwnersSound(progress, readers[t := r])
  {
    hide Owns, InHand;
    var readers' := readers[t := r];
    forall i | 0 <= i < |progress| ensures HasOwner(progress, readers', i) {
      assert HasOwner(progress, readers, i);
    }
  }

  lemma LooksSame(headers: seq<Header>, ring: seq<nat>, first: nat, readers: seq<Reader>, t: nat, r: Reader)
    requires LooksSound(headers, ring, first, readers) && t < |readers| && Looks(headers, ring, first, r)
    ensures LooksSound(headers, ring, first, readers[t := r])
  {
    hide Looks;
  }

  lemma TicketedSame<T>(q: Tickets.State<T>, readers: seq<Reader>, out: seq<seq<T>>, t: nat, r: Reader)
    requires Ticketed(q, readers, out) && t < |readers| && !readers[t].Free?
    requires Rest(q.items, r) == Rest(q.items, readers[t])
    ensures Ticketed(q, readers[t := r], out)
  {
    hide Rest, Tickets.Inv;
  }

  /** A reader looks further, with the same indices in hand. */
  lemma LookInv<T>(s: State<T>, t: nat, r: Reader)
    requires Inv(s) && t < |s.readers| && !s.readers[t].Free? && Rest(s.q.items, r) == Rest(s.q.items, s.readers[t])
    requires Owns(s.progress, t, r) && Looks(s.headers, s.ring, s.first, r)
    requires forall i | InHand(s.readers[t], i) :: InHand(r, i)
    ensures Inv(Goto(s, t, r))
  {
    hide Ticketed, OwnersSound, LooksSound, Owns, Looks, InHand, Rest, HeadersSound, Current;
    hide Owned, Passed, CellsSound, FlagsSound;
    OwnersSame(s.progress, s.readers, t, r);
    LooksSame(s.headers, s.ring, s.first, s.readers, t, r);
    TicketedSame(s.q, s.readers, s.out, t, r);
  }

  /** A claimed index is published in the current block index. */
  lemma CurrentShows<T>(s: State<T>, hi: nat)
    requires Inv(s) && 0 < hi <= |s.progress|
    ensures s.headers != [] && Shows(s.headers, hi, |s.headers| - 1)
    ensures HeaderSound(s.headers[|s.headers| - 1], s.ring, s.first)
  {
    hide Ticketed, MemorySound, OwnersSound, LooksSound;
  }

  lemma ReaderFacts<T>(s: State<T>, t: nat)
    requires Inv(s) && t < |s.readers|
    ensures Owns(s.progress, t, s.readers[t]) && Looks(s.headers, s.ring, s.first, s.readers[t])
    ensures Passed(s.progress, s.first) && HeadersSound(s.headers, s.ring, s.first)
    ensures |s.progress| <= |s.q.items| <= BLOCK_SIZE * (s.first + |s.ring|)
  {
    hide Ticketed, CellsSound, FlagsSound, Passed, Owned, Owns, Looks, HeadersSound, Current;
  }

  lemma QuotientOfBases(a: int, b: int)
    ensures Quotient(BLOCK_SIZE * a - BLOCK_SIZE * b, BLOCK_SIZE) == a - b
  {
  }

  /** From the entry found at the front that was read, the block's slot is computed, even
      if the producer has since published more or replaced the index. */
  lemma SlotComputed(h: Header, ring: seq<nat>, first: nat, lo: nat, count: nat)
    requires HeaderSound(h, ring, first) && BLOCK_SIZE * first <= lo < BLOCK_SIZE * count && count <= h.count
    ensures var front := Slot(h, count - 1);
      SlotFrom(front, h.entries[front].base, |h.entries|, lo) == Slot(h, lo / BLOCK_SIZE)
  {
    hide Slot;
    QuotientOfBases(lo / BLOCK_SIZE, count - 1);
    SlotMoves(h, count - 1, lo / BLOCK_SIZE);
  }

  /** The slot holds the block of the index, in whatever index the reader looks. */
  lemma BlockFound(h: Header, ring: seq<nat>, first: nat, lo: nat)
    requires HeaderSound(h, ring, first) && BLOCK_SIZE * first <= lo < BLOCK_SIZE * h.count
    ensures InRing(ring, first, lo)
    ensures h.entries[Slot(h, lo / BLOCK_SIZE)] == Entry(lo - lo % BLOCK_SIZE, Some(ring[lo / BLOCK_SIZE - first]))
  {
    hide Slot;
    assert first <= lo / BLOCK_SIZE < h.count && BLOCK_SIZE * (lo / BLOCK_SIZE) == lo - lo % BLOCK_SIZE;
  }

  lemma FrontShown(h: Header, ring: seq<nat>, first: nat)
    requires HeaderSound(h, ring, first) && h.count > 0
    ensures h.front == Slot(h, h.count - 1)
  {
  }

  predicate LooksUp(r: Reader) {
    r.Claimed? || r.AtFront? || r.AtBase? || r.AtBlock?
  }

  lemma LookupInv<T>(s: State<T>, t: nat)
    requires Inv(s) && t < |s.readers| && t < |s.out| && LooksUp(s.readers[t])
    ensures Inv(Consumed(s, t))
  {
    hide Inv, Passed, HeaderSound, SlotFrom, Slot;
    ReaderFacts(s, t);
    var r := s.readers[t];
    StillInRing(s.progress, t, r, s.first, r.lo);
    match r
    case Claimed(lo, hi) =>
      CurrentShows(s, hi);
      LookInv(s, t, AtFront(lo, hi, |s.headers| - 1));
    case AtFront(lo, hi, h) =>
      FrontShown(s.headers[h], s.ring, s.first);
      LookInv(s, t, AtBase(lo, hi, h, s.headers[h].front, s.headers[h].count));
    case AtBase(lo, hi, h, _, count) =>
      SlotComputed(s.headers[h], s.ring, s.first, lo, count);
      LookInv(s, t, AtBlock(lo, hi, h, Slot(s.headers[h], lo / BLOCK_SIZE)));
    case AtBlock(lo, hi, h, slot) =>
      BlockFound(s.headers[h], s.ring, s.first, lo);
      LookInv(s, t, Moving(lo, hi, h, slot, s.ring[lo / BLOCK_SIZE - s.first], lo));
  }

  // ---- the consumers empty cells ----

  /** Reader t is done with index i, or has at least moved its element out. */
  lemma OwnersMoved(progress: seq<Progress>, readers: seq<Reader>, t: nat, r: Reader, i: nat, p: Progress)
    requires OwnersSound(progress, readers) && t < |readers| && i < |progress|
    requires progress[i] == Held(t) || progress[i] == Emptied(t)
    requires Owns(progress[i := p], t, r) && if p.Done? then true else p.t == t && InHand(r, i)
    requires forall j | InHand(readers[t], j) && j != i :: InHand(r, j)
    ensures OwnersSound(progress[i := p], readers[t := r])
  {
    hide InHand;
    var progress', readers' := progress[i := p], readers[t := r];
    forall u | 0 <= u < |readers'| ensures Owns(progress', u, readers'[u]) {
      assert Owns(progress, u, readers[u]);
    }
    forall j | 0 <= j < |progress'| ensures HasOwner(progress', readers', j) {
      assert HasOwner(progress, readers, j);
    }
  }

  lemma CellEmptied<T>(cells: map<Loc, T>, flags: set<Loc>, ring: seq<nat>, blocks: nat, first: nat, stored: seq<T>,
                       progress: seq<Progress>, i: nat, t: nat)
    requires Owned(ring, blocks, cells, flags) && CellsSound(cells, ring, first, stored, progress)
    requires InRing(ring, first, i) && i < |progress| && progress[i] == Held(t) && i < |stored|
    ensures At(ring, first, i) in cells && cells[At(ring, first, i)] == stored[i]
    ensures Owned(ring, blocks, cells - {At(ring, first, i)}, flags)
    ensures CellsSound(cells - {At(ring, first, i)}, ring, first, stored, progress[i := Emptied(t)])
  {
    var loc := At(ring, first, i);
    forall j: nat | InRing(ring, first, j)
      ensures At(ring, first, j) in cells - {loc} <==> Live(stored, progress[i := Emptied(t)], j)
      ensures At(ring, first, j) in cells - {loc} ==> (cells - {loc})[At(ring, first, j)] == stored[j]
    {
      AtDiffers(ring, first, j, i);
    }
  }

  lemma SameDone(flags: set<Loc>, ring: seq<nat>, first: nat, progress: seq<Progress>, stale: nat, i: nat, p: Progress)
    requires FlagsSound(flags, ring, first, progress, stale) && Passed(progress, first)
    requires i < |progress| && !progress[i].Done? && !p.Done?
    ensures FlagsSound(flags, ring, first, progress[i := p], stale) && Passed(progress[i := p], first)
  {
    hide At;
    var progress' := progress[i := p];
    forall j: nat ensures IsDone(progress', j) <==> IsDone(progress, j) {
    }
    forall j: nat | j < BLOCK_SIZE * first ensures IsDone(progress', j) {
    }
  }

  lemma CellFlagged<T>(cells: map<Loc, T>, flags: set<Loc>, ring: seq<nat>, blocks: nat, first: nat,
                       progress: seq<Progress>, stale: nat, i: nat)
    requires Owned(ring, blocks, cells, flags) && FlagsSound(flags, ring, first, progress, stale)
    requires Passed(progress, first)
    requires InRing(ring, first, i) && i < |progress| && !progress[i].Done?
    requires stale > 0 ==> |progress| <= BLOCK_SIZE * (first + |ring| - 1)
    ensures At(ring, first, i) !in flags
    ensures Owned(ring, blocks, cells, flags + {At(ring, first, i)}) && Passed(progress[i := Done], first)
    ensures FlagsSound(flags + {At(ring, first, i)}, ring, first, progress[i := Done], stale)
  {
    var flags', progress' := flags + {At(ring, first, i)}, progress[i := Done];
    forall j: nat | InRing(ring, first, j) && !(0 <= j - BLOCK_SIZE * (first + |ring| - 1) < stale)
      ensures At(ring, first, j) in flags' <==> IsDone(progress', j)
    {
      AtDiffers(ring, first, j, i);
    }
    forall j | 0 <= j < BLOCK_SIZE * first ensures IsDone(progress', j) {
      assert IsDone(progress, j);
    }
  }

  lemma DoneIsNotLive<T>(cells: map<Loc, T>, ring: seq<nat>, first: nat, stored: seq<T>, progress: seq<Progress>,
                         i: nat)
    requires CellsSound(cells, ring, first, stored, progress) && i < |progress| && progress[i].Emptied?
    ensures CellsSound(cells, ring, first, stored, progress[i := Done])
  {
    hide At;
    forall j: nat ensures Live(stored, progress[i := Done], j) <==> Live(stored, progress, j) {
    }
  }

  /** Moving one element out. */
  lemma TicketedMoved<T>(q: Tickets.State<T>, readers: seq<Reader>, out: seq<seq<T>>, t: nat, r: Reader, x: T)
    requires Ticketed(q, readers, out) && t < |readers| && !readers[t].Free?
    requires Rest(q.items, readers[t]) == [x] + Rest(q.items, r)
    ensures Ticketed(q, readers[t := r], out[t := out[t] + [x]])
  {
    hide Rest, Tickets.Inv;
    assert out[t] + ([x] + Rest(q.items, r)) == out[t] + [x] + Rest(q.items, r);
  }

  lemma SliceHead<T>(items: seq<T>, lo: nat, hi: nat)
    requires lo < hi <= |items|
    ensures Slice(items, lo, hi) == [items[lo]] + Slice(items, lo + 1, hi)
  {
  }

  /** The cell a reader is at. */
  lemma AtReader(ring: seq<nat>, first: nat, lo: nat, hi: nat, block: nat, i: nat)
    requires HasBlock(ring, first, lo, block) && lo <= i < End(lo, hi)
    ensures InRing(ring, first, i) && At(ring, first, i) == Loc(block, i % BLOCK_SIZE)
  {
    assert i / BLOCK_SIZE == lo / BLOCK_SIZE;
  }

  /** What a consumer does next when it has moved its element out. */
  function Moved(r: Reader): Reader
    requires r.Moving?
  {
    if r.i + 1 < End(r.lo, r.hi) then Moving(r.lo, r.hi, r.h, r.slot, r.block, r.i + 1)
    else Flagging(r.lo, r.hi, r.h, r.slot, r.block, r.i)
  }

  lemma MovedReader<T>(progress: seq<Progress>, t: nat, r: Reader, items: seq<T>)
    requires r.Moving? && Owns(progress, t, r) && |progress| <= |items|
    ensures r.i < |progress| && progress[r.i] == Held(t) && r.lo <= r.i < End(r.lo, r.hi)
    ensures Owns(progress[r.i := Emptied(t)], t, Moved(r)) && InHand(Moved(r), r.i)
    ensures forall j | InHand(r, j) :: InHand(Moved(r), j)
    ensures Rest(items, r) == [items[r.i]] + Rest(items, Moved(r))
  {
    SliceHead(items, r.i, r.hi);
  }

  lemma MovingInv<T>(s: State<T>, t: nat)
    requires Inv(s) && t < |s.readers| && t < |s.out| && s.readers[t].Moving?
    ensures Inv(Consumed(s, t))
  {
    hide Ticketed, CellsSound, FlagsSound, Passed, Owned, HeadersSound, Current, OwnersSound, LooksSound, Slot, Shows;
    hide Owns, InHand, Rest, At, End, InRing;
    ReaderFacts(s, t);
    var r := s.readers[t];
    var i := r.i;
    MovedReader(s.progress, t, r, s.q.items);
    AtReader(s.ring, s.first, r.lo, r.hi, r.block, i);
    CellEmptied(s.cells, s.flags, s.ring, s.blocks, s.first, Stored(s.q.items, s.pc), s.progress, i, t);
    SameDone(s.flags, s.ring, s.first, s.progress, Stale(s.pc), i, Emptied(t));
    OwnersMoved(s.progress, s.readers, t, Moved(r), i, Emptied(t));
    LooksSame(s.headers, s.ring, s.first, s.readers, t, Moved(r));
    TicketedMoved(s.q, s.readers, s.out, t, Moved(r), s.q.items[i]);
  }

  /** The slot of the next block follows. */
  lemma NextSlot(h: Header, lo: nat, hi: nat)
    requires h.entries != [] && lo < End(lo, hi) < hi
    ensures (Slot(h, lo / BLOCK_SIZE) + 1) % |h.entries| == Slot(h, End(lo, hi) / BLOCK_SIZE)
  {
    hide Slot;
    assert End(lo, hi) / BLOCK_SIZE == lo / BLOCK_SIZE + 1;
    SlotMoves(h, lo / BLOCK_SIZE, lo / BLOCK_SIZE + 1);
  }

  lemma FlaggingInv<T>(s: State<T>, t: nat)
    requires Inv(s) && t < |s.readers| && t < |s.out| && s.readers[t].Flagging?
    ensures Inv(Consumed(s, t))
  {
    hide Ticketed, CellsSound, FlagsSound, Passed, Owned, HeadersSound, Current, OwnersSound, LooksSound, Slot;
    ReaderFacts(s, t);
    var r := s.readers[t];
    var i := r.i;
    AtReader(s.ring, s.first, r.lo, r.hi, r.block, i);
    assert s.progress[i] == Emptied(t);
    DoneIsNotLive(s.cells, s.ring, s.first, Stored(s.q.items, s.pc), s.progress, i);
    CellFlagged(s.cells, s.flags, s.ring, s.blocks, s.first, s.progress, Stale(s.pc), i);
    var r' := Consumed(s, t).readers[t];
    if i == r.lo && End(r.lo, r.hi) < r.hi {
      NextSlot(s.headers[r.h], r.lo, r.hi);
    }
    OwnersMoved(s.progress, s.readers, t, r', i, Done);
    LooksSame(s.headers, s.ring, s.first, s.readers, t, r');
    TicketedSame(s.q, s.readers, s.out, t, r');
  }

  // ---- the consumers claim ----

  /** What an access to the ticket counters does to the history of claims. */
  lemma TicketStep<T>(q: Tickets.State<T>, t: nat)
    requires Tickets.Inv(q) && t < |q.threads|
    ensures var q' := Tickets.Next(q, Tickets.Advance(t)); var k := |q'.claims| - |q.claims|;
      && Tickets.Inv(q') && q'.items == q.items && k >= 0 && |q'.claims| <= |q.items|
      && |q'.threads| == |q.threads| && |q'.received| == |q.received|
      && (forall u | 0 <= u < |q.threads| && u != t :: q'.threads[u] == q.threads[u] && q'.received[u] == q.received[u])
      && q'.received[t] == q.received[t] + Slice(q.items, |q.claims|, |q'.claims|)
      && (k > 0 ==> q'.threads[t] == Tickets.Idle)
  {
    Tickets.InvStep(q, Tickets.Advance(t));
    TicketSizes(q);
    hide Tickets.Inv;
    if q.threads[t].Granted? {
      Tickets.ClaimStep(q, t);
    } else {
      assert q.items[|q.claims|..|q.claims|] == [];
    }
  }

  lemma TicketSizes<T>(q: Tickets.State<T>)
    requires Tickets.Inv(q)
    ensures |q.received| == |q.threads| && |q.claims| <= |q.items|
  {
  }

  lemma FreshClaims(progress: seq<Progress>, readers: seq<Reader>, t: nat, k: nat)
    requires OwnersSound(progress, readers) && t < |readers| && readers[t].Free? && k > 0
    ensures OwnersSound(progress + seq(k, _ => Held(t)), readers[t := Claimed(|progress|, |progress| + k)])
  {
    var progress', readers' := progress + seq(k, _ => Held(t)), readers[t := Claimed(|progress|, |progress| + k)];
    forall u | 0 <= u < |readers'| ensures Owns(progress', u, readers'[u]) {
      assert Owns(progress, u, readers[u]);
    }
    forall j | 0 <= j < |progress'| ensures HasOwner(progress', readers', j) {
      assert j < |progress| ==> HasOwner(progress, readers, j);
    }
  }

  /** Claiming changes nothing in memory. */
  lemma ClaimsSame<T>(cells: map<Loc, T>, flags: set<Loc>, ring: seq<nat>, first: nat, stored: seq<T>,
                      progress: seq<Progress>, stale: nat, t: nat, k: nat)
    requires CellsSound(cells, ring, first, stored, progress) && FlagsSound(flags, ring, first, progress, stale)
    requires Passed(progress, first)
    ensures CellsSound(cells, ring, first, stored, progress + seq(k, _ => Held(t)))
    ensures FlagsSound(flags, ring, first, progress + seq(k, _ => Held(t)), stale)
    ensures Passed(progress + seq(k, _ => Held(t)), first)
  {
    hide At;
    var progress' := progress + seq(k, _ => Held(t));
    forall j: nat
      ensures IsDone(progress', j) <==> IsDone(progress, j)
      ensures Live(stored, progress', j) <==> Live(stored, progress, j)
    {
    }
    forall j: nat | j < BLOCK_SIZE * first ensures IsDone(progress', j) {
    }
  }

  lemma TicketsInv<T>(s: State<T>, t: nat)
    requires Inv(s) && t < |s.readers| && t < |s.out| && s.readers[t].Free?
    ensures Inv(Consumed(s, t))
  {
    hide CellsSound, FlagsSound, Passed, Owned, HeadersSound, Current, OwnersSound, LooksSound, Tickets.Inv;
    TicketStep(s.q, t);
    var q := Tickets.Next(s.q, Tickets.Advance(t));
    var lo, hi := |s.q.claims|, |q.claims|;
    if lo < hi {
      FreshClaims(s.progress, s.readers, t, hi - lo);
      ClaimsSame(s.cells, s.flags, s.ring, s.first, Stored(s.q.items, s.pc), s.progress, Stale(s.pc), t, hi - lo);
      LooksSame(s.headers, s.ring, s.first, s.readers, t, Claimed(lo, hi));
    }
  }

  lemma BeginInv<T>(s: State<T>, t: nat, max: nat)
    requires Inv(s) && t < |s.readers| && s.readers[t].Free?
    ensures Inv(Next(s, Begin(t, max)))
  {
    hide CellsSound, FlagsSound, Passed, Owned, HeadersSound, Current, OwnersSound, LooksSound, Tickets.Inv;
    Tickets.InvStep(s.q, Tickets.Begin(t, max));
  }

  lemma ConsumeInv<T>(s: State<T>, t: nat)
    requires Inv(s) && t < |s.readers| && t < |s.out|
    ensures Inv(Consumed(s, t))
  {
    match s.readers[t]
    case Free => TicketsInv(s, t);
    case Moving(_, _, _, _, _, _) => MovingInv(s, t);
    case Flagging(_, _, _, _, _, _) => FlaggingInv(s, t);
    case Fault =>
    case _ => LookupInv(s, t);
  }

  // ---- every run ----

  lemma InvStep<T>(s: State<T>, a: Action<T>)
    requires Inv(s)
    ensures Inv(Next(s, a))
  {
    hide Inv, Produced, Consumed;
    match a
    case Enqueue(x) => EnqueueInv(s, x);
    case Produce(ok) => ProduceInv(s, ok);
    case Begin(t, max) =>
      if t < |s.readers| && s.readers[t].Free? {
        BeginInv(s, t, max);
      }
    case Consume(t) =>
      if t < |s.readers| && t < |s.out| {
        ConsumeInv(s, t);
      }
  }

  lemma InitInv<T>(consumers: nat, half: nat, indexed: bool)
    requires half > 0
    ensures Inv(Init<T>(consumers, half, indexed))
  {
    Tickets.InitInv<T>(consumers);
  }

  lemma {:induction false} InvRun<T>(s: State<T>, actions: seq<Action<T>>)
    requires Inv(s)
    ensures Inv(Run(s, actions))
    decreases |actions|
  {
    hide Inv, Next;
    if actions != [] {
      InvStep(s, actions[0]);
      InvRun(Next(s, actions[0]), actions[1..]);
    }
  }

  // ---- what holds over every run ----

  /** No consumer ever follows a null block pointer or takes from an empty cell. */
  lemma NeverFaults<T>(consumers: nat, half: nat, indexed: bool, actions: seq<Action<T>>, t: nat)
    requires half > 0
    ensures var s := Run(Init<T>(consumers, half, indexed), actions); t < |s.readers| ==> !s.readers[t].Fault?
  {
    hide Run, Inv;
    InitInv<T>(consumers, half, indexed);
    InvRun(Init<T>(consumers, half, indexed), actions);
    var s := Run(Init<T>(consumers, half, indexed), actions);
    if t < |s.readers| {
      ReaderFacts(s, t);
    }
  }

  /** The indices whose elements a reader has still to move out. */
  predicate ToMove(r: Reader, i: nat) {
    match r
    case Free => false
    case Moving(_, hi, _, _, _, j) => j <= i < hi
    case Flagging(lo, hi, _, _, _, _) => End(lo, hi) <= i < hi
    case Fault => false
    case _ => r.lo <= i < r.hi
  }

  /** In every interleaving: from its claim until it has flagged the cell, an index is one
      consumer's alone. Its block stays in the ring, its cell unflagged, and until that
      consumer moves it out the cell holds the element published at that index. */
  lemma ClaimedCellStays<T>(consumers: nat, half: nat, indexed: bool, actions: seq<Action<T>>, t: nat, i: nat)
    requires half > 0
    ensures var s := Run(Init<T>(consumers, half, indexed), actions);
      t < |s.readers| && InHand(s.readers[t], i) ==>
        && i < |s.q.claims| <= |s.q.items| && InRing(s.ring, s.first, i) && At(s.ring, s.first, i) !in s.flags
        && (ToMove(s.readers[t], i) <==> At(s.ring, s.first, i) in s.cells)
        && (ToMove(s.readers[t], i) ==> s.cells[At(s.ring, s.first, i)] == s.q.items[i])
        && forall u | 0 <= u < |s.readers| && InHand(s.readers[u], i) :: u == t
  {
    hide Run, Inv, InHand, ToMove, At;
    InitInv<T>(consumers, half, indexed);
    InvRun(Init<T>(consumers, half, indexed), actions);
    var s := Run(Init<T>(consumers, half, indexed), actions);
    if t < |s.readers| && InHand(s.readers[t], i) {
      CellStays(s, t, i);
    }
  }

  lemma CellStays<T>(s: State<T>, t: nat, i: nat)
    requires Inv(s) && t < |s.readers| && InHand(s.readers[t], i)
    ensures i < |s.q.claims| <= |s.q.items| && InRing(s.ring, s.first, i) && At(s.ring, s.first, i) !in s.flags
    ensures ToMove(s.readers[t], i) <==> At(s.ring, s.first, i) in s.cells
    ensures ToMove(s.readers[t], i) ==> s.cells[At(s.ring, s.first, i)] == s.q.items[i]
    ensures forall u | 0 <= u < |s.readers| && InHand(s.readers[u], i) :: u == t
  {
    hide Ticketed, Owned, Passed, HeadersSound, Current, LooksSound, At;
    ReaderFacts(s, t);
    StillInRing(s.progress, t, s.readers[t], s.first, i);
    HandOwns(s.progress, t, s.readers[t], i);
    assert Live(Stored(s.q.items, s.pc), s.progress, i) <==> ToMove(s.readers[t], i);
    forall u | 0 <= u < |s.readers| && InHand(s.readers[u], i) ensures u == t {
      ReaderFacts(s, u);
      HandOwns(s.progress, u, s.readers[u], i);
    }
  }

  lemma HandOwns(progress: seq<Progress>, t: nat, r: Reader, i: nat)
    requires Owns(progress, t, r) && InHand(r, i)
    ensures i < |progress| && progress[i] == if ToMove(r, i) then Held(t) else Emptied(t)
  {
  }

  /** In every interleaving: the producer takes a block for new elements only when every
      one of its indices has been claimed and flagged, so that no consumer has any of
      them in hand. */
  lemma ReusedOnlyWhenFlagged<T>(consumers: nat, half: nat, indexed: bool, actions: seq<Action<T>>,
                                 a: Action<T>, i: nat)
    requires half > 0
    ensures var s := Run(Init<T>(consumers, half, indexed), actions);
      Next(s, a).first != s.first && BLOCK_SIZE * s.first <= i < BLOCK_SIZE * (s.first + 1) ==>
        && Next(s, a).first == s.first + 1 && InRing(s.ring, s.first, i) && At(s.ring, s.first, i) in s.flags
        && i < |s.q.claims| && forall t | 0 <= t < |s.readers| :: !InHand(s.readers[t], i)
  {
    hide Run, Inv, InHand, Next, At;
    InitInv<T>(consumers, half, indexed);
    InvRun(Init<T>(consumers, half, indexed), actions);
    var s := Run(Init<T>(consumers, half, indexed), actions);
    if Next(s, a).first != s.first && BLOCK_SIZE * s.first <= i < BLOCK_SIZE * (s.first + 1) {
      FlaggedBefore(s, a, i);
    }
  }

  lemma FlaggedBefore<T>(s: State<T>, a: Action<T>, i: nat)
    requires Inv(s) && Next(s, a).first != s.first && BLOCK_SIZE * s.first <= i < BLOCK_SIZE * (s.first + 1)
    ensures Next(s, a).first == s.first + 1 && InRing(s.ring, s.first, i) && At(s.ring, s.first, i) in s.flags
    ensures i < |s.q.claims| && forall t | 0 <= t < |s.readers| :: !InHand(s.readers[t], i)
  {
    hide Ticketed, Owned, CellsSound, HeadersSound, Current, LooksSound, OwnersSound, InHand, Owns;
    TurnsByScan(s, a);
    BlockDone(s.flags, s.ring, s.first, s.progress);
    assert IsDone(s.progress, i);
    forall t | 0 <= t < |s.readers| ensures !InHand(s.readers[t], i) {
      if InHand(s.readers[t], i) {
        ReaderFacts(s, t);
        StillInRing(s.progress, t, s.readers[t], s.first + 1, i);
      }
    }
  }

  lemma TurnsByScan<T>(s: State<T>, a: Action<T>)
    requires Next(s, a).first != s.first
    ensures a.Produce? && s.pc.Scan? && s.pc.cell == 0 && s.ring != [] && Loc(s.ring[0], 0) in s.flags
    ensures Next(s, a).first == s.first + 1
  {
  }

  /** In every interleaving: a consumer about to read a block pointer finds the block of
      its index, although the index pointer and the front it has loaded may long be out
      of date. */
  lemma StaleIndexFindsBlock<T>(consumers: nat, half: nat, indexed: bool, actions: seq<Action<T>>, t: nat)
    requires half > 0
    ensures var s := Run(Init<T>(consumers, half, indexed), actions);
      t < |s.readers| && s.readers[t].AtBlock? ==>
        var AtBlock(lo, _, h, slot) := s.readers[t];
        && h < |s.headers| && slot < |s.headers[h].entries| && InRing(s.ring, s.first, lo)
        && s.headers[h].entries[slot] == Entry(lo - lo % BLOCK_SIZE, Some(At(s.ring, s.first, lo).block))
  {
    hide Run, Inv, Passed, HeaderSound, Slot;
    InitInv<T>(consumers, half, indexed);
    InvRun(Init<T>(consumers, half, indexed), actions);
    var s := Run(Init<T>(consumers, half, indexed), actions);
    if t < |s.readers| && s.readers[t].AtBlock? {
      ReaderFacts(s, t);
      var r := s.readers[t];
      StillInRing(s.progress, t, r, s.first, r.lo);
      BlockFound(s.headers[r.h], s.ring, s.first, r.lo);
    }
  }

  // ---- what the consumers receive ----

  /** What happens at the ticket counters during a run. */
  function TicketActions<T>(s: State<T>, actions: seq<Action<T>>): seq<Tickets.Action<T>>
    decreases |actions|
  {
    if actions == [] then []
    else TicketAction(s, actions[0]) + TicketActions(Next(s, actions[0]), actions[1..])
  }

  function TicketAction<T>(s: State<T>, a: Action<T>): seq<Tickets.Action<T>> {
    match a
    case Enqueue(_) => []
    case Produce(_) => if s.pc.Publish? then [Tickets.Publish([s.pc.x])] else []
    case Begin(t, max) => if t < |s.readers| && s.readers[t].Free? then [Tickets.Begin(t, max)] else []
    case Consume(t) =>
      if t < |s.readers| && t < |s.out| && s.readers[t].Free? then [Tickets.Advance(t)] else []
  }

  lemma TicketRuns<T>(q: Tickets.State<T>, a: seq<Tickets.Action<T>>, rest: seq<Tickets.Action<T>>)
    requires |a| <= 1
    ensures Tickets.Run(q, a + rest) == Tickets.Run(if a == [] then q else Tickets.Next(q, a[0]), rest)
  {
    assert (a + rest)[|a|..] == rest;
    if a == [] {
      assert a + rest == rest;
    }
  }

  /** The composed machine refines the ticket machine. */
  lemma {:induction false} RefinesTickets<T>(s: State<T>, actions: seq<Action<T>>)
    ensures Run(s, actions).q == Tickets.Run(s.q, TicketActions(s, actions))
    decreases |actions|
  {
    if actions != [] {
      var a := actions[0];
      StepRefines(s, a);
      TicketRuns(s.q, TicketAction(s, a), TicketActions(Next(s, a), actions[1..]));
      RefinesTickets(Next(s, a), actions[1..]);
    }
  }

  lemma StepRefines<T>(s: State<T>, a: Action<T>)
    ensures |TicketAction(s, a)| <= 1
    ensures Next(s, a).q == if TicketAction(s, a) == [] then s.q else Tickets.Next(s.q, TicketAction(s, a)[0])
  {
    hide Tickets.Next;
  }

  /** End to end: what a consumer moves out of cells, found through whatever block index,
      is what its tickets entitle it to. Between calls it has moved out one element for
      each index it claimed, and each is the element published at that index. */
  lemma ElementsReachTheirClaimers<T>(consumers: nat, half: nat, indexed: bool, actions: seq<Action<T>>, t: nat)
    requires half > 0 && t < consumers
    ensures var s := Run(Init<T>(consumers, half, indexed), actions);
      && |s.out| == |s.readers| == |s.q.received| == consumers && s.out[t] <= s.q.received[t]
      && (s.readers[t].Free? ==>
            && |s.out[t]| == Tickets.Occurrences(s.q.claims, t)
            && forall i | 0 <= i < |s.q.claims| && s.q.claims[i] == t ::
                 && i < |s.q.items| && Tickets.Occurrences(s.q.claims[..i], t) < |s.out[t]|
                 && s.out[t][Tickets.Occurrences(s.q.claims[..i], t)] == s.q.items[i])
  {
    hide Run, Tickets.Run, TicketActions, Tickets.Inv, MemorySound, IndexSound, OwnersSound, LooksSound;
    hide Placed, Tickets.Occurrences;
    var start := Init<T>(consumers, half, indexed);
    var s := Run(start, actions);
    InitInv<T>(consumers, half, indexed);
    InvRun(start, actions);
    RefinesTickets(start, actions);
    var q := TicketActions(start, actions);
    Tickets.ThreadsKept(start.q, q);
    Tickets.EachElementDeliveredOnce<T>(consumers, q, 0);
    forall i | 0 <= i < |s.q.claims| && s.q.claims[i] == t && s.readers[t].Free?
      ensures i < |s.q.items| && Tickets.Occurrences(s.q.claims[..i], t) < |s.out[t]|
      ensures s.out[t][Tickets.Occurrences(s.q.claims[..i], t)] == s.q.items[i]
    {
      Tickets.EachElementDeliveredOnce<T>(consumers, q, i);
    }
  }

  // ---- at rest ----

  function Elements<T>(cells: map<Loc, T>, b: nat): seq<Option<T>> {
    seq(BLOCK_SIZE, k requires 0 <= k < BLOCK_SIZE => if Loc(b, k) in cells then Some(cells[Loc(b, k)]) else None)
  }

  function Flags(flags: set<Loc>, b: nat): seq<bool> {
    seq(BLOCK_SIZE, k requires 0 <= k < BLOCK_SIZE => Loc(b, BLOCK_SIZE - 1 - k) in flags)
  }

  /** Once every call has returned, the blocks are what the producer of one thread keeps
      them: exactly the stored elements are constructed and exactly the dequeued cells
      are flagged, however the calls were interleaved. */
  lemma AtRest<T>(consumers: nat, half: nat, indexed: bool, actions: seq<Action<T>>, p: nat)
    requires half > 0
    ensures var s := Run(Init<T>(consumers, half, indexed), actions);
      s.pc.Ready? && (forall t | 0 <= t < |s.readers| :: s.readers[t].Free?) && p < |s.ring| ==>
        && |s.q.claims| <= |s.q.items|
        && ExplicitProducers.Holds(Elements(s.cells, s.ring[p]), Flags(s.flags, s.ring[p]),
                                   BLOCK_SIZE * (s.first + p), |s.q.claims|, s.q.items[|s.q.claims|..])
  {
    hide Run, Inv, ExplicitProducers.Holds;
    InitInv<T>(consumers, half, indexed);
    InvRun(Init<T>(consumers, half, indexed), actions);
    var s := Run(Init<T>(consumers, half, indexed), actions);
    if s.pc.Ready? && (forall t | 0 <= t < |s.readers| :: s.readers[t].Free?) && p < |s.ring| {
      BlocksAtRest(s, p);
    }
  }

  lemma BlocksAtRest<T>(s: State<T>, p: nat)
    requires Inv(s) && s.pc.Ready? && (forall t | 0 <= t < |s.readers| :: s.readers[t].Free?) && p < |s.ring|
    ensures |s.q.claims| <= |s.q.items|
    ensures ExplicitProducers.Holds(Elements(s.cells, s.ring[p]), Flags(s.flags, s.ring[p]),
                                    BLOCK_SIZE * (s.first + p), |s.q.claims|, s.q.items[|s.q.claims|..])
  {
    hide Ticketed, Owned, Passed, HeadersSound, Current, LooksSound, At, Owns;
    var head, base := |s.q.claims|, BLOCK_SIZE * (s.first + p);
    forall k | 0 <= k < BLOCK_SIZE
      ensures Elements(s.cells, s.ring[p])[k] == Cell(base + k, head, s.q.items[head..])
      ensures Loc(s.ring[p], k) in s.flags <==> base + k < head
    {
      CellAt(s.ring, s.first, p, k);
      if base + k < head {
        assert HasOwner(s.progress, s.readers, base + k);
      }
    }
    forall k | 0 <= k < BLOCK_SIZE ensures Flags(s.flags, s.ring[p])[k] <==> base + BLOCK_SIZE - 1 - k < head {
      assert Loc(s.ring[p], BLOCK_SIZE - 1 - k) in s.flags <==> base + (BLOCK_SIZE - 1 - k) < head;
    }
  }

  lemma CellAt(ring: seq<nat>, first: nat, p: nat, k: nat)
    requires p < |ring| && k < BLOCK_SIZE
    ensures InRing(ring, first, BLOCK_SIZE * (first + p) + k)
    ensures At(ring, first, BLOCK_SIZE * (first + p) + k) == Loc(ring[p], k)
  {
  }

  /** On words the same slot is computed, as long as the two blocks are less than 2^63
      indices apart. */
  lemma LookupOnWords(front: nat, base: nat, size: nat, lo: nat)
    requires size > 0 && -HALF < lo - lo % BLOCK_SIZE - base < HALF
    ensures ExplicitProducers.LookupSlot(Wrap(lo), front, Wrap(base), size) == SlotFrom(front, base, size, lo)
  {
    hide Wrap, Signed, Quotient;
    CellOfWord(lo);
    SignedDifference(lo - lo % BLOCK_SIZE, base);
  }

  // ---- an enqueue on its own ----

  function Produces<T>(k: nat): seq<Action<T>> {
    seq(k, _ => Produce(true))
  }

  /** Accesses the producer has at most still to make. */
  function ProducerWork<T>(pc: Producer<T>): nat {
    match pc
    case Ready => 0
    case Publish(_) => 1
    case Construct(_) => 2
    case StoreFront(_) => 3
    case WriteBlock(_) => 4
    case WriteBase(_) => 5
    case Reset(_, cell) => 6 + cell
    case Fetch(_) => 6
    case Growing(_) => 7
    case Room(_) => 8
    case Scan(_, cell) => 7 + BLOCK_SIZE + cell
  }

  lemma ProducerFrame<T>(s: State<T>)
    ensures var s' := Produced(s, true);
      && s'.readers == s.readers && s'.progress == s.progress && s'.out == s.out
      && s'.q == if s.pc.Publish? then Tickets.Next(s.q, Tickets.Publish([s.pc.x])) else s.q
  {
    hide Copied, WithEntry, WithFront, EntryAt, Tickets.Next;
  }

  /** While memory and index words last, each access brings the element nearer to its
      publication. */
  lemma ProducerAdvances<T>(s: State<T>)
    requires !s.pc.Ready? && |s.q.items| + BLOCK_SIZE < |s.q.claims| + HALF
    ensures var s' := Produced(s, true);
      && ProducerWork(s'.pc) < ProducerWork(s.pc)
      && if s.pc.Publish? then s'.pc.Ready? else !s'.pc.Ready? && s'.pc.x == s.pc.x
  {
    hide Copied, WithEntry, WithFront, EntryAt, Tickets.Next;
  }

  lemma {:induction false} ProducerFinishes<T>(s: State<T>, k: nat)
    requires !s.pc.Ready? && |s.q.items| + BLOCK_SIZE < |s.q.claims| + HALF && k >= ProducerWork(s.pc)
    ensures var s' := Run(s, Produces(k));
      && s'.pc.Ready? && s'.q == s.q.(items := s.q.items + [s.pc.x])
      && s'.readers == s.readers && s'.progress == s.progress && s'.out == s.out
    decreases ProducerWork(s.pc)
  {
    hide Produced, ProducerWork;
    ProducerFrame(s);
    ProducerAdvances(s);
    ProducesStep(s, k);
    if s.pc.Publish? {
      ProducerRests(Produced(s, true), k - 1);
    } else {
      ProducerFinishes(Produced(s, true), k - 1);
    }
  }

  lemma ProducesStep<T>(s: State<T>, k: nat)
    requires k > 0
    ensures Run(s, Produces(k)) == Run(Produced(s, true), Produces(k - 1))
  {
    hide Produced;
    assert Produces<T>(k)[1..] == Produces(k - 1);
  }

  lemma {:induction false} ProducerRests<T>(s: State<T>, k: nat)
    requires s.pc.Ready?
    ensures Run(s, Produces(k)) == s
  {
    if k > 0 {
      ProducesStep(s, k);
      ProducerRests(s, k - 1);
    }
  }

  /** The index has room for a block, or needs none. */
  predicate NeedsNoIndex<T>(s: State<T>) {
    s.headers != [] && (|s.ring| < s.indexSize || !(s.pc.Scan? || s.pc.Room? || s.pc.Growing?))
  }

  lemma {:induction false} IndexStays<T>(s: State<T>, k: nat)
    requires s.pc.Ready? || NeedsNoIndex(s)
    ensures |Run(s, Produces(k)).headers| == |s.headers|
    decreases k
  {
    if s.pc.Ready? {
      ProducerRests(s, k);
    } else if k > 0 {
      ProducesStep(s, k);
      IndexStep(s);
      hide Produced, NeedsNoIndex;
      IndexStays(Produced(s, true), k - 1);
    }
  }

  lemma IndexStep<T>(s: State<T>)
    requires NeedsNoIndex(s) && !s.pc.Ready?
    ensures |Produced(s, true).headers| == |s.headers|
    ensures Produced(s, true).pc.Ready? || NeedsNoIndex(Produced(s, true))
  {
    hide EntryAt, Tickets.Next;
  }

  /** An enqueue that nobody interrupts publishes its element behind all others, wherever
      the consumers stand, as long as memory lasts and fewer than 2^63 - 32 elements are
      stored. The index is replaced only if it has no room. */
  lemma LoneEnqueue<T>(s: State<T>, x: T, k: nat)
    requires s.pc.Ready? && |s.q.items| + BLOCK_SIZE < |s.q.claims| + HALF && k >= 70
    ensures var s' := Run(Next(s, Enqueue(x)), Produces(k));
      && s'.pc.Ready? && s'.q == s.q.(items := s.q.items + [x])
      && s'.readers == s.readers && s'.progress == s.progress && s'.out == s.out
      && (s.headers != [] && |s.ring| < s.indexSize ==> |s'.headers| == |s.headers|)
  {
    hide Run, Produced;
    ProducerFinishes(Next(s, Enqueue(x)), k);
    if s.headers != [] && |s.ring| < s.indexSize {
      IndexStays(Next(s, Enqueue(x)), k);
    }
  }

  /** Seeing all flags set, the producer turns the ring. */
  lemma {:induction false} ScanTurns<T>(s: State<T>, k: nat)
    requires s.pc.Scan? && s.ring != [] && k > s.pc.cell
    requires forall j | 0 <= j <= s.pc.cell :: Loc(s.ring[0], j) in s.flags
    ensures Run(s, Produces(k))
         == Run(s.(ring := Turned(s.ring), first := s.first + 1, pc := Reset(s.pc.x, BLOCK_SIZE - 1)),
                Produces(k - 1 - s.pc.cell))
    decreases s.pc.cell
  {
    ProducesStep(s, k);
    if s.pc.cell > 0 {
      ScanTurns(s.(pc := Scan(s.pc.x, s.pc.cell - 1)), k - 1);
    }
  }

  /** Once it has its block, the producer neither turns the ring nor takes another. */
  lemma {:induction false} RingStays<T>(s: State<T>, k: nat)
    requires Opening(s.pc) || s.pc.Construct? || s.pc.Publish? || s.pc.Ready?
    ensures Run(s, Produces(k)).ring == s.ring && Run(s, Produces(k)).blocks == s.blocks
    decreases k
  {
    if k > 0 {
      ProducesStep(s, k);
      RingStep(s);
      hide Produced;
      RingStays(Produced(s, true), k - 1);
    }
  }

  lemma RingStep<T>(s: State<T>)
    requires Opening(s.pc) || s.pc.Construct? || s.pc.Publish? || s.pc.Ready?
    ensures var s' := Produced(s, true);
      && s'.ring == s.ring && s'.blocks == s.blocks
      && (Opening(s'.pc) || s'.pc.Construct? || s'.pc.Publish? || s'.pc.Ready?)
  {
    hide WithEntry, WithFront, EntryAt, Tickets.Next;
  }

  /** A block whose elements have all been taken out is used again: with no consumer inside
      a claimed index and the head past the oldest block, an element that starts a block
      goes there, and no new block is asked for. */
  lemma LoneReuse<T>(s: State<T>, x: T, k: nat)
    requires Inv(s) && s.pc.Ready? && (forall t | 0 <= t < |s.readers| :: s.readers[t].Free?)
    requires |s.q.items| % BLOCK_SIZE == 0 && s.ring != [] && BLOCK_SIZE * (s.first + 1) <= |s.q.claims|
    requires |s.q.items| + BLOCK_SIZE < |s.q.claims| + HALF && k >= 70
    ensures var s' := Run(Next(s, Enqueue(x)), Produces(k));
      && s'.pc.Ready? && s'.q == s.q.(items := s.q.items + [x])
      && s'.ring == s.ring[1..] + [s.ring[0]] && s'.blocks == s.blocks
  {
    LoneEnqueue(s, x, k);
    forall j | 0 <= j < BLOCK_SIZE ensures Loc(s.ring[0], j) in s.flags {
      FirstFlagged(s, j);
    }
    hide Run, Produced, Inv;
    var s1 := Next(s, Enqueue(x));
    ScanTurns(s1, k);
    RingStays(s1.(ring := Turned(s1.ring), first := s1.first + 1, pc := Reset(x, BLOCK_SIZE - 1)), k - BLOCK_SIZE);
  }

  lemma FirstFlagged<T>(s: State<T>, j: nat)
    requires Inv(s) && s.pc.Ready? && (forall t | 0 <= t < |s.readers| :: s.readers[t].Free?)
    requires s.ring != [] && BLOCK_SIZE * (s.first + 1) <= |s.q.claims| && j < BLOCK_SIZE
    ensures Loc(s.ring[0], j) in s.flags
  {
    hide Ticketed, Owned, Passed, CellsSound, HeadersSound, Current, LooksSound, At, Owns;
    CellAt(s.ring, s.first, 0, j);
    assert HasOwner(s.progress, s.readers, BLOCK_SIZE * s.first + j);
  }

  // ---- a dequeue on its own ----

  function Consumes<T>(t: nat, k: nat): seq<Action<T>> {
    seq(k, _ => Consume(t))
  }

  lemma ConsumesStep<T>(s: State<T>, t: nat, k: nat)
    requires k > 0
    ensures Run(s, Consumes(t, k)) == Run(Next(s, Consume(t)), Consumes(t, k - 1))
  {
    hide Next;
    assert Consumes<T>(t, k)[1..] == Consumes(t, k - 1);
  }

  /** The ticket machine after j accesses of t. */
  function Advanced<T>(q: Tickets.State<T>, t: nat, j: nat): Tickets.State<T>
    decreases j
  {
    if j == 0 then q else Advanced(Tickets.Next(q, Tickets.Advance(t)), t, j - 1)
  }

  lemma {:induction false} AdvancedGrows<T>(q: Tickets.State<T>, t: nat, j: nat)
    ensures |q.claims| <= |Advanced(q, t, j).claims|
    decreases j
  {
    if j > 0 {
      AdvancedGrows(Tickets.Next(q, Tickets.Advance(t)), t, j - 1);
    }
  }

  /** Before they claim, a consumer's accesses are to the ticket counters. */
  lemma {:induction false} ConsumesTickets<T>(s: State<T>, t: nat, j: nat)
    requires t < |s.readers| && t < |s.out| && s.readers[t].Free? && |Advanced(s.q, t, j).claims| == |s.q.claims|
    ensures Run(s, Consumes(t, j)) == s.(q := Advanced(s.q, t, j))
    decreases j
  {
    hide Tickets.Next;
    if j > 0 {
      var q := Tickets.Next(s.q, Tickets.Advance(t));
      ClaimsGrow(s.q, t);
      AdvancedGrows(q, t, j - 1);
      assert Next(s, Consume(t)) == s.(q := q);
      ConsumesStep(s, t, j);
      ConsumesTickets(s.(q := q), t, j - 1);
    }
  }

  lemma ClaimsGrow<T>(q: Tickets.State<T>, t: nat)
    ensures |q.claims| <= |Tickets.Next(q, Tickets.Advance(t)).claims|
  {
  }

  /** Accesses a consumer with claimed indices has at most still to make. */
  function ReaderWork(r: Reader): int {
    match r
    case Free => 0
    case Claimed(lo, hi) => 3 * (hi - lo) + 3
    case AtFront(lo, hi, _) => 3 * (hi - lo) + 2
    case AtBase(lo, hi, _, _, _) => 3 * (hi - lo) + 1
    case AtBlock(lo, hi, _, _) => 3 * (hi - lo)
    case Moving(lo, hi, _, _, _, i) => End(lo, hi) - i + (End(lo, hi) - lo) + 3 * (hi - End(lo, hi))
    case Flagging(lo, hi, _, _, _, i) => i - lo + 1 + 3 * (hi - End(lo, hi))
    case Fault => 0
  }

  lemma ReaderAdvances<T>(s: State<T>, t: nat)
    requires Inv(s) && t < |s.readers| && t < |s.out| && !s.readers[t].Free?
    ensures var s' := Consumed(s, t);
      && s'.q == s.q && |s'.readers| == |s.readers| && |s'.out| == |s.out|
      && 0 <= ReaderWork(s'.readers[t]) < ReaderWork(s.readers[t])
  {
    hide Inv, ReaderWork, Consumed, Owns;
    ReaderFacts(s, t);
    ConsumeInv(s, t);
    ConsumedFrame(s, t);
    ReaderFacts(Consumed(s, t), t);
    WorkPositive(Consumed(s, t).progress, t, Consumed(s, t).readers[t]);
    WorkShrinks(s, t);
  }

  lemma ConsumedFrame<T>(s: State<T>, t: nat)
    requires t < |s.readers| && t < |s.out| && !s.readers[t].Free?
    ensures Consumed(s, t).q == s.q && |Consumed(s, t).readers| == |s.readers| && |Consumed(s, t).out| == |s.out|
  {
  }

  lemma WorkPositive(progress: seq<Progress>, t: nat, r: Reader)
    requires Owns(progress, t, r)
    ensures ReaderWork(r) >= 0 && !r.Fault?
  {
  }

  lemma WorkShrinks<T>(s: State<T>, t: nat)
    requires t < |s.readers| && t < |s.out| && !s.readers[t].Free? && Owns(s.progress, t, s.readers[t])
    requires !Consumed(s, t).readers[t].Fault?
    ensures ReaderWork(Consumed(s, t).readers[t]) < ReaderWork(s.readers[t])
  {
    hide AllHeld, AllEmptied, SlotFrom;
  }

  /** A consumer that has claimed indices gets them all out, wherever the producer and
      the other consumers stand. */
  lemma {:induction false} ReaderFinishes<T>(s: State<T>, t: nat, k: nat)
    requires Inv(s) && t < |s.readers| && t < |s.out| && !s.readers[t].Free? && k >= ReaderWork(s.readers[t])
    ensures var s' := Run(s, Consumes(t, k));
      Inv(s') && s'.q == s.q && t < |s'.readers| && s'.readers[t].Free?
    decreases k
  {
    hide Inv, ReaderWork, Consumed;
    ReaderAdvances(s, t);
    InvStep(s, Consume(t));
    ConsumesStep(s, t, k);
    var s' := Next(s, Consume(t));
    if s'.readers[t].Free? {
      FreeIsIdle(s, s', t);
      ReaderRests(s', t, k - 1);
    } else {
      ReaderFinishes(s', t, k - 1);
    }
  }

  lemma FreeIsIdle<T>(s: State<T>, s': State<T>, t: nat)
    requires Inv(s) && t < |s.readers| && !s.readers[t].Free? && s'.q == s.q
    ensures t < |s'.q.threads| && s'.q.threads[t] == Tickets.Idle
  {
    hide Tickets.Inv, MemorySound, IndexSound, OwnersSound, LooksSound;
  }

  lemma {:induction false} ReaderRests<T>(s: State<T>, t: nat, k: nat)
    requires t < |s.readers| && t < |s.out| && s.readers[t].Free?
    requires t < |s.q.threads| && s.q.threads[t] == Tickets.Idle
    ensures Run(s, Consumes(t, k)) == s
  {
    if k > 0 {
      ConsumesStep(s, t, k);
      ReaderRests(s, t, k - 1);
    }
  }

  lemma {:induction false} ConsumesJoin<T>(s: State<T>, t: nat, j: nat, k: nat)
    requires j <= k
    ensures Run(s, Consumes(t, k)) == Run(Run(s, Consumes(t, j)), Consumes(t, k - j))
    decreases j
  {
    hide Next;
    if j > 0 {
      ConsumesStep(s, t, k);
      ConsumesStep(s, t, j);
      ConsumesJoin(Next(s, Consume(t)), t, j - 1, k - 1);
    }
  }

  /** How many elements a call for up to max gets: as many as are stored, up to max. */
  function Due<T>(q: Tickets.State<T>, max: nat): (m: nat)
    ensures |q.claims| <= |q.items| ==> |q.claims| + m <= |q.items|
  {
    var stored: int := |q.items| - |q.claims|;
    if stored < 0 then 0 else if stored < max then stored else max
  }

  lemma {:induction false} IdleStays<T>(q: Tickets.State<T>, t: nat, j: nat)
    requires t < |q.threads| && q.threads[t] == Tickets.Idle
    ensures Advanced(q, t, j) == q
  {
    if j > 0 {
      IdleStays(q, t, j - 1);
    }
  }

  /** The counters during the first accesses of a lone call: the tail, the overcommit
      count, the optimistic count, the tickets and the decision. */
  lemma LoneTickets<T>(q: Tickets.State<T>, t: nat, max: nat)
    requires Tickets.Inv(q) && Tickets.Quiescent(q) && t < |q.threads| && max > 0
    ensures |q.received| == |q.threads|
    ensures var q4 := Advanced(Tickets.Next(q, Tickets.Begin(t, max)), t, 4);
      && q4.items == q.items && q4.claims == q.claims && q4.received == q.received
      && q4.threads == if Due(q, max) == 0 then q.threads else q.threads[t := Tickets.Granted(Due(q, max))]
  {
    Tickets.LoneCounts(q);
    var q1 := Tickets.Next(q, Tickets.Begin(t, max));
    TwoLooks(q, t, max);
    var q3 := Advanced(q1, t, 2);
    if Due(q, max) == 0 {
      assert q3 == q;
      IdleStays(q3, t, 2);
    } else {
      TwoTickets(q3, t, Due(q, max));
    }
    AdvancedTwice(q1, t);
  }

  lemma AdvancedTwice<T>(q: Tickets.State<T>, t: nat)
    ensures Advanced(q, t, 4) == Advanced(Advanced(q, t, 2), t, 2)
  {
    hide Tickets.Next;
    var n: Tickets.Action<T> := Tickets.Advance(t);
    var q1 := Tickets.Next(q, n);
    var q2 := Tickets.Next(q1, n);
    assert Advanced(q, t, 4) == Advanced(q1, t, 3) == Advanced(q2, t, 2);
    assert Advanced(q, t, 2) == Advanced(q1, t, 1) == Advanced(q2, t, 0) == q2;
  }

  lemma TwoLooks<T>(q: Tickets.State<T>, t: nat, max: nat)
    requires t < |q.threads| == |q.received| && q.threads[t] == Tickets.Idle && max > 0
    requires q.opt - q.over == |q.claims| <= |q.items|
    ensures Advanced(Tickets.Next(q, Tickets.Begin(t, max)), t, 2)
         == if Due(q, max) == 0 then q else q.(threads := q.threads[t := Tickets.Ready(Due(q, max), q.over)])
  {
    var n: Tickets.Action<T> := Tickets.Advance(t);
    var q1 := q.(threads := q.threads[t := Tickets.SawTail(max, |q.items|)]);
    var q2 := q.(threads := q.threads[t := Tickets.SawOvercommit(max, |q.items|, q.over)]);
    assert Tickets.Next(q, Tickets.Begin(t, max)) == q1;
    assert Tickets.Next(q1, n) == q2;
    assert q.threads[t := Tickets.Idle] == q.threads;
    assert Tickets.Next(q2, n)
        == if Due(q, max) == 0 then q else q.(threads := q.threads[t := Tickets.Ready(Due(q, max), q.over)]);
    hide Tickets.Next;
    assert Advanced(q1, t, 2) == Advanced(q2, t, 1) == Advanced(Tickets.Next(q2, n), t, 0);
  }

  lemma TwoTickets<T>(q: Tickets.State<T>, t: nat, m: nat)
    requires t < |q.threads| == |q.received| && q.threads[t] == Tickets.Ready(m, q.over) && m > 0
    requires q.opt - q.over == |q.claims| && |q.claims| + m <= |q.items|
    ensures var q' := Advanced(q, t, 2);
      && q'.items == q.items && q'.claims == q.claims && q'.received == q.received
      && q'.threads == q.threads[t := Tickets.Granted(m)]
  {
    var n: Tickets.Action<T> := Tickets.Advance(t);
    var q1 := Tickets.Next(q, n);
    assert q1.threads == q.threads[t := Tickets.Ticketed(q.opt, m, q.over)] && q1.items == q.items;
    var q2 := Tickets.Next(q1, n);
    assert q2.threads == q.threads[t := Tickets.Granted(m)];
    hide Tickets.Next;
    assert Advanced(q, t, 2) == Advanced(q1, t, 1) == Advanced(q2, t, 0);
  }

  /** A dequeue of up to max elements that no other call interrupts hands its caller the
      oldest elements, as many as it asked for or there are - taken out of their cells,
      wherever the producer and the readers of earlier claims stand. */
  lemma LoneDequeue<T>(s: State<T>, t: nat, max: nat, k: nat)
    requires Inv(s) && Tickets.Quiescent(s.q) && t < |s.readers| && s.readers[t].Free? && max > 0
    requires k >= 3 * Due(s.q, max) + 8
    ensures t < |s.out| && |s.readers| == |s.q.threads|
    ensures var s' := Run(Next(s, Begin(t, max)), Consumes(t, k)); var m := Due(s.q, max);
      && |s'.readers| == |s.readers| && |s'.out| == |s.out| && s'.readers[t].Free? && s'.q.items == s.q.items
      && s'.q.claims == s.q.claims + seq(m, _ => t) && |s.q.claims| + m <= |s.q.items|
      && s'.out[t] == s.out[t] + s.q.items[|s.q.claims|..|s.q.claims| + m]
  {
    hide Run, Next, Inv, Tickets.Inv, Tickets.Next, Due;
    CallFacts(s, t);
    LoneTickets(s.q, t, max);
    Begun(s, t, max);
    InvStep(s, Begin(t, max));
    var s1 := Next(s, Begin(t, max));
    ConsumesTickets(s1, t, 4);
    var s5 := s1.(q := Advanced(s1.q, t, 4));
    ConsumesJoin(s1, t, 4, k);
    if Due(s.q, max) == 0 {
      ReaderRests(s5, t, k - 4);
    } else {
      ConsumedInv(s1, t, 4);
      LoneClaim(s5, t, Due(s.q, max), k - 4);
    }
  }

  lemma CallFacts<T>(s: State<T>, t: nat)
    requires Inv(s) && t < |s.readers|
    ensures Tickets.Inv(s.q) && t < |s.out| && |s.readers| == |s.q.threads| == |s.q.received| == |s.out|
    ensures |s.q.claims| <= |s.q.items| && (s.readers[t].Free? ==> s.out[t] == s.q.received[t])
  {
  }

  lemma Begun<T>(s: State<T>, t: nat, max: nat)
    requires t < |s.readers| && s.readers[t].Free?
    ensures Next(s, Begin(t, max)) == s.(q := Tickets.Next(s.q, Tickets.Begin(t, max)))
    ensures Tickets.Next(s.q, Tickets.Begin(t, max)).claims == s.q.claims
  {
  }

  lemma {:induction false} ConsumedInv<T>(s: State<T>, t: nat, k: nat)
    requires Inv(s)
    ensures Inv(Run(s, Consumes(t, k)))
  {
    InvRun(s, Consumes(t, k));
  }

  lemma LoneClaim<T>(s: State<T>, t: nat, m: nat, k: nat)
    requires Inv(s) && t < |s.readers| && t < |s.out| && s.readers[t].Free? && t < |s.q.threads|
    requires s.q.threads[t] == Tickets.Granted(m) && m > 0 && |s.q.claims| + m <= |s.q.items| && k >= 3 * m + 4
    ensures var s' := Run(s, Consumes(t, k));
      && |s'.readers| == |s.readers| && |s'.out| == |s.out| && s'.readers[t].Free? && s'.q.items == s.q.items
      && s'.q.claims == s.q.claims + seq(m, _ => t)
      && s'.out[t] == s.out[t] + s.q.items[|s.q.claims|..|s.q.claims| + m]
  {
    hide Run, Next, Inv, Tickets.Inv;
    CallFacts(s, t);
    Claims(s, t, m);
    InvStep(s, Consume(t));
    ConsumesStep(s, t, k);
    var s1 := Next(s, Consume(t));
    ReaderFinishes(s1, t, k - 1);
    var s' := Run(s1, Consumes(t, k - 1));
    CallFacts(s', t);
  }

  lemma Claims<T>(s: State<T>, t: nat, m: nat)
    requires t < |s.readers| && t < |s.out| && s.readers[t].Free? && t < |s.q.threads| == |s.q.received|
    requires s.q.threads[t] == Tickets.Granted(m) && m > 0 && |s.q.claims| + m <= |s.q.items|
    ensures var s' := Next(s, Consume(t));
      && |s'.readers| == |s.readers| && |s'.out| == |s.out|
      && s'.readers[t] == Claimed(|s.q.claims|, |s.q.claims| + m) && s'.q.items == s.q.items
      && s'.q.claims == s.q.claims + seq(m, _ => t) && |s'.q.received| == |s.q.received|
      && s'.q.received[t] == s.q.received[t] + s.q.items[|s.q.claims|..|s.q.claims| + m]
  {
  }
}
