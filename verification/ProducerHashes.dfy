/** The map from thread ids to implicit producers: a chain of open-addressed tables with
    tombstones, lazy promotion and resizing, used by one call at a time. */
module ProducerHashes {

  import opened Circular
  import opened Sums

  const INITIAL_HASH_SIZE: nat := 32

  class Producer {
    const isExplicit: bool
    var inactive: bool

    constructor (isExplicit: bool)
      ensures this.isExplicit == isExplicit && !inactive
    {
      this.isExplicit := isExplicit;
      inactive := false;
    }
  }

  /** The two reserved ids, and the id of a thread. */
  datatype Key = Empty | Tombstone | Id(t: int)

  datatype Slot = Slot(key: Key, value: Producer?)

  class Table {
    var entries: seq<Slot>
    const prev: Table?

    constructor (capacity: nat, prev: Table?)
      ensures |entries| == capacity && this.prev == prev
      ensures forall s | 0 <= s < capacity :: entries[s].key == Empty
    {
      entries := seq(capacity, _ => Slot(Empty, null));
      this.prev := prev;
    }
  }

  // ---- one table ----

  /** The slot d steps after slot start. */
  function At(start: nat, d: nat, capacity: nat): (s: nat)
    requires start < capacity && d < capacity
    ensures s < capacity
  {
    if start + d < capacity then start + d else start + d - capacity
  }

  function Distance(start: nat, s: nat, capacity: nat): (d: nat)
    requires start < capacity && s < capacity
    ensures d < capacity && At(start, d, capacity) == s
  {
    if start <= s then s - start else s + capacity - start
  }

  lemma MaskedStep(start: nat, d: nat, capacity: nat)
    requires start < capacity && d + 1 < capacity
    ensures (At(start, d, capacity) + 1) % capacity == At(start, d + 1, capacity)
  {
  }

  /** No slot among the first d from start on was ever free. */
  ghost predicate Occupied(entries: seq<Slot>, start: nat, d: nat)
    requires start < |entries| && d <= |entries|
  {
    forall e | 0 <= e < d :: entries[At(start, e, |entries|)].key != Empty
  }

  /** Slot p is the first without an id from the one that hashed stands for. */
  ghost predicate FirstWithoutId(entries: seq<Slot>, hashed: nat, p: nat)
    requires p < |entries|
  {
    exists d :: 0 <= d < |entries| && p == At(hashed % |entries|, d, |entries|) && !entries[p].key.Id?
                && forall e | 0 <= e < d :: entries[At(hashed % |entries|, e, |entries|)].key.Id?
  }

  ghost predicate HasKey(entries: seq<Slot>, t: int) {
    exists s :: 0 <= s < |entries| && entries[s].key == Id(t)
  }

  /** Every id can be reached from the slot it hashes to. */
  ghost predicate Probed(entries: seq<Slot>, hash: int -> nat) {
    forall s | 0 <= s < |entries| && entries[s].key.Id? ::
      var start := hash(entries[s].key.t) % |entries|;
      Occupied(entries, start, Distance(start, s, |entries|))
  }

  ghost predicate Unique(entries: seq<Slot>) {
    forall r, s | 0 <= r < s < |entries| && entries[r].key.Id? :: entries[r].key != entries[s].key
  }

  ghost predicate HasEmpty(entries: seq<Slot>) {
    exists s :: 0 <= s < |entries| && entries[s].key == Empty
  }

  /** Its ids are live and carry their producers. */
  ghost predicate Agrees(entries: seq<Slot>, live: map<int, Producer>) {
    forall s | 0 <= s < |entries| && entries[s].key.Id? ::
      entries[s].key.t in live && entries[s].value == live[entries[s].key.t]
  }

  ghost predicate TableOk(entries: seq<Slot>, hash: int -> nat, live: map<int, Producer>) {
    && IsPowerOfTwo(|entries|) && HasEmpty(entries)
    && Probed(entries, hash) && Unique(entries) && Agrees(entries, live)
  }

  /** A probe that met neither the id nor a free slot before slot d has missed nothing. */
  lemma ProbeMisses(entries: seq<Slot>, hash: int -> nat, t: int, start: nat, d: nat)
    requires Probed(entries, hash) && d < |entries| && start == hash(t) % |entries|
    requires entries[At(start, d, |entries|)].key == Empty
    requires forall e | 0 <= e < d :: entries[At(start, e, |entries|)].key != Id(t)
    ensures !HasKey(entries, t)
  {
    forall s | 0 <= s < |entries| ensures entries[s].key != Id(t) {
      var e := Distance(start, s, |entries|);
      assert entries[s] == entries[At(start, e, |entries|)];
      assert entries[s].key == Id(t) ==> Occupied(entries, start, e);
    }
  }

  /** A free slot bounds the length of every probe. */
  lemma FreeAhead(entries: seq<Slot>, start: nat) returns (d: nat)
    requires HasEmpty(entries) && start < |entries|
    ensures d < |entries| && entries[At(start, d, |entries|)].key == Empty
  {
    var s :| 0 <= s < |entries| && entries[s].key == Empty;
    d := Distance(start, s, |entries|);
  }

  /** Taking the first slot without an id for t keeps every id reachable. */
  lemma ProbedClaimed(entries: seq<Slot>, hash: int -> nat, t: int, start: nat, d: nat, value: Producer?)
    requires Probed(entries, hash) && d < |entries| && start == hash(t) % |entries| && Occupied(entries, start, d)
    ensures Probed(entries[At(start, d, |entries|) := Slot(Id(t), value)], hash)
  {
    var p := At(start, d, |entries|);
    var entries' := entries[p := Slot(Id(t), value)];
    forall s | 0 <= s < |entries'| && entries'[s].key.Id?
      ensures var from := hash(entries'[s].key.t) % |entries'|; Occupied(entries', from, Distance(from, s, |entries'|))
    {
      if s == p {
        assert Distance(start, p, |entries|) == d;
      } else {
        var from := hash(entries[s].key.t) % |entries|;
        assert Occupied(entries, from, Distance(from, s, |entries|));
      }
    }
  }

  lemma ProbedBuried(entries: seq<Slot>, hash: int -> nat, p: nat)
    requires Probed(entries, hash) && p < |entries|
    ensures Probed(entries[p := Slot(Tombstone, entries[p].value)], hash)
  {
    var entries' := entries[p := Slot(Tombstone, entries[p].value)];
    forall s | 0 <= s < |entries'| && entries'[s].key.Id?
      ensures var start := hash(entries'[s].key.t) % |entries'|;
        Occupied(entries', start, Distance(start, s, |entries'|))
    {
      var start := hash(entries[s].key.t) % |entries|;
      assert Occupied(entries, start, Distance(start, s, |entries|));
    }
  }

  // ---- counting slots ----

  function InUse(): Slot -> nat {
    (s: Slot) => if s.key == Empty then 0 else 1
  }

  /** The slots that are not free: ids and tombstones. */
  function Used(entries: seq<Slot>): nat {
    Sum(InUse(), entries)
  }

  lemma UsedUpdate(entries: seq<Slot>, p: nat, x: Slot)
    requires p < |entries| && x.key != Empty
    ensures Used(entries[p := x]) == Used(entries) + if entries[p].key == Empty then 1 else 0
  {
    SumUpdate(InUse(), entries, p, x);
  }

  /** A table with fewer used slots than slots has a free one. */
  lemma {:induction false} RoomMeansEmpty(entries: seq<Slot>)
    requires Used(entries) < |entries|
    ensures HasEmpty(entries)
  {
    if entries[0].key == Empty {
    } else {
      RoomMeansEmpty(entries[1..]);
      var s :| 0 <= s < |entries| - 1 && entries[1..][s].key == Empty;
      assert entries[s + 1].key == Empty;
    }
  }

  lemma {:induction false} AllEmpty(entries: seq<Slot>)
    requires forall s | 0 <= s < |entries| :: entries[s].key == Empty
    ensures Used(entries) == 0
  {
    SumZero(InUse(), entries);
  }

  /** The live ids the table does not hold. */
  ghost function Missing(ids: set<int>, entries: seq<Slot>): set<int> {
    set t | t in ids && !HasKey(entries, t)
  }

  /** Every live id is missing or takes a used slot. */
  lemma {:induction false} IdsCounted(ids: set<int>, entries: seq<Slot>)
    ensures |ids| <= Used(entries) + |Missing(ids, entries)|
    decreases |entries|
  {
    if entries == [] {
      assert Missing(ids, entries) == ids;
    } else {
      var rest, key := entries[1..], entries[0].key;
      IdsCounted(ids, rest);
      forall t | HasKey(entries, t) ensures key == Id(t) || HasKey(rest, t) {
        var s :| 0 <= s < |entries| && entries[s].key == Id(t);
        assert s > 0 ==> rest[s - 1].key == Id(t);
      }
      var now := Missing(ids, entries);
      if key.Id? {
        assert Missing(ids, rest) <= now + {key.t};
        SubsetSize(Missing(ids, rest), now + {key.t});
        assert |now + {key.t}| <= |now| + 1;
      } else {
        assert Missing(ids, rest) <= now;
        SubsetSize(Missing(ids, rest), now);
      }
    }
  }

  lemma {:induction false} SubsetSize<X>(a: set<X>, b: set<X>)
    requires a <= b
    ensures |a| <= |b|
    decreases a
  {
    if x :| x in a {
      SubsetSize(a - {x}, b - {x});
    } else {
      assert a == {};
    }
  }

  // ---- the chain ----

  ghost predicate Chained(chain: seq<Table>) {
    && (forall i, j | 0 <= i < j < |chain| :: chain[i] != chain[j])
    && (forall i | 0 <= i < |chain| - 1 :: chain[i].prev == chain[i + 1])
    && (chain != [] ==> chain[|chain| - 1].prev == null)
  }

  /** Every table is sound and every live id is in one of them. */
  ghost predicate Sound(chain: seq<Table>, hash: int -> nat, live: map<int, Producer>)
    reads chain
  {
    && (forall i | 0 <= i < |chain| :: TableOk(chain[i].entries, hash, live))
    && Found(chain, live.Keys)
  }

  ghost predicate Found(chain: seq<Table>, ids: set<int>)
    reads chain
  {
    forall t | t in ids :: exists i :: 0 <= i < |chain| && HasKey(chain[i].entries, t)
  }

  /** The shared count covers the used slots of a table and the ids still missing from it,
      and stays below half its size. */
  ghost predicate Counted(entries: seq<Slot>, ids: set<int>, count: nat) {
    && Used(entries) + |Missing(ids, entries)| <= count
    && (count == 0 || count < |entries| / 2)
  }

  /** Live threads have producers of their own, which are implicit and active. */
  ghost predicate Owned(producers: seq<Producer>, live: map<int, Producer>)
    reads producers
  {
    && (forall i, j | 0 <= i < j < |producers| :: producers[i] != producers[j])
    && (forall t | t in live :: live[t] in producers && !live[t].isExplicit && !live[t].inactive)
    && (forall t, u | t in live && u in live && t != u :: live[t] != live[u])
  }

  ghost predicate Idle(q: Producer, isExplicit: bool)
    reads q
  {
    q.inactive && q.isExplicit == isExplicit
  }

  ghost predicate NoneIdle(producers: seq<Producer>, isExplicit: bool)
    reads producers
  {
    forall i | 0 <= i < |producers| :: !Idle(producers[i], isExplicit)
  }

  class ProducerHash {
    const hash: int -> nat
    var main: Table
    var count: nat
    /** The list of all producers ever created, the newest first. */
    var producers: seq<Producer>

    /** The producer of each live thread, and the tables from the current to the first. */
    ghost var live: map<int, Producer>
    ghost var chain: seq<Table>

    ghost predicate Valid()
      reads this, chain, producers
    {
      ValidFor(count)
    }

    /** Valid when n slots are counted. */
    ghost predicate ValidFor(n: nat)
      reads this, chain, producers
    {
      && chain != [] && chain[0] == main && Chained(chain)
      && Sound(chain, hash, live) && Counted(main.entries, live.Keys, n) && Owned(producers, live)
    }

    constructor (hash: int -> nat)
      ensures Valid() && live == map[] && this.hash == hash && producers == []
    {
      this.hash := hash;
      var table := new Table(INITIAL_HASH_SIZE, null);
      main, count, producers, live, chain := table, 0, [], map[], [table];
      AllEmpty(table.entries);
      SmallPowers();
      assert table.entries[0].key == Empty;
      assert Missing({}, table.entries) == {};
    }

    lemma CanProbe(entries: seq<Slot>, hash: int -> nat, live: map<int, Producer>)
      requires TableOk(entries, hash, live)
      ensures |entries| > 0 && HasEmpty(entries) && Probed(entries, hash)
    {
      hide IsPowerOfTwo, Probed, Unique, Agrees;
      NotEmpty(entries);
    }

    /** The slot of the id in a table, or -1. */
    method Find(table: Table, id: int) returns (slot: int)
      requires TableOk(table.entries, hash, live)
      ensures slot == -1 ==> !HasKey(table.entries, id)
      ensures slot == -1 || (0 <= slot < |table.entries| && table.entries[slot].key == Id(id))
    {
      hide TableOk, IsPowerOfTwo, Probed, Unique, Agrees, HasEmpty, At, HasKey;
      ghost var capacity := |table.entries|;
      CanProbe(table.entries, hash, live);
      ghost var start, d: nat := hash(id) % capacity, 0;
      ghost var free := FreeAhead(table.entries, start);
      var index := hash(id);
      StartAt(index, capacity);
      while true
        invariant d <= free && index % capacity == At(start, d, capacity)
        invariant forall e | 0 <= e < d :: table.entries[At(start, e, capacity)].key != Id(id)
        invariant forall e | 0 <= e < d :: table.entries[At(start, e, capacity)].key != Empty
        decreases free - d
      {
        index := index % |table.entries|;
        if table.entries[index].key == Id(id) {
          return index;
        }
        if table.entries[index].key == Empty {
          ProbeMisses(table.entries, hash, id, start, d);
          return -1;
        }
        MaskedStep(start, d, capacity);
        index := index + 1;
        d := d + 1;
      }
    }

    /** Gives the id the first slot on its way that holds no other id. */
    method Claim(table: Table, id: int, value: Producer) returns (slot: nat, reused: bool)
      requires TableOk(table.entries, hash, live)
      modifies table
      ensures slot < old(|table.entries|) && table.entries == old(table.entries)[slot := Slot(Id(id), value)]
      ensures !old(table.entries[slot].key.Id?) && (reused <==> old(table.entries[slot].key) == Tombstone)
      ensures FirstWithoutId(old(table.entries), hash(id), slot)
      ensures Probed(table.entries, hash)
    {
      hide IsPowerOfTwo, Probed, Unique, Agrees, HasEmpty, At;
      ghost var capacity := |table.entries|;
      NotEmpty(table.entries);
      ghost var start, d: nat := hash(id) % capacity, 0;
      ghost var free := FreeAhead(table.entries, start);
      slot := hash(id);
      StartAt(slot, capacity);
      while true
        invariant d <= free && slot % capacity == At(start, d, capacity)
        invariant table.entries == old(table.entries)
        invariant forall e | 0 <= e < d :: table.entries[At(start, e, capacity)].key.Id?
        decreases free - d
      {
        slot := slot % |table.entries|;
        if !table.entries[slot].key.Id? {
          reused := table.entries[slot].key == Tombstone;
          ProbedClaimed(table.entries, hash, id, start, d, value);
          table.entries := table.entries[slot := Slot(Id(id), value)];
          return;
        }
        MaskedStep(start, d, capacity);
        slot := slot + 1;
        d := d + 1;
      }
    }

    /** The current table in view of the others. */
    lemma MainFacts(n: nat)
      requires ValidFor(n)
      ensures chain != [] && chain[0] == main && TableOk(main.entries, hash, live)
      ensures Counted(main.entries, live.Keys, n)
      ensures forall i | 1 <= i < |chain| :: chain[i] != main
    {
    }

    /** Claims a slot of the current table; all ids are still found, and the new one too. */
    method ClaimInMain(id: int, value: Producer) returns (slot: nat, reused: bool)
      requires chain != [] && chain[0] == main && TableOk(main.entries, hash, live) && Sound(chain, hash, live)
      requires forall i | 1 <= i < |chain| :: chain[i] != main
      modifies main
      ensures slot < old(|main.entries|) && main.entries == old(main.entries)[slot := Slot(Id(id), value)]
      ensures !old(main.entries[slot].key.Id?) && (reused <==> old(main.entries[slot].key) == Tombstone)
      ensures Probed(main.entries, hash) && Found(chain, live.Keys + {id})
      ensures forall i | 1 <= i < |chain| :: TableOk(chain[i].entries, hash, live)
    {
      hide TableOk, HasKey, Probed;
      slot, reused := Claim(main, id, value);
      ghost var was, x := old(main.entries), Slot(Id(id), value);
      forall i | 1 <= i < |chain| ensures TableOk(chain[i].entries, hash, live) {
        assert old(TableOk(chain[i].entries, hash, live));
      }
      KeyClaimed(was, slot, x, id);
      assert HasKey(chain[0].entries, id);
      forall t | t in live ensures exists i :: 0 <= i < |chain| && HasKey(chain[i].entries, t) {
        var i :| 0 <= i < |chain| && old(HasKey(chain[i].entries, t));
        KeyClaimed(was, slot, x, t);
        assert HasKey(chain[i].entries, t);
      }
    }

    /** Puts the id, found in an older table, into the current one as well. */
    method Promote(id: int, value: Producer)
      requires Valid() && id in live && value == live[id] && !HasKey(main.entries, id)
      modifies main
      ensures Valid() && HasKey(main.entries, id)
    {
      hide Chained, Owned, TableOk, Counted, HasKey, Probed, Found;
      MainFacts(count);
      var slot, reused := ClaimInMain(id, value);
      ghost var was := old(main.entries);
      KeyClaimed(was, slot, Slot(Id(id), value), id);
      CountedPromoted(was, live.Keys, count, id, slot, value);
      OkClaimed(was, hash, live, live, id, slot, value);
      assert live.Keys + {id} == live.Keys;
    }

    /** Adds the id with its new producer to the current table, which has room for it. */
    method Add(id: int, value: Producer)
      requires count > 0 && ValidFor(count - 1) && count < |main.entries| / 2 && id !in live
      requires value in producers && !value.isExplicit && !value.inactive && value !in live.Values
      modifies this`live, this`count, main
      ensures Valid() && live == old(live)[id := value] && HasKey(main.entries, id)
    {
      hide Chained, Owned, TableOk, Counted, HasKey, Probed, Found;
      MainFacts(count - 1);
      NotLive(main.entries, hash, live, id);
      var slot, reused := ClaimInMain(id, value);
      ghost var was := old(main.entries);
      KeyClaimed(was, slot, Slot(Id(id), value), id);
      if reused {
        count := count - 1;
      }
      live := live[id := value];
      CountedAdded(was, old(live.Keys), old(count), id, slot, value);
      assert old(live.Keys) + {id} == live.Keys;
      OkClaimed(was, hash, old(live), live, id, slot, value);
      forall i | 1 <= i < |chain| ensures TableOk(chain[i].entries, hash, live) {
        OkAdded(chain[i].entries, hash, old(live), id, value);
      }
      OwnedAdded(producers, old(live), id, value);
    }

    /** Makes a larger, empty table the current one. */
    method Grow(newCapacity: nat)
      requires count > 0 && ValidFor(count - 1) && IsPowerOfTwo(newCapacity) && count < newCapacity / 2
      modifies this`main, this`chain
      ensures ValidFor(count - 1) && |main.entries| == newCapacity
      ensures fresh(main) && chain == [main] + old(chain)
    {
      hide Owned, TableOk, Counted, HasKey;
      MainFacts(count - 1);
      ghost var was := main.entries;
      var newTable := new Table(newCapacity, main);
      main := newTable;
      chain := [newTable] + chain;
      OkFresh(newTable.entries, hash, live);
      CountedFresh(was, newTable.entries, live.Keys, count - 1);
      forall i | 0 <= i < |chain| ensures TableOk(chain[i].entries, hash, live) {
        assert i > 0 ==> chain[i] == old(chain)[i - 1];
      }
      forall t | t in live ensures exists i :: 0 <= i < |chain| && HasKey(chain[i].entries, t) {
        var i :| 0 <= i < |old(chain)| && old(HasKey(chain[i].entries, t));
        assert chain[i + 1] == old(chain)[i];
        assert HasKey(chain[i + 1].entries, t);
      }
    }

    /** Reactivates the newest idle producer of the kind, or creates one. */
    method RecycleOrCreate(isExplicit: bool, createOk: bool) returns (p: Producer?)
      requires Owned(producers, live)
      modifies this`producers, producers
      ensures Owned(producers, live)
      ensures p == null <==> !createOk && old(NoneIdle(producers, isExplicit))
      ensures p != null ==> p in producers && p.isExplicit == isExplicit && !p.inactive && p !in live.Values
      ensures p != null ==> (p in old(producers) <==> !old(NoneIdle(producers, isExplicit)))
      ensures p != null && p in old(producers) ==> old(Idle(p, isExplicit))
      ensures producers == old(producers) || (p != null && fresh(p) && producers == [p] + old(producers))
      ensures forall q | q in old(producers) && q != p :: q.inactive == old(q.inactive)
    {
      for i := 0 to |producers|
        invariant forall j | 0 <= j < i :: !Idle(producers[j], isExplicit)
        invariant producers == old(producers) && Owned(producers, live)
        invariant forall q | q in old(producers) :: q.inactive == old(q.inactive)
      {
        p := producers[i];
        if p.inactive && p.isExplicit == isExplicit {
          assert forall t | t in live :: live[t] != p;
          p.inactive := false;
          return;
        }
      }
      if !createOk {
        return null;
      }
      p := new Producer(isExplicit);
      producers := [p] + producers;
    }

    /** Looks the id up in the current and all older tables, and enters it into the current
        one if it is only in an older. */
    method Lookup(id: int) returns (value: Producer?)
      requires Valid()
      modifies main
      ensures Valid()
      ensures value == (if id in live then live[id] else null) && (value == null ==> unchanged(main))
      ensures value != null ==> HasKey(main.entries, id)
    {
      hide Chained, Owned, TableOk, Counted, Found;
      MainFacts(count);
      var hashTable: Table? := main;
      ghost var i := 0;
      while hashTable != null
        invariant i <= |chain| && hashTable == if i < |chain| then chain[i] else null
        invariant forall j | 0 <= j < i :: !HasKey(chain[j].entries, id)
        invariant Valid() && unchanged(main)
        decreases |chain| - i
        modifies main
      {
        hide HasKey;
        var slot := Find(hashTable, id);
        if slot >= 0 {
          value := hashTable.entries[slot].value;
          HeldIsLive(hashTable.entries, hash, live, slot);
          if hashTable != main {
            assert i > 0;
            Promote(id, value);
          }
          return;
        }
        NextTable(i);
        hashTable := hashTable.prev;
        i := i + 1;
      }
      NowhereMeansDead(id);
      return null;
    }

    lemma NextTable(i: nat)
      requires Valid() && i < |chain|
      ensures chain[i].prev == if i + 1 < |chain| then chain[i + 1] else null
    {
    }

    lemma NowhereMeansDead(id: int)
      requires Valid() && forall j | 0 <= j < |chain| :: !HasKey(chain[j].entries, id)
      ensures id !in live
    {
    }

    /** The producer of the calling thread, added if it has none yet. Fails only if an
        allocation fails, and then leaves the map as it was. */
    method GetOrAdd(id: int, mallocOk: bool, createOk: bool) returns (producer: Producer?)
      requires Valid()
      modifies this`main, this`count, this`producers, this`live, this`chain, main, producers
      ensures Valid()
      ensures id in old(live) ==> live == old(live) && producer == live[id]
      ensures id !in old(live) && producer != null ==>
        && live == old(live)[id := producer] && producer !in old(live).Values
        && (producer in old(producers) <==> !old(NoneIdle(producers, false)))
        && (producer in old(producers) ==> old(Idle(producer, false)))
      ensures id !in old(live) && producer == null ==> live == old(live)
      ensures producer != null ==> HasKey(main.entries, id)
      ensures producer == null <==>
        (id !in old(live) && ((!mallocOk && old(count + 1 >= |main.entries| / 2))
                             || (!createOk && old(NoneIdle(producers, false)))))
    {
      hide ValidFor, Idle, NoneIdle;
      producer := Lookup(id);
      if producer == null {
        producer := Insert(id, mallocOk, createOk);
      }
    }

    /** The capacity doubled until the count is below half of it. */
    method EnoughFor(newCount: nat, capacity: nat) returns (newCapacity: nat)
      requires IsPowerOfTwo(capacity)
      ensures IsPowerOfTwo(newCapacity) && newCount < newCapacity / 2 && newCapacity >= 2 * capacity
    {
      newCapacity := 2 * capacity;
      Doubled(capacity);
      while newCount >= newCapacity / 2
        invariant IsPowerOfTwo(newCapacity) && newCapacity >= 2 * capacity
        decreases 2 * newCount + 2 - newCapacity
      {
        Doubled(newCapacity);
        newCapacity := 2 * newCapacity;
      }
    }

    /** Adds the thread, which has no producer yet. */
    method Insert(id: int, mallocOk: bool, createOk: bool) returns (producer: Producer?)
      requires Valid() && id !in live
      modifies this`main, this`count, this`producers, this`live, this`chain, main, producers
      ensures Valid()
      ensures producer != null ==>
        && live == old(live)[id := producer] && producer !in old(live).Values
        && (producer in old(producers) <==> !old(NoneIdle(producers, false)))
        && (producer in old(producers) ==> old(Idle(producer, false)))
      ensures producer == null ==> live == old(live)
      ensures producer != null ==> HasKey(main.entries, id)
      ensures producer == null <==>
        ((!mallocOk && old(count + 1 >= |main.entries| / 2)) || (!createOk && old(NoneIdle(producers, false))))
    {
      hide ValidFor, Owned, NoneIdle;
      Parts(count);
      var newCount := count + 1;
      count := newCount;
      Recounted(newCount - 1);
      if newCount >= |main.entries| / 2 {
        var newCapacity := EnoughFor(newCount, |main.entries|);
        if !mallocOk {
          count := count - 1;
          Recounted(count);
          return null;
        }
        Grow(newCapacity);
      }
      Parts(count - 1);
      // Nobody else is resizing, so the current table has room.
      assert newCount < |main.entries| / 2 + |main.entries| / 4;
      label Counted:
      var added := RecycleOrCreate(false, createOk);
      Restocked@Counted(newCount - 1);
      if added == null {
        label Refused:
        count := count - 1;
        Recounted@Refused(count);
        return null;
      }
      Add(id, added);
      producer := added;
    }

    lemma Parts(n: nat)
      requires ValidFor(n)
      ensures Owned(producers, live) && IsPowerOfTwo(|main.entries|) && chain != [] && chain[0] == main
    {
    }

    /** Changing the count alone. */
    twostate lemma Recounted(n: nat)
      requires old(ValidFor(n)) && unchanged(`main, `producers, `live, `chain)
      requires forall i | 0 <= i < |chain| :: unchanged(chain[i])
      requires forall q | q in producers :: unchanged(q)
      ensures ValidFor(n)
    {
    }

    /** Changing the producers and their list alone. */
    twostate lemma Restocked(n: nat)
      requires old(ValidFor(n)) && unchanged(`main, `live, `chain) && Owned(producers, live)
      requires forall i | 0 <= i < |chain| :: unchanged(chain[i])
      ensures ValidFor(n)
    {
    }

    /** Replaces the id in a table by a tombstone, if it is there. */
    method Bury(table: Table, id: int)
      requires TableOk(table.entries, hash, live)
      modifies table
      ensures TableOk(table.entries, hash, live) && Buried(old(table.entries), table.entries, id)
    {
      hide IsPowerOfTwo, Probed, Unique, Agrees, HasEmpty, At, HasKey, Buried;
      ghost var capacity := |table.entries|;
      NotEmpty(table.entries);
      ghost var start, d: nat := hash(id) % capacity, 0;
      ghost var free := FreeAhead(table.entries, start);
      var index := hash(id);
      StartAt(index, capacity);
      var more := true;
      while more
        invariant table.entries == old(table.entries)
        invariant d <= free && (more ==> index % capacity == At(start, d, capacity))
        invariant forall e | 0 <= e < d :: table.entries[At(start, e, capacity)].key != Id(id)
        invariant more ==> forall e | 0 <= e < d :: table.entries[At(start, e, capacity)].key != Empty
        invariant !more ==> !HasKey(table.entries, id)
        decreases free - d, more
      {
        index := index % |table.entries|;
        var probedKey := table.entries[index].key;
        if probedKey == Id(id) {
          OkBuried(table.entries, hash, live, index);
          table.entries := table.entries[index := Slot(Tombstone, table.entries[index].value)];
          return;
        }
        if probedKey == Empty {
          ProbeMisses(table.entries, hash, id, start, d);
          more := false;
        } else {
          MaskedStep(start, d, capacity);
          index := index + 1;
          d := d + 1;
        }
      }
      NothingBuried(table.entries, id);
    }

    /** Buries the id in table i of the chain; the other ids are still found. */
    method BuryAt(table: Table, id: int, ghost i: nat)
      requires i < |chain| && table == chain[i] && chain[0] == main && Chained(chain)
      requires forall j | 0 <= j < |chain| :: TableOk(chain[j].entries, hash, live)
      requires forall j | 0 <= j < i :: !HasKey(chain[j].entries, id)
      requires Found(chain, live.Keys - {id})
      requires Counted(main.entries, if i == 0 then live.Keys else live.Keys - {id}, count)
      modifies table
      ensures forall j | 0 <= j < |chain| :: TableOk(chain[j].entries, hash, live)
      ensures forall j | 0 <= j <= i :: !HasKey(chain[j].entries, id)
      ensures Found(chain, live.Keys - {id}) && Counted(main.entries, live.Keys - {id}, count)
    {
      hide Chained, TableOk, HasKey, Counted;
      DistinctFrom(chain, i);
      ghost var mainWas := main.entries;
      Bury(table, id);
      forall t | t in live.Keys - {id} ensures exists j :: 0 <= j < |chain| && HasKey(chain[j].entries, t) {
        var j :| 0 <= j < |chain| && old(HasKey(chain[j].entries, t));
        assert HasKey(chain[j].entries, t);
      }
      if i == 0 {
        CountedWithout(mainWas, main.entries, live.Keys, id, count);
      }
    }

    /** The calling thread ends: its id leaves every table and its producer can be reused. */
    method ThreadExited(id: int, producer: Producer)
      requires Valid() && id in live && producer == live[id]
      modifies this`live, chain, producer
      ensures Valid() && live == old(live) - {id} && producer.inactive
    {
      hide Chained, Owned, TableOk, Counted, HasKey;
      MainFacts(count);
      var hashTable: Table? := main;
      ghost var i := 0;
      while hashTable != null
        invariant i <= |chain| && hashTable == (if i < |chain| then chain[i] else null)
        invariant forall j | 0 <= j < |chain| :: TableOk(chain[j].entries, hash, live)
        invariant forall j | 0 <= j < i :: !HasKey(chain[j].entries, id)
        invariant Found(chain, live.Keys - {id})
        invariant Counted(main.entries, if i == 0 then live.Keys else live.Keys - {id}, count)
        decreases |chain| - i
        modifies chain
      {
        hide Found;
        NextInChain(chain, i);
        BuryAt(hashTable, id, i);
        hashTable := hashTable.prev;
        i := i + 1;
      }
      assert (live - {id}).Keys == live.Keys - {id};
      forall j | 0 <= j < |chain| ensures TableOk(chain[j].entries, hash, live - {id}) {
        OkWithout(chain[j].entries, hash, live, id);
      }
      OwnedWithout(producers, live, id);
      live := live - {id};
      Retire(producer);
    }

    /** A producer that no live thread has may become inactive. */
    method Retire(producer: Producer)
      requires Owned(producers, live) && producer !in live.Values
      modifies producer
      ensures Owned(producers, live) && producer.inactive
    {
      assert forall t | t in live :: live[t] in live.Values;
      producer.inactive := true;
    }
  }

  // ---- what one change of a table keeps ----

  /** The id is gone from a table, and nothing else. */
  ghost predicate Buried(was: seq<Slot>, now: seq<Slot>, id: int) {
    && |now| == |was| && Used(now) == Used(was) && !HasKey(now, id)
    && forall t | t != id :: HasKey(now, t) <==> HasKey(was, t)
  }

  lemma NothingBuried(entries: seq<Slot>, id: int)
    requires !HasKey(entries, id)
    ensures Buried(entries, entries, id)
  {
  }

  lemma OkBuried(entries: seq<Slot>, hash: int -> nat, live: map<int, Producer>, p: nat)
    requires TableOk(entries, hash, live) && p < |entries| && entries[p].key.Id?
    ensures var entries' := entries[p := Slot(Tombstone, entries[p].value)];
      TableOk(entries', hash, live) && Buried(entries, entries', entries[p].key.t)
  {
    hide IsPowerOfTwo, Probed;
    var x, id := Slot(Tombstone, entries[p].value), entries[p].key.t;
    var entries' := entries[p := x];
    ProbedBuried(entries, hash, p);
    UsedUpdate(entries, p, x);
    var s :| 0 <= s < |entries| && entries[s].key == Empty;
    assert entries'[s].key == Empty;
    forall t | t != id ensures HasKey(entries', t) <==> HasKey(entries, t) {
      if s :| 0 <= s < |entries| && entries[s].key == Id(t) {
        assert entries'[s].key == Id(t);
      }
    }
  }

  lemma OkWithout(entries: seq<Slot>, hash: int -> nat, live: map<int, Producer>, id: int)
    requires TableOk(entries, hash, live) && !HasKey(entries, id)
    ensures TableOk(entries, hash, live - {id})
  {
    hide IsPowerOfTwo, Probed;
  }

  lemma CountedWithout(was: seq<Slot>, now: seq<Slot>, ids: set<int>, id: int, count: nat)
    requires Counted(was, ids, count) && Buried(was, now, id)
    ensures Counted(now, ids - {id}, count)
  {
    assert Missing(ids - {id}, now) <= Missing(ids, was);
    SubsetSize(Missing(ids - {id}, now), Missing(ids, was));
  }

  lemma OwnedWithout(producers: seq<Producer>, live: map<int, Producer>, id: int)
    requires Owned(producers, live) && id in live
    ensures Owned(producers, live - {id}) && live[id] !in (live - {id}).Values
  {
    var rest := live - {id};
    assert forall t | t in rest :: rest[t] == live[t] != live[id];
  }

  lemma DistinctFrom(chain: seq<Table>, i: nat)
    requires Chained(chain) && i < |chain|
    ensures forall j | 0 <= j < |chain| && j != i :: chain[j] != chain[i]
  {
  }

  lemma NextInChain(chain: seq<Table>, i: nat)
    requires Chained(chain) && i < |chain|
    ensures chain[i].prev == if i + 1 < |chain| then chain[i + 1] else null
  {
  }

  lemma HeldIsLive(entries: seq<Slot>, hash: int -> nat, live: map<int, Producer>, s: nat)
    requires TableOk(entries, hash, live) && s < |entries| && entries[s].key.Id?
    ensures entries[s].key.t in live && entries[s].value == live[entries[s].key.t]
    ensures HasKey(entries, entries[s].key.t)
  {
  }

  /** A slot without an id receives one. */
  lemma KeyClaimed(entries: seq<Slot>, p: nat, x: Slot, t: int)
    requires p < |entries| && !entries[p].key.Id? && x.key.Id?
    ensures HasKey(entries[p := x], t) <==> HasKey(entries, t) || x.key.t == t
  {
    var entries' := entries[p := x];
    assert entries'[p] == x;
    if s :| 0 <= s < |entries| && entries[s].key == Id(t) {
      assert entries'[s].key == Id(t);
    }
  }

  lemma NotLive(entries: seq<Slot>, hash: int -> nat, live: map<int, Producer>, t: int)
    requires TableOk(entries, hash, live) && t !in live
    ensures !HasKey(entries, t)
  {
  }

  lemma OkClaimed(entries: seq<Slot>, hash: int -> nat, live: map<int, Producer>, live': map<int, Producer>,
                  t: int, p: nat, value: Producer)
    requires TableOk(entries, hash, live) && !HasKey(entries, t) && p < |entries| && !entries[p].key.Id?
    requires live' == live[t := value] && Used(entries[p := Slot(Id(t), value)]) < |entries|
    requires Probed(entries[p := Slot(Id(t), value)], hash)
    ensures TableOk(entries[p := Slot(Id(t), value)], hash, live')
  {
    hide IsPowerOfTwo, Probed;
    RoomMeansEmpty(entries[p := Slot(Id(t), value)]);
  }

  lemma OkAdded(entries: seq<Slot>, hash: int -> nat, live: map<int, Producer>, t: int, value: Producer)
    requires TableOk(entries, hash, live) && t !in live
    ensures TableOk(entries, hash, live[t := value])
  {
    hide IsPowerOfTwo, Probed;
  }

  lemma OkFresh(entries: seq<Slot>, hash: int -> nat, live: map<int, Producer>)
    requires IsPowerOfTwo(|entries|) && forall s | 0 <= s < |entries| :: entries[s].key == Empty
    ensures TableOk(entries, hash, live)
  {
    assert entries[0].key == Empty;
  }

  /** A promoted id was counted when it was added. */
  lemma CountedPromoted(entries: seq<Slot>, ids: set<int>, count: nat, t: int, p: nat, value: Producer)
    requires Counted(entries, ids, count) && t in ids && !HasKey(entries, t)
    requires p < |entries| && !entries[p].key.Id?
    ensures Counted(entries[p := Slot(Id(t), value)], ids, count)
    ensures Used(entries[p := Slot(Id(t), value)]) < |entries|
  {
    var entries' := entries[p := Slot(Id(t), value)];
    UsedUpdate(entries, p, Slot(Id(t), value));
    forall u ensures HasKey(entries', u) <==> HasKey(entries, u) || u == t {
      KeyClaimed(entries, p, Slot(Id(t), value), u);
    }
    assert t in Missing(ids, entries);
    assert Missing(ids, entries') == Missing(ids, entries) - {t};
  }

  /** A new id uses a free slot, which is counted, or a tombstone, which already was. */
  lemma CountedAdded(entries: seq<Slot>, ids: set<int>, count: nat, t: int, p: nat, value: Producer)
    requires count > 0 && Counted(entries, ids, count - 1) && count < |entries| / 2
    requires t !in ids && p < |entries| && !entries[p].key.Id?
    ensures Counted(entries[p := Slot(Id(t), value)], ids + {t},
                    if entries[p].key == Tombstone then count - 1 else count)
    ensures Used(entries[p := Slot(Id(t), value)]) < |entries|
  {
    var entries' := entries[p := Slot(Id(t), value)];
    UsedUpdate(entries, p, Slot(Id(t), value));
    forall u ensures HasKey(entries', u) <==> HasKey(entries, u) || u == t {
      KeyClaimed(entries, p, Slot(Id(t), value), u);
    }
    assert Missing(ids + {t}, entries') <= Missing(ids, entries);
    SubsetSize(Missing(ids + {t}, entries'), Missing(ids, entries));
  }

  /** A new table reserves room for all live ids: they are no more than were counted. */
  lemma CountedFresh(entries: seq<Slot>, blank: seq<Slot>, ids: set<int>, count: nat)
    requires Counted(entries, ids, count) && count < |blank| / 2
    requires forall s | 0 <= s < |blank| :: blank[s].key == Empty
    ensures Counted(blank, ids, count)
  {
    AllEmpty(blank);
    IdsCounted(ids, entries);
    assert Missing(ids, blank) == ids;
  }

  lemma OwnedAdded(producers: seq<Producer>, live: map<int, Producer>, t: int, value: Producer)
    requires Owned(producers, live) && value in producers && !value.isExplicit && !value.inactive
    requires value !in live.Values && t !in live
    ensures Owned(producers, live[t := value])
  {
    assert forall u | u in live :: live[u] in live.Values;
  }

  lemma NotEmpty(entries: seq<Slot>)
    requires HasEmpty(entries)
    ensures |entries| > 0
  {
  }

  lemma StartAt(h: nat, capacity: nat)
    requires capacity > 0
    ensures At(h % capacity, 0, capacity) == h % capacity
  {
  }
}
