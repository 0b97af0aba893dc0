/** The producer that enqueues with a token: a ring of blocks with a circular, growing
    block index, refined to a first-in first-out sequence. One call runs at a time. */
module ExplicitProducers {

  import opened Basics
  import opened Blocks
  import opened Circular

  const EXPLICIT_INITIAL_INDEX_SIZE: nat := 32

  // ---- cells ----

  /** A block whose first cell has index base: exactly the stored elements are constructed,
      and a cell is flagged exactly when it is dequeued. */
  ghost predicate Holds<T>(elements: seq<Option<T>>, flags: seq<bool>, base: nat, head: nat, contents: seq<T>) {
    && |elements| == |flags| == BLOCK_SIZE
    && (forall k | 0 <= k < BLOCK_SIZE :: elements[k] == Cell(base + k, head, contents))
    && (forall k | 0 <= k < BLOCK_SIZE :: flags[k] <==> base + BLOCK_SIZE - 1 - k < head)
  }

  lemma HoldsPushed<T>(elements: seq<Option<T>>, flags: seq<bool>, base: nat, head: nat, contents: seq<T>, x: T)
    requires Holds(elements, flags, base, head, contents)
    ensures var tail := head + |contents|;
      if base <= tail < base + BLOCK_SIZE
      then Holds(elements[tail - base := Some(x)], flags, base, head, contents + [x])
      else Holds(elements, flags, base, head, contents + [x])
  {
  }

  lemma HoldsPopped<T>(elements: seq<Option<T>>, flags: seq<bool>, base: nat, head: nat, contents: seq<T>)
    requires Holds(elements, flags, base, head, contents) && contents != []
    ensures
      if base <= head < base + BLOCK_SIZE then
        Holds(elements[head - base := None], flags[BLOCK_SIZE - 1 - (head - base) := true],
              base, head + 1, contents[1..])
      else Holds(elements, flags, base, head + 1, contents[1..])
  {
  }

  /** The first n elements, which lie in this block from cell k on, are removed. */
  lemma HoldsDrained<T>(elements: seq<Option<T>>, flags: seq<bool>, base: nat, head: nat, contents: seq<T>, k: nat,
                        n: nat)
    requires Holds(elements, flags, base, head, contents) && n <= |contents| && k + n <= BLOCK_SIZE
    requires n > 0 ==> head == base + k
    ensures Holds(Filled(elements, k, n, None), Filled(flags, BLOCK_SIZE - k - n, n, true),
                  base, head + n, contents[n..])
    ensures forall j | 0 <= j < n :: elements[k + j] == Some(contents[j])
    ensures forall j | BLOCK_SIZE - k - n <= j < BLOCK_SIZE - k :: !flags[j]
  {
  }

  /** A block that holds none of the first n elements does not notice their removal. */
  lemma HoldsElsewhere<T>(elements: seq<Option<T>>, flags: seq<bool>, base: nat, head: nat, contents: seq<T>, n: nat)
    requires Holds(elements, flags, base, head, contents) && n <= |contents|
    requires head + n <= base || base + BLOCK_SIZE <= head || n == 0
    ensures Holds(elements, flags, base, head + n, contents[n..])
  {
  }

  lemma EmptyIsPassed<T>(elements: seq<Option<T>>, flags: seq<bool>, base: nat, head: nat, contents: seq<T>)
    requires Holds(elements, flags, base, head, contents)
    ensures (forall i | 0 <= i < BLOCK_SIZE :: flags[i]) <==> base + BLOCK_SIZE <= head
    ensures base + BLOCK_SIZE <= head ==> forall k | 0 <= k < BLOCK_SIZE :: elements[k] == None
  {
    assert base + BLOCK_SIZE > head ==> !flags[0];
  }

  // ---- the circular block index ----

  datatype Entry<T> = Entry(base: nat, block: Block?<T>)

  /** The last |ring| entries before slot front enumerate the ring, with consecutive bases. */
  ghost predicate Window<T>(entries: seq<Entry<T>>, front: nat, ring: seq<Block<T>>, firstBase: nat) {
    && front < |entries| && |ring| <= |entries|
    && (forall k | 1 <= k <= |ring| ::
          entries[Back(front, k, |entries|)] == Entry(Wrap(firstBase + BLOCK_SIZE * (|ring| - k)), ring[|ring| - k]))
  }

  lemma WindowAt<T>(entries: seq<Entry<T>>, front: nat, ring: seq<Block<T>>, firstBase: nat, k: nat)
    requires Window(entries, front, ring, firstBase) && 1 <= k <= |ring|
    ensures front < |entries| && k <= |entries| && Back(front, k, |entries|) < |entries|
    ensures entries[Back(front, k, |entries|)] == Entry(Wrap(firstBase + BLOCK_SIZE * (|ring| - k)), ring[|ring| - k])
  {
  }

  /** A ring laid out from slot 0 on. */
  lemma WindowFresh<T>(entries: seq<Entry<T>>, ring: seq<Block<T>>, firstBase: nat)
    requires |ring| < |entries|
    requires forall m | 0 <= m < |ring| :: entries[m] == Entry(Wrap(firstBase + BLOCK_SIZE * m), ring[m])
    ensures Window(entries, |ring|, ring, firstBase)
    ensures ring != [] ==> Back(|ring|, 1, |entries|) == |ring| - 1
  {
  }

  lemma WindowAdded<T>(entries: seq<Entry<T>>, front: nat, ring: seq<Block<T>>, firstBase: nat, block: Block<T>)
    requires Window(entries, front, ring, firstBase) && |ring| < |entries|
    ensures Window(entries[front := Entry(Wrap(firstBase + BLOCK_SIZE * |ring|), block)],
                   (front + 1) % |entries|, ring + [block], firstBase)
  {
    var entries', ring' := entries[front := Entry(Wrap(firstBase + BLOCK_SIZE * |ring|), block)], ring + [block];
    NextBack(front, 1, |entries|);
    var next := (front + 1) % |entries|;
    forall k | 1 <= k <= |ring'|
      ensures entries'[Back(next, k, |entries|)]
           == Entry(Wrap(firstBase + BLOCK_SIZE * (|ring'| - k)), ring'[|ring'| - k])
    {
      NextBack(front, k, |entries|);
    }
  }

  lemma WindowSlid<T>(entries: seq<Entry<T>>, front: nat, ring: seq<Block<T>>, firstBase: nat, block: Block<T>)
    requires Window(entries, front, ring, firstBase) && ring != []
    ensures Window(entries[front := Entry(Wrap(firstBase + BLOCK_SIZE * |ring|), block)],
                   (front + 1) % |entries|, ring[1..] + [block], firstBase + BLOCK_SIZE)
  {
    var entries', ring' := entries[front := Entry(Wrap(firstBase + BLOCK_SIZE * |ring|), block)], ring[1..] + [block];
    NextBack(front, 1, |entries|);
    var next := (front + 1) % |entries|;
    forall k | 1 <= k <= |ring'|
      ensures entries'[Back(next, k, |entries|)]
           == Entry(Wrap(firstBase + BLOCK_SIZE + BLOCK_SIZE * (|ring'| - k)), ring'[|ring'| - k])
    {
      NextBack(front, k, |entries|);
    }
  }

  /** The slot a consumer computes from an index and the entry in the published slot. */
  function LookupSlot(index: nat, published: nat, headBase: nat, size: nat): (slot: nat)
    requires size > 0
    ensures slot < size
  {
    var blockBaseIndex := index - index % BLOCK_SIZE;
    var offset := Quotient(Signed(Wrap(blockBaseIndex - headBase)), BLOCK_SIZE);
    (published + offset) % size
  }

  /** It is the slot of the block that holds the index, also when the stored indices have
      wrapped around. */
  lemma LookupFinds<T>(entries: seq<Entry<T>>, front: nat, ring: seq<Block<T>>, firstBase: nat, index: nat)
    requires Window(entries, front, ring, firstBase) && BLOCK_SIZE * |ring| <= HALF && firstBase % BLOCK_SIZE == 0
    requires firstBase <= index < firstBase + BLOCK_SIZE * |ring|
    ensures var published := Back(front, 1, |entries|); var i := (index - firstBase) / BLOCK_SIZE;
      && 0 <= i < |ring|
      && LookupSlot(Wrap(index), published, entries[published].base, |entries|) == Back(front, |ring| - i, |entries|)
      && entries[Back(front, |ring| - i, |entries|)].block == ring[i]
  {
    hide Wrap, Quotient, Signed;
    var n, i := |ring|, (index - firstBase) / BLOCK_SIZE;
    var published := Back(front, 1, |entries|);
    BlockOffset(index, firstBase, n - 1);
    MaskedBack(published, n - 1 - i, |entries|);
    assert Back(published, n - 1 - i, |entries|) == Back(front, n - i, |entries|);
  }

  lemma AcrossBlocks(i: nat, n: nat, base: nat)
    requires base <= i && base % BLOCK_SIZE == 0 && i % BLOCK_SIZE + n == BLOCK_SIZE
    ensures (i + n - base) / BLOCK_SIZE == (i - base) / BLOCK_SIZE + 1
  {
    var q := i / BLOCK_SIZE - base / BLOCK_SIZE;
    assert i - base == BLOCK_SIZE * q + i % BLOCK_SIZE && i + n - base == BLOCK_SIZE * (q + 1);
  }

  // ---- the ring ----

  /** Following next from the last block goes around the ring from its first. */
  ghost predicate Circle<T>(ring: seq<Block<T>>)
    reads ring
  {
    && Distinct(ring)
    && (forall i | 0 <= i < |ring| - 1 :: ring[i].next == ring[i + 1])
    && (ring != [] ==> ring[|ring| - 1].next == ring[0])
  }

  ghost predicate Stored<T>(ring: seq<Block<T>>, firstBase: nat, head: nat, contents: seq<T>)
    reads ring
  {
    forall i | 0 <= i < |ring| ::
      Holds(ring[i].elements, ring[i].emptyFlags, firstBase + BLOCK_SIZE * i, head, contents)
  }

  twostate lemma CircleKept<T>(ring: seq<Block<T>>)
    requires old(Circle(ring)) && forall i | 0 <= i < |ring| :: ring[i].next == old(ring[i].next)
    ensures Circle(ring)
  {
  }

  lemma StoredIsShaped<T>(ring: seq<Block<T>>, firstBase: nat, head: nat, contents: seq<T>, i: nat)
    requires Stored(ring, firstBase, head, contents) && i < |ring|
    ensures ring[i].Shaped()
  {
  }

  lemma Unequal<T>(ring: seq<Block<T>>, i: nat)
    requires Circle(ring) && i < |ring|
    ensures forall j | 0 <= j < |ring| && j != i :: ring[j] != ring[i]
  {
  }

  lemma CircleRotated<T>(ring: seq<Block<T>>)
    requires Circle(ring) && ring != []
    ensures Circle(ring[1..] + [ring[0]])
  {
  }

  /** The oldest block, vacated and reset, becomes the newest. */
  lemma StoredRotated<T>(ring: seq<Block<T>>, firstBase: nat, head: nat, contents: seq<T>)
    requires ring != [] && head + |contents| <= firstBase + BLOCK_SIZE * |ring|
    requires ring[0].Vacant() && forall i | 0 <= i < BLOCK_SIZE :: !ring[0].emptyFlags[i]
    requires forall i | 1 <= i < |ring| ::
      Holds(ring[i].elements, ring[i].emptyFlags, firstBase + BLOCK_SIZE * i, head, contents)
    ensures Stored(ring[1..] + [ring[0]], firstBase + BLOCK_SIZE, head, contents)
  {
    hide Holds;
    var ring' := ring[1..] + [ring[0]];
    HoldsNothing(ring[0].elements, ring[0].emptyFlags, firstBase + BLOCK_SIZE * |ring|, head, contents);
    forall i | 0 <= i < |ring'|
      ensures Holds(ring'[i].elements, ring'[i].emptyFlags, firstBase + BLOCK_SIZE + BLOCK_SIZE * i, head, contents)
    {
      assert i < |ring'| - 1 ==> ring'[i] == ring[i + 1];
    }
  }

  /** A vacant block without flags holds its share of anything that ends before it. */
  lemma HoldsNothing<T>(elements: seq<Option<T>>, flags: seq<bool>, base: nat, head: nat, contents: seq<T>)
    requires |elements| == |flags| == BLOCK_SIZE && head + |contents| <= base
    requires forall i | 0 <= i < BLOCK_SIZE :: elements[i] == None && !flags[i]
    ensures Holds(elements, flags, base, head, contents)
  {
  }

  /** A block is inserted between the last block and the first. */
  lemma CircleInserted<T>(ring: seq<Block<T>>, block: Block<T>)
    requires Distinct(ring) && block !in ring
    requires block.next == if ring == [] then block else ring[0]
    requires ring != [] ==> ring[|ring| - 1].next == block
    requires forall i | 0 <= i < |ring| - 1 :: ring[i].next == ring[i + 1]
    ensures Circle(ring + [block])
  {
  }

  lemma StoredAdded<T>(ring: seq<Block<T>>, block: Block<T>, firstBase: nat, head: nat, contents: seq<T>)
    requires Stored(ring, firstBase, head, contents) && head + |contents| <= firstBase + BLOCK_SIZE * |ring|
    requires block.Vacant() && forall i | 0 <= i < BLOCK_SIZE :: !block.emptyFlags[i]
    ensures Stored(ring + [block], firstBase, head, contents)
  {
    hide Holds;
    HoldsNothing(block.elements, block.emptyFlags, firstBase + BLOCK_SIZE * |ring|, head, contents);
  }

  class ExplicitProducer<T> {
    /** The size limit, rounded up to whole blocks; SIZE_MAX for none. */
    const maxSubqueueSize: nat

    var tailIndex: nat
    var headIndex: nat
    var dequeueOptimisticCount: nat
    var dequeueOvercommit: nat
    var tailBlock: Block?<T>

    /** Whether a block index is allocated, its entries and the slot it publishes. */
    var hasIndex: bool
    var entries: seq<Entry<T>>
    var publishedFront: nat
    var slotsUsed: nat
    var indexSize: nat
    var indexFront: nat

    /** The counters behind the stored indices, the stored elements, and the blocks from
        the oldest to the newest. */
    ghost var head: nat
    ghost var contents: seq<T>
    ghost var ring: seq<Block<T>>
    ghost var firstBase: nat

    ghost function Tail(): nat
      reads this
    {
      head + |contents|
    }

    ghost predicate Counters()
      reads this
    {
      Counts(tailIndex, headIndex, dequeueOptimisticCount, dequeueOvercommit, head, |contents|)
    }

    /** Where the elements lie in the ring, and the bounds on its size. */
    ghost predicate Placed()
      reads this
    {
      && firstBase % BLOCK_SIZE == 0 && firstBase <= head
      && (ring == [] ==> Tail() == firstBase == 0)
      && (ring != [] ==> BLOCK_SIZE * (|ring| - 1) <= Tail() - firstBase <= BLOCK_SIZE * |ring|)
      && BLOCK_SIZE * |ring| <= HALF
      && (maxSubqueueSize != SIZE_MAX ==> maxSubqueueSize % BLOCK_SIZE == 0 && BLOCK_SIZE * |ring| <= maxSubqueueSize)
    }

    ghost predicate Indexed()
      reads this
    {
      && IsPowerOfTwo(indexSize) && slotsUsed == |ring|
      && (hasIndex ==> |entries| == indexSize && Window(entries, indexFront, ring, firstBase))
      && (!hasIndex ==> ring == [])
      && (ring != [] ==> publishedFront == Back(indexFront, 1, indexSize))
    }

    ghost predicate Linked()
      reads this, ring
    {
      && Circle(ring) && Stored(ring, firstBase, head, contents)
      && tailBlock == if ring == [] then null else ring[|ring| - 1]
    }

    ghost predicate Valid()
      reads this, ring
    {
      && Counters() && Placed() && Indexed() && Linked()
      && (ring != [] && Tail() % BLOCK_SIZE == 0 ==> Tail() - firstBase == BLOCK_SIZE * |ring|)
    }

    ghost function Contents(): seq<T>
      reads this
    {
      contents
    }

    /** The oldest block is completely dequeued and can be used again. */
    ghost predicate CanReuse()
      reads this
    {
      ring != [] && firstBase + BLOCK_SIZE <= head
    }

    /** No further block may be added: the indices would no longer be comparable, or the
        size limit would be exceeded. */
    ghost predicate Full()
      reads this
    {
      || |contents| + BLOCK_SIZE >= HALF
      || (maxSubqueueSize != SIZE_MAX && |contents| + BLOCK_SIZE > maxSubqueueSize)
    }

    /** When an element that starts a block finds room for it. */
    ghost predicate HasRoom(canAlloc: bool, mallocOk: bool, available: Block?<T>)
      reads this
    {
      || CanReuse()
      || (!Full() && ((hasIndex && slotsUsed < indexSize) || (canAlloc && mallocOk)) && available != null)
    }

    // ---- the block index ----

    /** A larger entry array with the entries in use laid out from slot 0 on. */
    method CopyEntries(newSize: nat) returns (newEntries: seq<Entry<T>>, copied: nat)
      requires slotsUsed == |ring| < newSize
      requires ring != [] ==> |entries| == indexSize && Window(entries, indexFront, ring, firstBase)
      ensures |newEntries| == newSize && copied == |ring|
      ensures forall m | 0 <= m < |ring| :: newEntries[m] == Entry(Wrap(firstBase + BLOCK_SIZE * m), ring[m])
    {
      hide Back, Wrap, Window;
      newEntries := seq(newSize, _ => Entry(0, null));
      var j := 0;
      if slotsUsed != 0 {
        WindowAt(entries, indexFront, ring, firstBase, |ring|);
        MaskedBack(indexFront, slotsUsed, indexSize);
        var i := (indexFront - slotsUsed) % indexSize;
        var more := true;
        while more
          invariant 0 <= j <= slotsUsed && |newEntries| == newSize
          invariant i == Back(indexFront, slotsUsed - j, indexSize)
          invariant more <==> j < slotsUsed
          invariant forall m | 0 <= m < j :: newEntries[m] == Entry(Wrap(firstBase + BLOCK_SIZE * m), ring[m])
          decreases slotsUsed - j
        {
          WindowAt(entries, indexFront, ring, firstBase, slotsUsed - j);
          WalkNext(indexFront, slotsUsed - j, indexSize);
          newEntries := newEntries[j := entries[i]];
          j := j + 1;
          i := (i + 1) % indexSize;
          more := i != indexFront;
        }
      }
      copied := j;
    }

    /** Doubles the block index, keeping the entries in use. */
    method NewBlockIndex(mallocOk: bool) returns (grown: bool)
      requires IsPowerOfTwo(indexSize) && slotsUsed == |ring| < HALF && (hasIndex ==> |entries| == indexSize)
      requires if hasIndex then Window(entries, indexFront, ring, firstBase) else ring == []
      modifies this`hasIndex, this`entries, this`publishedFront, this`indexSize, this`indexFront
      ensures grown == mallocOk && IsPowerOfTwo(indexSize)
      ensures grown ==> hasIndex && indexSize == 2 * old(indexSize) == |entries|
      ensures grown ==> Window(entries, indexFront, ring, firstBase)
      ensures grown && ring != [] ==> publishedFront == Back(indexFront, 1, indexSize)
      ensures !grown ==> unchanged(this)
    {
      if !mallocOk {
        return false;
      }
      hide Back, IsPowerOfTwo;
      Doubled(indexSize);
      var newEntries, j := CopyEntries(2 * indexSize);
      indexSize := 2 * indexSize;
      publishedFront := Wrap(slotsUsed - 1);
      indexFront := j;
      entries := newEntries;
      hasIndex := true;
      WindowFresh(newEntries, ring, firstBase);
      WrapSmall(slotsUsed - 1);
      return true;
    }

    // ---- enqueueing ----

    /** Enters the block that is now the tail into the index. */
    method Register(currentTailIndex: nat)
      requires hasIndex && indexFront < indexSize == |entries|
      modifies this`entries, this`publishedFront, this`indexFront
      ensures entries == old(entries)[old(indexFront) := Entry(currentTailIndex, tailBlock)]
      ensures publishedFront == old(indexFront) && indexFront == (old(indexFront) + 1) % indexSize
    {
      entries := entries[indexFront := Entry(currentTailIndex, tailBlock)];
      publishedFront := indexFront;
      indexFront := (indexFront + 1) % indexSize;
    }

    /** The cell of the tail index is a free cell of the last block. */
    lemma TailCell()
      requires Counters() && Placed() && Linked()
      requires ring != [] && Tail() - firstBase < BLOCK_SIZE * |ring|
      ensures tailBlock == ring[|ring| - 1] && tailBlock.Shaped() && Distinct(ring) && Circle(ring)
      ensures tailIndex % BLOCK_SIZE == Tail() - firstBase - BLOCK_SIZE * (|ring| - 1)
      ensures Stored(ring, firstBase, head, contents)
      ensures forall i | 0 <= i < |ring| - 1 :: ring[i] != tailBlock
    {
      hide Counters, Indexed;
      StoredIsShaped(ring, firstBase, head, contents, |ring| - 1);
      CellOfTail();
    }

    lemma CellOfTail()
      requires Counters() && Placed() && ring != [] && Tail() - firstBase < BLOCK_SIZE * |ring|
      requires Tail() - firstBase >= BLOCK_SIZE * (|ring| - 1)
      ensures tailIndex % BLOCK_SIZE == Tail() - firstBase - BLOCK_SIZE * (|ring| - 1)
    {
      hide Indexed, Wrap;
      CellOfWord(Tail());
      RemainderFrom(Tail(), firstBase, |ring| - 1);
    }

    /** Puts the element into the cell of the tail index. */
    method Construct(element: T)
      requires Counters() && Placed() && Indexed() && Linked()
      requires ring != [] && Tail() - firstBase < BLOCK_SIZE * |ring|
      modifies this`tailIndex, this`contents, ring
      ensures Valid() && contents == old(contents) + [element]
    {
      hide Linked, Circle, Distinct, Counters, Placed, Indexed, Holds, Valid;
      TailCell();
      var cell := tailIndex % BLOCK_SIZE;
      tailBlock.elements := tailBlock.elements[cell := Some(element)];
      forall i | 0 <= i < |ring|
        ensures Holds(ring[i].elements, ring[i].emptyFlags, firstBase + BLOCK_SIZE * i, head, contents + [element])
      {
        HoldsPushed(old(ring[i].elements), ring[i].emptyFlags, firstBase + BLOCK_SIZE * i, head, contents, element);
      }
      assert Stored(ring, firstBase, head, contents + [element]);
      CircleKept(ring);
      tailIndex := Wrap(tailIndex + 1);
      contents := contents + [element];
      Pushed(element);
    }

    twostate lemma Pushed(element: T)
      requires old(Counters() && Placed() && Indexed() && Linked())
      requires ring == old(ring) && ring != [] && old(Tail() - firstBase < BLOCK_SIZE * |ring|)
      requires contents == old(contents) + [element] && tailIndex == Wrap(old(tailIndex) + 1)
      requires unchanged(`headIndex, `dequeueOptimisticCount, `dequeueOvercommit, `tailBlock, `hasIndex, `entries)
      requires unchanged(`publishedFront, `slotsUsed, `indexSize, `indexFront, `head, `firstBase)
      requires Circle(ring) && Stored(ring, firstBase, head, contents)
      ensures Valid()
    {
      hide Window, Circle, Stored, IsPowerOfTwo, Counts, Back;
      CountsPushed(old(tailIndex), headIndex, dequeueOptimisticCount, dequeueOvercommit, head, old(|contents|), 1);
      if Tail() % BLOCK_SIZE == 0 {
        Boundary(Tail(), firstBase, |ring|);
      }
    }

    /** A new last block is in place and the tail index is its first cell. */
    ghost predicate Started()
      reads this, ring
    {
      && Counters() && Placed() && Indexed() && Linked()
      && ring != [] && Tail() - firstBase == BLOCK_SIZE * (|ring| - 1)
    }

    /** After the last block comes the oldest, and it is empty exactly if it can be reused. */
    lemma NextIsOldest()
      requires Valid() && ring != []
      ensures tailBlock == ring[|ring| - 1] && tailBlock.next == ring[0] && ring[0].Shaped() && hasIndex
      ensures (forall i | 0 <= i < BLOCK_SIZE :: ring[0].emptyFlags[i]) <==> CanReuse()
      ensures CanReuse() ==> ring[0].Vacant()
      ensures indexFront < indexSize == |entries| && Window(entries, indexFront, ring, firstBase)
    {
      EmptyIsPassed(ring[0].elements, ring[0].emptyFlags, firstBase, head, contents);
    }

    lemma RingFacts()
      requires Valid()
      ensures Circle(ring) && Stored(ring, firstBase, head, contents) && Tail() <= firstBase + BLOCK_SIZE * |ring|
      ensures forall i | 1 <= i < |ring| :: ring[i] != ring[0]
      ensures forall i | 0 <= i < |ring| - 1 :: ring[i] != ring[|ring| - 1] && ring[i].next == ring[i + 1]
      ensures Distinct(ring)
    {
    }

    /** Makes the empty block ahead of the tail the tail block. */
    method TakeNext()
      requires Valid() && CanReuse()
      modifies this`tailBlock, ring
      ensures tailBlock == ring[0] && Circle(ring[1..] + [ring[0]])
      ensures Stored(ring[1..] + [ring[0]], firstBase + BLOCK_SIZE, head, contents)
    {
      hide Window, Circle, Holds, Valid, Counters, Placed, Indexed, Linked;
      NextIsOldest();
      RingFacts();
      tailBlock := tailBlock.next;
      tailBlock.ResetEmpty();
      forall i | 1 <= i < |ring|
        ensures Holds(ring[i].elements, ring[i].emptyFlags, firstBase + BLOCK_SIZE * i, head, contents)
      {
        assert old(Holds(ring[i].elements, ring[i].emptyFlags, firstBase + BLOCK_SIZE * i, head, contents));
      }
      StoredRotated(ring, firstBase, head, contents);
      CircleKept(ring);
      CircleRotated(ring);
    }

    /** Makes the oldest block the newest. */
    method ReuseBlock()
      requires Valid() && Tail() % BLOCK_SIZE == 0 && CanReuse()
      modifies this`tailBlock, this`entries, this`publishedFront, this`indexFront, this`ring, this`firstBase, ring
      ensures Started()
      ensures ring == old(ring[1..] + [ring[0]]) && firstBase == old(firstBase) + BLOCK_SIZE
    {
      hide Window, Circle, Holds, Stored, Valid, Counters, Placed, Indexed, Linked, Started;
      NextIsOldest();
      NextBase();
      WindowSlid(entries, indexFront, ring, firstBase, ring[0]);
      TakeNext();
      Register(tailIndex);
      ring := ring[1..] + [ring[0]];
      firstBase := firstBase + BLOCK_SIZE;
      Reused();
    }

    twostate lemma Reused()
      requires old(Valid() && Tail() % BLOCK_SIZE == 0 && CanReuse())
      requires ring == old(ring[1..] + [ring[0]]) && firstBase == old(firstBase) + BLOCK_SIZE
      requires unchanged(`tailIndex, `headIndex, `dequeueOptimisticCount, `dequeueOvercommit, `hasIndex)
      requires unchanged(`slotsUsed, `indexSize, `head, `contents)
      requires entries == old(entries[indexFront := Entry(tailIndex, ring[0])]) && tailBlock == old(ring[0])
      requires publishedFront == old(indexFront) < indexSize && indexFront == (old(indexFront) + 1) % indexSize
      requires Window(entries, indexFront, ring, firstBase)
      requires Circle(ring) && Stored(ring, firstBase, head, contents)
      ensures Started()
    {
      hide Window, Circle, Stored, IsPowerOfTwo, Wrap;
      assert Back(indexFront, 1, indexSize) == publishedFront by {
        NextBack(old(indexFront), 1, indexSize);
      }
    }

    lemma NextBase()
      requires Valid() && ring != [] && Tail() % BLOCK_SIZE == 0
      ensures Wrap(firstBase + BLOCK_SIZE * |ring|) == tailIndex
    {
    }

    /** Inserts a vacant block behind the tail block. */
    method LinkBlock(newBlock: Block<T>)
      requires Valid() && newBlock !in ring && newBlock.Vacant()
      modifies this`tailBlock, this`slotsUsed, ring, newBlock
      ensures tailBlock == newBlock && slotsUsed == old(slotsUsed) + 1
      ensures Circle(ring + [newBlock]) && Stored(ring + [newBlock], firstBase, head, contents)
    {
      hide Window, Circle, Distinct, Holds, Valid, Counters, Placed, Indexed, Linked;
      RingFacts();
      if ring != [] {
        NextIsOldest();
      } else {
        NoTail();
      }
      newBlock.ResetEmpty();
      if tailBlock == null {
        newBlock.next := newBlock;
      } else {
        newBlock.next := tailBlock.next;
        tailBlock.next := newBlock;
      }
      tailBlock := newBlock;
      slotsUsed := slotsUsed + 1;
      CircleInserted(ring, newBlock);
      forall i | 0 <= i < |ring|
        ensures Holds(ring[i].elements, ring[i].emptyFlags, firstBase + BLOCK_SIZE * i, head, contents)
      {
        assert old(Holds(ring[i].elements, ring[i].emptyFlags, firstBase + BLOCK_SIZE * i, head, contents));
      }
      StoredAdded(ring, newBlock, firstBase, head, contents);
    }

    lemma NoTail()
      requires Valid() && ring == []
      ensures tailBlock == null
    {
    }

    /** Adds a requisitioned block as the newest; the index has room for it. */
    method AddBlock(newBlock: Block<T>)
      requires Valid() && Tail() % BLOCK_SIZE == 0 && !CanReuse() && !Full()
      requires hasIndex && slotsUsed < indexSize && newBlock !in ring && newBlock.Vacant()
      modifies this`tailBlock, this`slotsUsed, this`entries, this`publishedFront, this`indexFront, this`ring, ring
      modifies newBlock
      ensures Started() && ring == old(ring) + [newBlock] && firstBase == old(firstBase)
    {
      hide Window, Circle, Holds, Stored, Valid, Counters, Placed, Indexed, Linked, Started;
      IndexFacts();
      WindowAdded(entries, indexFront, ring, firstBase, newBlock);
      LinkBlock(newBlock);
      Register(tailIndex);
      ring := ring + [newBlock];
      Added(newBlock);
    }

    lemma IndexFacts()
      requires Valid() && hasIndex && Tail() % BLOCK_SIZE == 0
      ensures indexFront < indexSize == |entries| && |ring| == slotsUsed && Window(entries, indexFront, ring, firstBase)
      ensures Wrap(firstBase + BLOCK_SIZE * |ring|) == tailIndex
    {
    }

    twostate lemma Added(newBlock: Block<T>)
      requires old(Valid() && Tail() % BLOCK_SIZE == 0 && !CanReuse() && !Full() && hasIndex)
      requires ring == old(ring) + [newBlock] && slotsUsed == old(slotsUsed) + 1 && tailBlock == newBlock
      requires unchanged(`tailIndex, `headIndex, `dequeueOptimisticCount, `dequeueOvercommit, `hasIndex)
      requires unchanged(`indexSize, `head, `contents, `firstBase)
      requires entries == old(entries[indexFront := Entry(tailIndex, newBlock)])
      requires publishedFront == old(indexFront) < indexSize && indexFront == (old(indexFront) + 1) % indexSize
      requires Window(entries, indexFront, ring, firstBase)
      requires Circle(ring) && Stored(ring, firstBase, head, contents)
      ensures Started()
    {
      hide Window, Circle, Stored, IsPowerOfTwo, Wrap, Back;
      NextBack(old(indexFront), 1, indexSize);
      AnotherBlock(old(|ring|), |contents|, HALF);
      AnotherBlock(old(|ring|), |contents|, maxSubqueueSize);
    }

    lemma TailMeansRing()
      requires Valid()
      ensures tailBlock == null <==> ring == []
      ensures CanReuse() ==> ring != []
    {
    }

    /** The comparison of stored indices decides whether another block is out of bounds. */
    lemma FullTest()
      requires Valid()
      ensures tailIndex < WORD && headIndex < WORD && Wrap(tailIndex - headIndex) == |contents| <= HALF
      ensures CircularLess(headIndex, Wrap(tailIndex + BLOCK_SIZE)) <==> |contents| + BLOCK_SIZE < HALF
      ensures maxSubqueueSize == SIZE_MAX || maxSubqueueSize == 0 || maxSubqueueSize >= BLOCK_SIZE
    {
      hide Window, Circle, Stored, IsPowerOfTwo, Back, Wrap;
      SpanBound();
      FullCompares(head, Tail());
    }

    lemma SpanBound()
      requires Valid()
      ensures |contents| <= HALF && Tail() <= firstBase + BLOCK_SIZE * |ring|
    {
    }

    lemma GrowFacts()
      requires Valid()
      ensures IsPowerOfTwo(indexSize) && slotsUsed == |ring| < HALF && (hasIndex ==> |entries| == indexSize)
      ensures if hasIndex then Window(entries, indexFront, ring, firstBase) && slotsUsed <= indexSize else ring == []
      ensures CanReuse() ==> ring != []
    {
      SpanBound();
    }

    /** A new index changes nothing else. */
    twostate lemma Grown()
      requires old(Valid()) && hasIndex && indexSize == |entries| && IsPowerOfTwo(indexSize)
      requires unchanged(`tailIndex, `headIndex, `dequeueOptimisticCount, `dequeueOvercommit, `tailBlock)
      requires unchanged(`slotsUsed, `head, `contents, `ring, `firstBase)
      requires Circle(ring) && Stored(ring, firstBase, head, contents)
      requires Window(entries, indexFront, ring, firstBase)
      requires ring != [] ==> publishedFront == Back(indexFront, 1, indexSize)
      ensures Valid() && (CanReuse() <==> old(CanReuse())) && (Full() <==> old(Full()))
    {
      hide Window, Wrap, IsPowerOfTwo, Back, Circle, Stored;
    }

    /** Opens a new block for the element at the tail index, if there is room. */
    method StartBlock(canAlloc: bool, mallocOk: bool, available: Block?<T>) returns (started: bool)
      requires Valid() && Tail() % BLOCK_SIZE == 0
      requires available != null ==> available !in ring && available.Vacant()
      modifies this`tailBlock, this`hasIndex, this`entries, this`publishedFront, this`slotsUsed, this`indexSize
      modifies this`indexFront, this`ring, this`firstBase, ring, available
      ensures started <==> old(HasRoom(canAlloc, mallocOk, available))
      ensures if started then Started() else Valid() && ring == old(ring)
      ensures started ==> ring == if old(CanReuse()) then old(ring[1..] + [ring[0]]) else old(ring) + [available]
    {
      hide Window, Circle, Holds, Stored, Valid, Counters, Placed, Indexed, Linked, Started;
      var reusable := false;
      TailMeansRing();
      if tailBlock != null {
        NextIsOldest();
        reusable := tailBlock.next.IsEmpty();
      }
      if reusable {
        ReuseBlock();
        return true;
      }
      FullTest();
      GrowFacts();
      if !CircularLess(headIndex, Wrap(tailIndex + BLOCK_SIZE))
         || (maxSubqueueSize != SIZE_MAX
             && (maxSubqueueSize == 0 || maxSubqueueSize - BLOCK_SIZE < Wrap(tailIndex - headIndex))) {
        return false;
      }
      if !hasIndex || slotsUsed == indexSize {
        if !canAlloc {
          return false;
        }
        RingFacts();
        var grown := NewBlockIndex(mallocOk);
        if !grown {
          return false;
        }
        Grown();
      }
      if available == null {
        return false;
      }
      AddBlock(available);
      return true;
    }

    /** Appends the element if there is room; a failed call leaves the elements and the
        ring as they were. The ring turns or gains the available block when the element
        starts a block, and only then. */
    method Enqueue(element: T, canAlloc: bool, mallocOk: bool, available: Block?<T>) returns (ok: bool)
      requires Valid() && (available != null ==> available !in ring && available.Vacant())
      modifies this, ring, available
      ensures Valid()
      ensures ok <==> old(Tail()) % BLOCK_SIZE != 0 || old(HasRoom(canAlloc, mallocOk, available))
      ensures contents == if ok then old(contents) + [element] else old(contents)
      ensures head == old(head)
      ensures ring == if !ok || old(Tail()) % BLOCK_SIZE != 0 then old(ring)
                      else if old(CanReuse()) then old(ring[1..] + [ring[0]]) else old(ring) + [available]
    {
      hide Window, Circle, Holds, Stored, Valid, Counters, Placed, Indexed, Linked, Started, HasRoom;
      AtBoundary();
      if tailIndex % BLOCK_SIZE == 0 {
        ok := StartBlock(canAlloc, mallocOk, available);
        if !ok {
          return;
        }
        FromStarted();
      } else {
        InsideBlock();
      }
      Construct(element);
      return true;
    }

    lemma AtBoundary()
      requires Valid()
      ensures tailIndex % BLOCK_SIZE == Tail() % BLOCK_SIZE
    {
      CellOfWord(Tail());
    }

    lemma FromStarted()
      requires Started()
      ensures Counters() && Placed() && Indexed() && Linked()
      ensures ring != [] && Tail() - firstBase < BLOCK_SIZE * |ring|
    {
    }

    lemma InsideBlock()
      requires Valid() && Tail() % BLOCK_SIZE != 0
      ensures Counters() && Placed() && Indexed() && Linked()
      ensures ring != [] && Tail() - firstBase < BLOCK_SIZE * |ring|
    {
      hide Window, Circle, Stored, IsPowerOfTwo, Wrap, Back;
      if Tail() - firstBase == BLOCK_SIZE * |ring| {
        SameRemainder(Tail(), |ring|, firstBase);
      }
    }

    // ---- dequeueing ----

    /** The slot of the block that holds index i, as the block index gives it. */
    method FindSlot(index: nat, ghost i: nat) returns (slot: nat)
      requires Placed() && Indexed() && index == Wrap(i) && firstBase <= i < firstBase + BLOCK_SIZE * |ring|
      ensures 0 <= (i - firstBase) / BLOCK_SIZE < |ring| <= indexSize == |entries|
      ensures indexFront < indexSize && slot < indexSize
      ensures slot == Back(indexFront, |ring| - (i - firstBase) / BLOCK_SIZE, indexSize)
      ensures entries[slot].block == ring[(i - firstBase) / BLOCK_SIZE]
    {
      hide Back, IsPowerOfTwo, Window, Wrap, LookupSlot;
      LookupReady();
      LookupFinds(entries, indexFront, ring, firstBase, i);
      slot := LookupSlot(index, publishedFront, entries[publishedFront].base, indexSize);
    }

    lemma LookupReady()
      requires Placed() && Indexed() && ring != []
      ensures Window(entries, indexFront, ring, firstBase) && indexFront < indexSize == |entries| && |ring| <= indexSize
      ensures publishedFront == Back(indexFront, 1, indexSize) < indexSize
    {
    }

    /** What the invariant says of the head index while elements are stored. */
    lemma HeadCell()
      requires Valid() && contents != []
      ensures Placed() && Indexed() && Circle(ring) && Stored(ring, firstBase, head, contents)
      ensures firstBase <= head < firstBase + BLOCK_SIZE * |ring| && head % BLOCK_SIZE == headIndex % BLOCK_SIZE
      ensures var i := (head - firstBase) / BLOCK_SIZE; var k := head % BLOCK_SIZE;
        0 <= i < |ring| && head == firstBase + BLOCK_SIZE * i + k
    {
      hide Wrap, Window, Circle, Stored, IsPowerOfTwo;
      CellOfWord(head);
    }

    /** The cell of the head index holds the oldest element and is not flagged. */
    lemma HeadHolds(i: nat, k: nat)
      requires Stored(ring, firstBase, head, contents) && contents != []
      requires i < |ring| && k < BLOCK_SIZE && head == firstBase + BLOCK_SIZE * i + k
      ensures ring[i].Shaped() && ring[i].elements[k] == Some(contents[0])
      ensures !ring[i].emptyFlags[BLOCK_SIZE - 1 - k]
    {
    }

    /** Moves the element at the head index out of its block, destroys it and flags the cell. */
    method Remove(slot: nat, index: nat, ghost i: nat) returns (element: T)
      requires Stored(ring, firstBase, head, contents) && Circle(ring) && contents != []
      requires i < |ring| && head == firstBase + BLOCK_SIZE * i + index % BLOCK_SIZE
      requires slot < |entries| && entries[slot].block == ring[i]
      modifies ring
      ensures element == contents[0]
      ensures Stored(ring, firstBase, head + 1, contents[1..]) && Circle(ring)
    {
      hide Holds, Circle;
      var block: Block<T> := entries[slot].block;
      Unequal(ring, i);
      HeadHolds(i, index % BLOCK_SIZE);
      element := block.elements[index % BLOCK_SIZE].value;
      block.elements := block.elements[index % BLOCK_SIZE := None];
      block.SetEmpty(index);
      forall j | 0 <= j < |ring|
        ensures Holds(ring[j].elements, ring[j].emptyFlags, firstBase + BLOCK_SIZE * j, head + 1, contents[1..])
      {
        HoldsPopped(old(ring[j].elements), old(ring[j].emptyFlags), firstBase + BLOCK_SIZE * j, head, contents);
      }
      assert Stored(ring, firstBase, head + 1, contents[1..]);
      CircleKept(ring);
    }

    /** Takes the oldest element. With 2^63 elements stored the stored indices no longer
        compare and the call finds nothing. */
    method Dequeue() returns (element: Option<T>)
      requires Valid()
      modifies this`headIndex, this`dequeueOptimisticCount, this`head, this`contents, ring
      ensures Valid()
      ensures if 0 < |old(contents)| < HALF then element == Some(old(contents)[0]) && contents == old(contents)[1..]
              else element == None && contents == old(contents)
      ensures head == old(head) + |old(contents)| - |contents|
    {
      hide Window, Circle, Stored, Valid, Counters, Placed, Indexed, Linked, Back;
      HeadBehind();
      var tail := tailIndex;
      var overcommit := dequeueOvercommit;
      if CircularLess(Wrap(dequeueOptimisticCount - overcommit), tail) {
        HeadCell();
        var myDequeueCount: int := dequeueOptimisticCount;
        dequeueOptimisticCount := Wrap(dequeueOptimisticCount + 1);
        tail := tailIndex;
        // Nobody else runs, so the count is still below the tail.
        assert CircularLess(Wrap(myDequeueCount - overcommit), tail);
        var index := headIndex;
        headIndex := Wrap(headIndex + 1);
        SameLayout();
        var slot := FindSlot(index, head);
        var x := Remove(slot, index, (head - firstBase) / BLOCK_SIZE);
        element := Some(x);
        head, contents := head + 1, contents[1..];
        Removed(1);
      } else {
        element := None;
      }
    }

    /** The test at the start of a dequeue tells whether there is an element. */
    lemma HeadBehind()
      requires Valid()
      ensures dequeueOptimisticCount < WORD && dequeueOvercommit < WORD && tailIndex < WORD && headIndex == Wrap(head)
      ensures CircularLess(Wrap(dequeueOptimisticCount - dequeueOvercommit), tailIndex) <==> 0 < |contents| < HALF
    {
      hide Window, Circle, Stored, IsPowerOfTwo, Wrap;
      SpanBound();
      CountsCompare(tailIndex, headIndex, dequeueOptimisticCount, dequeueOvercommit, head, |contents|);
    }

    /** Advancing the counters alone moves nothing. */
    twostate lemma SameLayout()
      requires old(Placed() && Indexed())
      requires unchanged(`hasIndex, `entries, `publishedFront, `slotsUsed, `indexSize, `indexFront)
      requires unchanged(`head, `contents, `ring, `firstBase)
      ensures Placed() && Indexed()
    {
      hide Window, IsPowerOfTwo, Back;
    }

    twostate lemma Removed(n: nat)
      requires old(Valid()) && n <= |old(contents)|
      requires unchanged(`tailIndex, `tailBlock, `hasIndex, `entries, `publishedFront, `slotsUsed, `indexSize)
      requires unchanged(`indexFront, `dequeueOvercommit, `ring, `firstBase)
      requires head == old(head) + n && contents == old(contents)[n..]
      requires headIndex == Wrap(old(headIndex) + n) && dequeueOptimisticCount == Wrap(old(dequeueOptimisticCount) + n)
      requires Circle(ring) && Stored(ring, firstBase, head, contents)
      ensures Valid()
    {
      hide Window, Circle, Stored, IsPowerOfTwo, Counts, Back;
      CountsPopped(tailIndex, old(headIndex), old(dequeueOptimisticCount), dequeueOvercommit,
                   old(head), old(|contents|), n);
    }

    // ---- dequeueing in bulk ----

    /** Moves the first n of the elements todo, which lie in block j from index i on, out of it. */
    method DrainBlock(block: Block<T>, index: nat, endIndex: nat, ghost i: nat, ghost n: nat, ghost j: nat,
                      ghost todo: seq<T>)
      returns (moved: seq<T>)
      requires Circle(ring) && Stored(ring, firstBase, i, todo) && j < |ring| && block == ring[j]
      requires i - i % BLOCK_SIZE == firstBase + BLOCK_SIZE * j && i % BLOCK_SIZE + n <= BLOCK_SIZE && n <= |todo|
      requires index == Wrap(i) && endIndex == Wrap(i + n)
      modifies ring
      ensures moved == todo[..n]
      ensures Circle(ring) && Stored(ring, firstBase, i + n, todo[n..])
    {
      hide Holds, Circle, Wrap, Filled;
      ghost var k := i % BLOCK_SIZE;
      Unequal(ring, j);
      StoredIsShaped(ring, firstBase, i, todo, j);
      HoldsDrained(block.elements, block.emptyFlags, firstBase + BLOCK_SIZE * j, i, todo, k, n);
      CellsFull(block.elements, k, n, todo);
      CellOfWord(i);
      CountOfWords(i, n);
      moved := block.MoveOut(index, endIndex, i, n);
      block.SetManyEmpty(index, Wrap(endIndex - index));
      forall m | 0 <= m < |ring|
        ensures Holds(ring[m].elements, ring[m].emptyFlags, firstBase + BLOCK_SIZE * m, i + n, todo[n..])
      {
        if m != j {
          HoldsElsewhere(ring[m].elements, ring[m].emptyFlags, firstBase + BLOCK_SIZE * m, i, todo, n);
        }
      }
      assert Stored(ring, firstBase, i + n, todo[n..]);
      CircleKept(ring);
    }

    /** Empties the blocks one after the other until actualCount elements are out. */
    method DrainBlocks(firstIndex: nat, actualCount: nat, startSlot: nat) returns (items: seq<T>)
      requires Placed() && Indexed() && Circle(ring) && Stored(ring, firstBase, head, contents)
      requires firstIndex == Wrap(head) && actualCount <= |contents| && 0 < |contents| < HALF
      requires firstBase <= head < firstBase + BLOCK_SIZE * |ring|
      requires startSlot == SlotFor(head)
      modifies ring
      ensures items == contents[..actualCount]
      ensures Circle(ring) && Stored(ring, firstBase, head + actualCount, contents[actualCount..])
    {
      hide Circle, Stored, Placed, Indexed, Wrap, CircularLess, Filled, InBlock, SlotFor;
      items := [];
      var lastIndex := Wrap(firstIndex + actualCount);
      var index, slot, more := firstIndex, startSlot, true;
      WrapSub(head, actualCount);
      while more
        invariant |items| <= actualCount && items == contents[..|items|] && index == Wrap(head + |items|)
        invariant Circle(ring) && Stored(ring, firstBase, head + |items|, contents[|items|..])
        invariant if more then |items| < actualCount || actualCount == 0 else |items| == actualCount
        invariant more ==> head + |items| < firstBase + BLOCK_SIZE * |ring| && slot == SlotFor(head + |items|)
        decreases actualCount - |items|, more
        modifies ring
      {
        ghost var i := head + |items|;
        SlotHolds(i);
        BlockEnd(i, head + actualCount);
        var endIndex := Wrap(index - index % BLOCK_SIZE + BLOCK_SIZE);
        endIndex := if CircularLess(lastIndex, endIndex) then lastIndex else endIndex;
        var block: Block<T> := entries[slot].block;
        ghost var n := InBlock(i, head + actualCount);
        var moved := DrainBlock(block, index, endIndex, i, n, (i - firstBase) / BLOCK_SIZE, contents[|items|..]);
        SplitAgain(contents, |items|, n);
        items := items + moved;
        index := endIndex;
        slot := (slot + 1) % indexSize;
        more := index != lastIndex;
        SameWord(i + n, head + actualCount);
        if i + n < head + actualCount {
          TailBound();
          NextSlot(i, n);
        }
      }
    }

    /** The slot of the entry for the block that holds index i. */
    ghost function SlotFor(i: nat): nat
      requires Indexed() && firstBase <= i < firstBase + BLOCK_SIZE * |ring|
      reads this
    {
      Back(indexFront, |ring| - (i - firstBase) / BLOCK_SIZE, indexSize)
    }

    lemma SlotHolds(i: nat)
      requires Placed() && Indexed() && firstBase <= i < firstBase + BLOCK_SIZE * |ring|
      ensures var j := (i - firstBase) / BLOCK_SIZE;
        && 0 <= j < |ring| && i - i % BLOCK_SIZE == firstBase + BLOCK_SIZE * j
        && SlotFor(i) < |entries| == indexSize && entries[SlotFor(i)].block == ring[j]
    {
      hide Back, Wrap, IsPowerOfTwo;
      WindowAt(entries, indexFront, ring, firstBase, |ring| - (i - firstBase) / BLOCK_SIZE);
    }

    /** The next block's slot follows. */
    lemma NextSlot(i: nat, n: nat)
      requires Placed() && Indexed() && firstBase <= i && i % BLOCK_SIZE + n == BLOCK_SIZE
      requires i + n < firstBase + BLOCK_SIZE * |ring|
      ensures (SlotFor(i) + 1) % indexSize == SlotFor(i + n)
    {
      hide Window, IsPowerOfTwo, Back, Wrap, CircularLess;
      LookupReady();
      AcrossBlocks(i, n, firstBase);
      WalkNext(indexFront, |ring| - (i - firstBase) / BLOCK_SIZE, indexSize);
    }

    lemma TailBound()
      requires Placed() && ring != []
      ensures Tail() <= firstBase + BLOCK_SIZE * |ring|
    {
    }

    /** Takes up to max of the oldest elements, in order. */
    method DequeueBulk(max: nat) returns (items: seq<T>)
      requires Valid()
      modifies this`headIndex, this`dequeueOptimisticCount, this`head, this`contents, ring
      ensures Valid()
      ensures |items| == if |old(contents)| == HALF then 0 else if max < |old(contents)| then max else |old(contents)|
      ensures items == old(contents)[..|items|] && contents == old(contents)[|items|..]
      ensures head == old(head) + |items|
    {
      hide Window, Circle, Stored, Valid, Counters, Placed, Indexed, Linked, Back, CircularLess, SlotFor, Wrap;
      BulkCount();
      var overcommit := dequeueOvercommit;
      var desiredCount := Wrap(tailIndex - Wrap(dequeueOptimisticCount - overcommit));
      if CircularLess(0, desiredCount) {
        HeadCell();
        desiredCount := if desiredCount < max then desiredCount else max;
        var myDequeueCount: int := dequeueOptimisticCount;
        dequeueOptimisticCount := Wrap(dequeueOptimisticCount + desiredCount);
        var actualCount := Wrap(tailIndex - Wrap(myDequeueCount - overcommit));
        actualCount := if desiredCount < actualCount then desiredCount else actualCount;
        // Nobody else runs, so all of them are there and none is given back.
        assert actualCount == desiredCount;
        var firstIndex := headIndex;
        headIndex := Wrap(headIndex + actualCount);
        SameLayout();
        var slot := FindSlot(firstIndex, head);
        SlotAgain(slot);
        items := DrainBlocks(firstIndex, actualCount, slot);
        head, contents := head + actualCount, contents[actualCount..];
        Removed(actualCount);
      } else {
        items := [];
      }
    }

    lemma SlotAgain(slot: nat)
      requires Indexed() && firstBase <= head < firstBase + BLOCK_SIZE * |ring|
      requires indexFront < indexSize && |ring| <= indexSize
      requires slot == Back(indexFront, |ring| - (head - firstBase) / BLOCK_SIZE, indexSize)
      ensures slot == SlotFor(head)
    {
    }

    lemma BulkCount()
      requires Valid()
      ensures headIndex == Wrap(head)
      ensures Wrap(tailIndex - Wrap(dequeueOptimisticCount - dequeueOvercommit)) == |contents| <= HALF
      ensures CircularLess(0, |contents|) <==> 0 < |contents| < HALF
    {
      hide Window, Circle, Stored, IsPowerOfTwo, Wrap;
      SpanBound();
      WrapSub(Tail(), head);
      WrapSmall(|contents|);
      WrapSmall(0 - |contents|);
    }

    // ---- the start ----

    lemma EmptyIsValid()
      requires tailIndex == headIndex == dequeueOptimisticCount == dequeueOvercommit == 0
      requires head == firstBase == slotsUsed == 0 && contents == [] && ring == [] && tailBlock == null
      requires maxSubqueueSize == SIZE_MAX || maxSubqueueSize % BLOCK_SIZE == 0
      requires IsPowerOfTwo(indexSize)
      requires hasIndex ==> |entries| == indexSize && Window(entries, indexFront, ring, firstBase)
      ensures Valid()
    {
      hide IsPowerOfTwo, Window, Back;
    }

    /** An empty producer; the first block index may or may not have been allocated. */
    constructor (maxSubqueueSize: nat, poolBasedIndexSize: nat, mallocOk: bool)
      requires maxSubqueueSize == SIZE_MAX || maxSubqueueSize % BLOCK_SIZE == 0
      requires poolBasedIndexSize == 0 || IsPowerOfTwo(poolBasedIndexSize)
      ensures Valid() && contents == [] && ring == [] && head == 0 && hasIndex == mallocOk
      ensures this.maxSubqueueSize == maxSubqueueSize
    {
      this.maxSubqueueSize := maxSubqueueSize;
      tailIndex, headIndex, dequeueOptimisticCount, dequeueOvercommit := 0, 0, 0, 0;
      tailBlock := null;
      hasIndex, entries, publishedFront, slotsUsed, indexFront := false, [], 0, 0, 0;
      indexSize := if poolBasedIndexSize > EXPLICIT_INITIAL_INDEX_SIZE / 2 then poolBasedIndexSize
                   else EXPLICIT_INITIAL_INDEX_SIZE / 2;
      head, contents, ring, firstBase := 0, [], [], 0;
      new;
      hide IsPowerOfTwo, Window, Back, Valid;
      SmallPowers();
      var grown := NewBlockIndex(mallocOk);
      EmptyIsValid();
    }
  }

  /** While memory lasts nothing is refused below the size limit and below 2^63 - 32
      elements. */
  lemma AcceptsWithMemory<T>(p: ExplicitProducer<T>, available: Block<T>)
    requires p.Valid() && |p.contents| + 32 < HALF
    requires p.maxSubqueueSize == SIZE_MAX || |p.contents| + 32 <= p.maxSubqueueSize
    ensures p.HasRoom(true, true, available)
  {
  }

  // ---- 2^63 elements in one ring ----

  /** The element appended after i others finds room. */
  predicate RoomAt(tail: nat, size: nat, reusable: bool, i: nat) {
    (tail + i) % BLOCK_SIZE != 0 || (i == 0 && reusable) || size + i + BLOCK_SIZE < HALF
  }

  /** Appends n elements while memory lasts; the first may need the oldest block. */
  method Append<T>(p: ExplicitProducer<T>, x: T, n: nat)
    requires p.Valid() && p.maxSubqueueSize == SIZE_MAX
    requires forall i | 0 <= i < n :: RoomAt(p.Tail(), |p.contents|, p.CanReuse(), i)
    modifies p, p.ring
    ensures p.Valid() && |p.contents| == old(|p.contents|) + n && p.head == old(p.head)
    ensures forall i | 0 <= i < |p.ring| :: p.ring[i] in old(p.ring) || fresh(p.ring[i])
  {
    var k := 0;
    while k < n
      invariant k <= n && p.Valid() && |p.contents| == old(|p.contents|) + k && p.head == old(p.head)
      invariant k == 0 ==> (p.CanReuse() <==> old(p.CanReuse()))
      invariant forall i | 0 <= i < |p.ring| :: p.ring[i] in old(p.ring) || fresh(p.ring[i])
    {
      assert old(RoomAt(p.Tail(), |p.contents|, p.CanReuse(), k));
      AppendOne(p, x);
      k := k + 1;
    }
  }

  method AppendOne<T>(p: ExplicitProducer<T>, x: T)
    requires p.Valid() && p.maxSubqueueSize == SIZE_MAX && RoomAt(p.Tail(), |p.contents|, p.CanReuse(), 0)
    modifies p, p.ring
    ensures p.Valid() && |p.contents| == old(|p.contents|) + 1 && p.head == old(p.head)
    ensures forall i | 0 <= i < |p.ring| :: p.ring[i] in old(p.ring) || fresh(p.ring[i])
  {
    var block := new Block<T>();
    var ok := p.Enqueue(x, true, true, block);
  }

  /** The block index compares indices only below a distance of 2^63, but reusing a block
      asks for no comparison: a producer without size limit gets to hold 2^63 elements. A
      dequeue then finds none of them. */
  method HalfIsReached<T>(x: T) returns (p: ExplicitProducer<T>, element: Option<T>)
    ensures fresh(p) && p.Valid() && |p.contents| == HALF && element == None
  {
    hide ExplicitProducer<T>.Valid;
    p := new ExplicitProducer<T>(SIZE_MAX, 0, true);
    Append(p, x, HALF - BLOCK_SIZE);
    element := p.Dequeue();
    Append(p, x, BLOCK_SIZE);
    FirstIsOldest(p);
    var items := p.DequeueBulk(BLOCK_SIZE - 1);
    assert p.CanReuse();
    Append(p, x, BLOCK_SIZE);
    element := p.Dequeue();
  }

  lemma FirstIsOldest<T>(p: ExplicitProducer<T>)
    requires p.Valid() && p.head < BLOCK_SIZE && p.contents != []
    ensures p.ring != [] && p.firstBase == 0
  {
  }
}
