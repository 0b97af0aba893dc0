/** The producer a thread gets without a token: blocks come from and return to the free
    list one by one, a failed enqueue is undone, and a block index finds the block of an
    index. Refined to a first-in first-out sequence; one call runs at a time. */
module ImplicitProducers {

  import opened Basics
  import opened Blocks
  import opened Circular
  import opened ImplicitIndexes

  /** The cells of a block whose first cell has index base, and its count of dequeued ones. */
  ghost predicate Holding<T>(block: Block<T>, base: nat, head: nat, contents: seq<T>)
    reads block
  {
    && block.Shaped()
    && (forall k | 0 <= k < BLOCK_SIZE :: block.elements[k] == Cell(base + k, head, contents))
    && block.elementsCompletelyDequeued == if head <= base then 0 else head - base
  }

  /** The index of the first cell of the block of index i. */
  function BaseOf(i: nat): (base: nat)
    ensures base % BLOCK_SIZE == 0 && base <= i < base + BLOCK_SIZE
  {
    i - i % BLOCK_SIZE
  }

  ghost predicate Stored<T>(ring: seq<Block<T>>, firstBase: nat, head: nat, contents: seq<T>)
    reads ring
  {
    forall i | 0 <= i < |ring| :: Holding(ring[i], firstBase + BLOCK_SIZE * i, head, contents)
  }

  /** Elements before the block or behind it do not concern it. */
  lemma HoldingElsewhere<T>(block: Block<T>, base: nat, head: nat, contents: seq<T>, head': nat, contents': seq<T>)
    requires Holding(block, base, head, contents) && (head' <= base || head' == head)
    requires head <= base || head' == head
    requires forall k | base <= k < base + BLOCK_SIZE :: Cell(k, head', contents') == Cell(k, head, contents)
    ensures Holding(block, base, head', contents')
  {
  }

  lemma HoldingNothing<T>(block: Block<T>, base: nat, head: nat, contents: seq<T>)
    requires block.Vacant() && block.elementsCompletelyDequeued == 0 && head + |contents| <= base
    ensures Holding(block, base, head, contents)
  {
  }

  lemma Parts<T>(block: Block<T>, base: nat, head: nat, contents: seq<T>)
    requires Holding(block, base, head, contents)
    ensures block.Shaped() && block.elementsCompletelyDequeued == if head <= base then 0 else head - base
    ensures forall k | 0 <= k < BLOCK_SIZE :: block.elements[k] == Cell(base + k, head, contents)
  {
  }

  lemma Whole<T>(block: Block<T>, base: nat, head: nat, contents: seq<T>)
    requires block.Shaped() && block.elementsCompletelyDequeued == if head <= base then 0 else head - base
    requires forall k | 0 <= k < BLOCK_SIZE :: block.elements[k] == Cell(base + k, head, contents)
    ensures Holding(block, base, head, contents)
  {
  }

  lemma CellsPushed<T>(elements: seq<Option<T>>, base: nat, head: nat, contents: seq<T>, x: T, k: nat)
    requires |elements| == BLOCK_SIZE && k < BLOCK_SIZE && base + k == head + |contents|
    requires forall j | 0 <= j < BLOCK_SIZE :: elements[j] == Cell(base + j, head, contents)
    ensures var next := elements[k := Some(x)]; var more := contents + [x];
      forall j | 0 <= j < BLOCK_SIZE :: next[j] == Cell(base + j, head, more)
  {
  }

  lemma CellsPopped<T>(elements: seq<Option<T>>, base: nat, head: nat, contents: seq<T>, k: nat)
    requires |elements| == BLOCK_SIZE && k < BLOCK_SIZE && head == base + k && contents != []
    requires forall j | 0 <= j < BLOCK_SIZE :: elements[j] == Cell(base + j, head, contents)
    ensures elements[k] == Some(contents[0])
    ensures var next := elements[k := None]; var rest := contents[1..];
      && (forall j | 0 <= j < BLOCK_SIZE :: next[j] == Cell(base + j, head + 1, rest))
      && (k == BLOCK_SIZE - 1 ==> forall j | 0 <= j < BLOCK_SIZE :: next[j] == None)
  {
  }

  lemma CellsBehind<T>(base: nat, head: nat, contents: seq<T>)
    requires head < base && contents != []
    ensures forall k | base <= k < base + BLOCK_SIZE :: Cell(k, head + 1, contents[1..]) == Cell(k, head, contents)
  {
  }

  lemma NextBase(i: nat)
    ensures BaseOf(i) <= i < BaseOf(i) + BLOCK_SIZE
    ensures BaseOf(i + 1) == if i - BaseOf(i) == BLOCK_SIZE - 1 then BaseOf(i) + BLOCK_SIZE else BaseOf(i)
  {
  }

  lemma CellsBefore<T>(base: nat, head: nat, contents: seq<T>, x: T)
    requires base + BLOCK_SIZE <= head + |contents|
    ensures forall k | base <= k < base + BLOCK_SIZE :: Cell(k, head, contents + [x]) == Cell(k, head, contents)
  {
  }

  /** The block behind place j of the first n blocks. */
  function NextOf<T>(blocks: seq<Block<T>>, n: nat, j: nat): Block?<T>
    requires n <= |blocks|
  {
    if j + 1 < n then blocks[j + 1] else null
  }

  /** Following next from first yields exactly these blocks. */
  ghost predicate Chain<T>(first: Block?<T>, blocks: seq<Block<T>>)
    reads blocks
  {
    && first == (if blocks == [] then null else blocks[0])
    && forall i | 0 <= i < |blocks| :: blocks[i].next == NextOf(blocks, |blocks|, i)
  }

  /** An index of this capacity has room for n entries after at most grows doublings. */
  predicate Growable(n: nat, capacity: nat, grows: nat)
    decreases grows
  {
    n <= capacity || (grows > 0 && Growable(n, 2 * capacity, grows - 1))
  }

  lemma GrowOnce(n: nat, capacity: nat, grows: nat)
    requires n > capacity
    ensures Growable(n, capacity, grows) <==> grows > 0 && Growable(n, 2 * capacity, grows - 1)
  {
  }

  lemma Fits(n: nat, capacity: nat, grows: nat)
    requires n <= capacity
    ensures Growable(n, capacity, grows)
  {
  }

  /** One doubling makes room for at least one more. */
  lemma {:induction false} GrowableEnough(n: nat, capacity: nat, grows: nat)
    requires capacity > 0 && n <= capacity + grows
    ensures Growable(n, capacity, grows)
    decreases grows
  {
    if n > capacity {
      GrowableEnough(n, 2 * capacity, grows - 1);
    }
  }

  /** The start of the first block at or behind an index. */
  function BlockStart(n: nat): (start: nat)
    ensures start % BLOCK_SIZE == 0 && n <= start < n + BLOCK_SIZE
  {
    BaseOf(n + BLOCK_SIZE - 1)
  }

  /** Two block starts less than a block apart are equal; the distance is in whole blocks. */
  lemma Between(x: nat, y: nat)
    requires x % BLOCK_SIZE == 0 && y % BLOCK_SIZE == 0 && x > y - BLOCK_SIZE
    ensures x >= y && x - y == BLOCK_SIZE * ((x - y) / BLOCK_SIZE)
    ensures x < y + BLOCK_SIZE ==> x == y
  {
    var q := x / BLOCK_SIZE - y / BLOCK_SIZE;
    assert x - y == BLOCK_SIZE * q;
  }

  /** How many new blocks count more elements need. */
  function BlocksFor(tail: nat, count: nat): nat {
    (BlockStart(tail + count) - BlockStart(tail)) / BLOCK_SIZE
  }

  /** The start of the block before a tail index. */
  function PreviousBlock(tail: nat): nat {
    var last := Wrap(tail - 1);
    last - last % BLOCK_SIZE
  }

  /** It is one block before the end of the blocks in use. */
  lemma PreviousOfEnd(tail: nat, end: nat)
    requires end % BLOCK_SIZE == 0 && tail <= end < tail + BLOCK_SIZE
    ensures PreviousBlock(Wrap(tail)) == Wrap(end - BLOCK_SIZE)
  {
    if tail > 0 {
      PreviousOfPositive(tail, end);
    } else {
      PreviousOfZero();
    }
  }

  lemma PreviousOfPositive(tail: nat, end: nat)
    requires end % BLOCK_SIZE == 0 && 0 < tail <= end < tail + BLOCK_SIZE
    ensures PreviousBlock(Wrap(tail)) == Wrap(end - BLOCK_SIZE)
  {
    WrapSub(tail, -1);
    hide Wrap;
    CellOfWord(tail - 1);
    var base := end - BLOCK_SIZE;
    SameRemainder(end, 1, base);
    RemainderFrom(tail - 1, base, 0);
  }

  lemma PreviousOfZero()
    ensures PreviousBlock(Wrap(0)) == Wrap(-32)
  {
    WrapSmall(-1);
    WrapSmall(-32);
  }

  /** The n items from place from on fill n cells and leave the others. */
  lemma CellOfMore<T>(k: nat, head: nat, contents: seq<T>, items: seq<T>, from: nat, n: nat)
    requires from + n <= |items|
    ensures var tail := head + |contents|;
      Cell(k, head, contents + items[..from + n])
      == if tail + from <= k < tail + from + n then Some(items[k - tail]) else Cell(k, head, contents + items[..from])
  {
  }

  /** Walks a chain of blocks: how they are handed to the free list. */
  method ChainList<T>(first: Block?<T>, ghost blocks: seq<Block<T>>) returns (list: seq<Block<T>>)
    requires Chain(first, blocks)
    ensures list == blocks
  {
    list := [];
    var block := first;
    while block != null
      invariant |list| <= |blocks| && list == blocks[..|list|]
      invariant block == if |list| < |blocks| then blocks[|list|] else null
      decreases |blocks| - |list|
    {
      list := list + [block];
      block := block.next;
    }
  }

  lemma VacantBeyond<T>(block: Block<T>, base: nat, head: nat, contents: seq<T>)
    requires Holding(block, base, head, contents) && head + |contents| <= base
    ensures block.Vacant()
  {
  }

  class ImplicitProducer<T> {
    /** The size limit, rounded up to whole blocks; SIZE_MAX for none. */
    const maxSubqueueSize: nat
    const blockIndex: BlockIndex<T>

    var tailIndex: nat
    var headIndex: nat
    var dequeueOptimisticCount: nat
    var dequeueOvercommit: nat
    var tailBlock: Block?<T>

    /** The counter behind the head index, the stored elements, and the blocks in use from
        the oldest to the newest. */
    ghost var head: nat
    ghost var contents: seq<T>
    ghost var ring: seq<Block<T>>

    ghost function Tail(): nat
      reads this
    {
      head + |contents|
    }

    ghost predicate Counters()
      reads this
    {
      Counts(tailIndex, headIndex, dequeueOptimisticCount, dequeueOvercommit, head, |contents|)
    }

    /** The blocks reach at least to the tail, and not too far. */
    ghost predicate Placed()
      reads this
    {
      && Tail() <= BaseOf(head) + BLOCK_SIZE * |ring| < head + HALF
      && (maxSubqueueSize != SIZE_MAX ==> maxSubqueueSize % BLOCK_SIZE == 0 && BLOCK_SIZE * |ring| <= maxSubqueueSize)
    }

    ghost predicate Linked()
      reads this, ring
    {
      Distinct(ring) && Stored(ring, BaseOf(head), head, contents)
    }

    ghost predicate Shown()
      reads this, blockIndex, blockIndex.index
    {
      blockIndex.Valid() && blockIndex.Shows(BaseOf(head), ring)
    }

    /** All that holds while blocks are being added, too. */
    ghost predicate Sound()
      reads this, ring, blockIndex, blockIndex.index
    {
      Counters() && Placed() && Linked() && Shown()
    }

    /** No block is in use but those that hold elements or the next free cell. */
    ghost predicate Snug()
      reads this
    {
      && BaseOf(head) + BLOCK_SIZE * |ring| < Tail() + BLOCK_SIZE
      && (Tail() % BLOCK_SIZE != 0 ==> ring != [] && tailBlock == ring[|ring| - 1])
    }

    ghost predicate Valid()
      reads this, ring, blockIndex, blockIndex.index
    {
      Sound() && Snug()
    }

    /** A block that starts at index at may not be added. */
    ghost predicate FullAt(at: nat)
      reads this
    {
      || at + BLOCK_SIZE >= head + HALF
      || (maxSubqueueSize != SIZE_MAX && at + BLOCK_SIZE > head + maxSubqueueSize)
    }

    constructor (maxSubqueueSize: nat, mallocOk: bool)
      requires maxSubqueueSize == SIZE_MAX || maxSubqueueSize % BLOCK_SIZE == 0
      ensures Valid() && contents == [] && ring == [] && head == 0
      ensures this.maxSubqueueSize == maxSubqueueSize && blockIndex.present == mallocOk && fresh(blockIndex)
    {
      this.maxSubqueueSize := maxSubqueueSize;
      tailIndex, headIndex, dequeueOptimisticCount, dequeueOvercommit, tailBlock := 0, 0, 0, 0, null;
      head, contents, ring := 0, [], [];
      var index := new BlockIndex(mallocOk);
      blockIndex := index;
      new;
      assert Counters();
    }

    // ---- enqueueing one element ----

    lemma EndOfRing()
      requires Sound() && Snug()
      ensures Tail() % BLOCK_SIZE == 0 ==> Tail() == BaseOf(head) + BLOCK_SIZE * |ring|
      ensures Tail() % BLOCK_SIZE != 0 ==> ring != [] && Tail() < BaseOf(head) + BLOCK_SIZE * |ring|
      ensures tailIndex % BLOCK_SIZE == Tail() % BLOCK_SIZE
    {
      hide Linked, Shown, Wrap;
      CellOfWord(Tail());
      var end := BaseOf(head) + BLOCK_SIZE * |ring|;
      SameRemainder(head, head / BLOCK_SIZE, head % BLOCK_SIZE);
      SameRemainder(end, head / BLOCK_SIZE + |ring|, 0);
      if Tail() % BLOCK_SIZE == 0 {
        SameRemainder(end - Tail(), head / BLOCK_SIZE + |ring| - Tail() / BLOCK_SIZE, 0);
      }
    }

    /** The word comparison of the code for a block that starts at index at. */
    predicate Refused(at: nat)
      requires at < WORD && headIndex < WORD
      reads this
    {
      || !CircularLess(headIndex, Wrap(at + BLOCK_SIZE))
      || (maxSubqueueSize != SIZE_MAX && (maxSubqueueSize == 0 || maxSubqueueSize - BLOCK_SIZE < Wrap(at - headIndex)))
    }

    lemma RefusedIsFull(at: nat)
      requires Counters() && Placed() && head <= at <= head + HALF
      ensures headIndex < WORD && (Refused(Wrap(at)) <==> FullAt(at))
    {
      FullCompares(head, at);
    }

    /** Where a further block starts. */
    ghost function End(): nat
      reads this
    {
      BaseOf(head) + BLOCK_SIZE * |ring|
    }

    /** A block can be added: it is allowed, the index has or gets room, and there is one. */
    ghost predicate CanAdd(canAlloc: bool, mallocOk: bool, available: Block?<T>)
      reads this, blockIndex
    {
      && !FullAt(End()) && blockIndex.present && (|ring| < |blockIndex.index| || (canAlloc && mallocOk))
      && available != null
    }

    /** Adds a block behind the last one, with an entry in the index; if an allocation
        fails, the index shows what it showed before. */
    method TryAddBlock(at: nat, canAlloc: bool, mallocOk: bool, available: Block?<T>) returns (newBlock: Block?<T>,
                       grew: bool)
      requires Sound() && at == Wrap(End())
      requires available != null ==> available !in ring && available.Vacant()
      modifies this`ring, blockIndex, blockIndex.index, available
      ensures Sound() && blockIndex.present == old(blockIndex.present)
      ensures newBlock != null <==> old(CanAdd(canAlloc, mallocOk, available))
      ensures if newBlock == null then ring == old(ring) else newBlock == available && ring == old(ring) + [newBlock]
      ensures newBlock == null && available != null ==> unchanged(available)
      ensures |blockIndex.index| == if grew then 2 * old(|blockIndex.index|) else old(|blockIndex.index|)
      ensures newBlock != null ==> (grew <==> old(|ring| == |blockIndex.index|))
      ensures forall e | e in blockIndex.index :: e in old(blockIndex.index) || fresh(e)
      ensures newBlock == null ==> blockIndex.Newest(|ring|) == old(blockIndex.Newest(|ring|))
      ensures newBlock != null ==>
        blockIndex.Newest(|ring|) == old(blockIndex.Newest(|ring|)) + [blockIndex.index[blockIndex.tail]]
    {
      hide Linked, Placed, Counters, Window, Refused, Shown, FullAt, Counted, IsPowerOfTwo, Back, Wrap, BaseOf;
      EndBound();
      RefusedIsFull(End());
      if Refused(at) {
        return null, false;
      }
      var entry;
      IndexFacts();
      entry, grew := blockIndex.Insert(canAlloc, mallocOk, at, BaseOf(head), ring);
      if entry == null {
        ShownAgain();
        return null, grew;
      }
      assert entry in blockIndex.index;
      if available == null {
        blockIndex.Withdraw(entry, BaseOf(head), ring);
        ShownAgain();
        return null, grew;
      }
      newBlock := available;
      newBlock.ResetCount();
      Publish(entry, newBlock);
    }

    /** Enters the new block into its index entry and takes it into use. */
    method Publish(entry: Entry<T>, newBlock: Block<T>)
      requires Counters() && Placed() && Linked() && blockIndex.Valid() && !FullAt(End())
      requires blockIndex.present && entry == blockIndex.index[blockIndex.tail]
      requires Window(blockIndex.index, blockIndex.tail, BaseOf(head), ring + [entry.value])
      requires newBlock !in ring && newBlock.Vacant() && newBlock.elementsCompletelyDequeued == 0
      modifies this`ring, entry
      ensures Sound() && ring == old(ring) + [newBlock]
    {
      hide Placed, Window, Counters;
      ghost var n, top := |ring|, blockIndex.tail;
      WindowFits(blockIndex.index, top, BaseOf(head), ring + [entry.value]);
      BackZero(top, |blockIndex.index|);
      blockIndex.Store(entry, newBlock, top, BaseOf(head), ring + [entry.value], n);
      assert (ring + [old(entry.value)])[n := newBlock] == ring + [newBlock];
      EndPlaced();
      HoldingNothing(newBlock, End(), head, contents);
      ring := ring + [newBlock];
      MorePlaced();
    }

    lemma EndPlaced()
      requires Placed()
      ensures Tail() <= End()
    {
    }

    twostate lemma MorePlaced()
      requires old(Counters() && Placed() && !FullAt(End())) && |ring| == |old(ring)| + 1
      requires unchanged(`head, `contents, `tailIndex, `headIndex, `dequeueOptimisticCount, `dequeueOvercommit)
      ensures Counters() && Placed()
    {
      WholeBlocks(|ring|, HALF);
      if maxSubqueueSize != SIZE_MAX {
        WholeBlocks(|ring|, maxSubqueueSize);
      }
    }

    lemma EndBound()
      requires Sound()
      ensures Counters() && Placed() && Linked() && head <= End() <= head + HALF
    {
    }

    lemma ShownAgain()
      requires blockIndex.Valid() && blockIndex.Shows(BaseOf(head), ring)
      ensures Shown()
    {
    }

    lemma IndexFacts()
      requires Sound()
      ensures blockIndex.Valid() && blockIndex.Shows(BaseOf(head), ring) && BaseOf(head) % BLOCK_SIZE == 0
    {
    }

    /** Puts the element into the cell of the tail index, which is in the last block. */
    method Construct(element: T)
      requires Sound() && ring != [] && tailBlock == ring[|ring| - 1]
      requires End() - BLOCK_SIZE <= Tail() < End()
      modifies this`tailIndex, this`contents, ring
      ensures Valid() && contents == old(contents) + [element] && head == old(head) && ring == old(ring)
    {
      hide Counters, Placed, Shown, BaseOf, Holding, IsPowerOfTwo, Cell;
      TailCell();
      IndexFacts();
      ghost var n, base, more := |ring|, BaseOf(head), contents + [element];
      var cell := tailIndex % BLOCK_SIZE;
      Parts(tailBlock, base + BLOCK_SIZE * (n - 1), head, contents);
      CellsPushed(tailBlock.elements, base + BLOCK_SIZE * (n - 1), head, contents, element, cell);
      tailBlock.elements := tailBlock.elements[cell := Some(element)];
      Whole(tailBlock, base + BLOCK_SIZE * (n - 1), head, more);
      forall i | 0 <= i < n ensures Holding(ring[i], base + BLOCK_SIZE * i, head, more) {
        if i < n - 1 {
          assert old(Holding(ring[i], base + BLOCK_SIZE * i, head, contents));
          CellsBefore(base + BLOCK_SIZE * i, head, contents, element);
          HoldingElsewhere(ring[i], base + BLOCK_SIZE * i, head, contents, head, more);
        }
      }
      assert Stored(ring, base, head, more);
      tailIndex := Wrap(tailIndex + 1);
      contents := more;
      Constructed(element);
    }

    /** The cell of the tail index, and the last block in view of the others. */
    lemma TailCell()
      requires Sound() && ring != [] && End() - BLOCK_SIZE <= Tail() < End()
      ensures tailIndex % BLOCK_SIZE == Tail() - (End() - BLOCK_SIZE)
      ensures Stored(ring, BaseOf(head), head, contents) && Distinct(ring)
    {
      hide Linked, Shown, Wrap;
      CellOfWord(Tail());
      RemainderFrom(Tail(), BaseOf(head), |ring| - 1);
      hide *;
      LinkedParts();
    }

    lemma LinkedParts()
      requires Sound()
      ensures Stored(ring, BaseOf(head), head, contents) && Distinct(ring)
    {
    }

    twostate lemma Constructed(element: T)
      requires old(Sound() && ring != [] && tailBlock == ring[|ring| - 1] && End() - BLOCK_SIZE <= Tail() < End())
      requires contents == old(contents) + [element] && tailIndex == Wrap(old(tailIndex) + 1)
      requires unchanged(`headIndex, `dequeueOptimisticCount, `dequeueOvercommit, `tailBlock, `head, `ring)
      requires blockIndex.Valid() && blockIndex.Shows(BaseOf(head), ring)
      requires Distinct(ring) && Stored(ring, BaseOf(head), head, contents)
      ensures Valid()
    {
      hide Stored, Distinct, Counts, Window, IsPowerOfTwo;
      CountsPushed(old(tailIndex), headIndex, dequeueOptimisticCount, dequeueOvercommit, head, old(|contents|), 1);
    }

    /** Appends the element if there is room; a failed call leaves everything the queue
        shows as it was. */
    method Enqueue(element: T, canAlloc: bool, mallocOk: bool, available: Block?<T>) returns (ok: bool)
      requires Valid() && (available != null ==> available !in ring && available.Vacant())
      modifies this`tailIndex, this`tailBlock, this`contents, this`ring, ring, blockIndex, blockIndex.index, available
      ensures Valid()
      ensures ok <==> old(Tail() % BLOCK_SIZE != 0 || CanAdd(canAlloc, mallocOk, available))
      ensures contents == if ok then old(contents) + [element] else old(contents)
      ensures ring == if ok && old(Tail()) % BLOCK_SIZE == 0 then old(ring) + [available] else old(ring)
      ensures !ok ==> tailIndex == old(tailIndex) && tailBlock == old(tailBlock)
      ensures !ok ==> blockIndex.Newest(|ring|) == old(blockIndex.Newest(|ring|))
      ensures blockIndex.present == old(blockIndex.present) && (!ok && available != null ==> unchanged(available))
    {
      hide Sound, CanAdd, Counted;
      EndOfRing();
      if tailIndex % BLOCK_SIZE == 0 {
        TailWord();
        var newBlock, grew := TryAddBlock(tailIndex, canAlloc, mallocOk, available);
        if newBlock == null {
          return false;
        }
        SetTail(newBlock);
      }
      Construct(element);
      return true;
    }

    method SetTail(block: Block<T>)
      requires Sound()
      modifies this`tailBlock
      ensures Sound() && tailBlock == block
    {
      tailBlock := block;
    }

    lemma TailWord()
      requires Sound()
      ensures tailIndex == Wrap(Tail())
    {
    }

    // ---- dequeueing ----

    /** While elements are stored, the head index is in the first block. */
    lemma HeadFacts()
      requires Valid() && contents != []
      ensures ring != [] && blockIndex.present && blockIndex.Valid() && headIndex == Wrap(head)
      ensures Window(blockIndex.index, blockIndex.tail, BaseOf(head), ring) && BLOCK_SIZE * |ring| <= HALF
      ensures Stored(ring, BaseOf(head), head, contents) && Distinct(ring)
      ensures headIndex % BLOCK_SIZE == head - BaseOf(head)
    {
      hide Wrap, Stored, Distinct, Window;
      CellOfWord(head);
    }

    /** Moves the oldest element out of its block and counts its cell as dequeued. */
    method TakeOut(block: Block<T>, index: nat) returns (element: T, empty: bool)
      requires ring != [] && block == ring[0] && contents != [] && Stored(ring, BaseOf(head), head, contents)
      requires Distinct(ring)
      requires index % BLOCK_SIZE == head - BaseOf(head)
      modifies block
      ensures element == contents[0] && (empty <==> head - BaseOf(head) == BLOCK_SIZE - 1)
      ensures (empty ==> block.Vacant()) && Distinct(ring[1..])
      ensures BaseOf(head + 1) == if empty then BaseOf(head) + BLOCK_SIZE else BaseOf(head)
      ensures Stored(if empty then ring[1..] else ring, BaseOf(head + 1), head + 1, contents[1..])
    {
      hide Holding, Cell, BaseOf;
      ghost var base, rest := BaseOf(head), contents[1..];
      NextBase(head);
      Parts(block, base, head, contents);
      CellsPopped(block.elements, base, head, contents, index % BLOCK_SIZE);
      element := block.elements[index % BLOCK_SIZE].value;
      block.elements := block.elements[index % BLOCK_SIZE := None];
      empty := block.CountEmpty();
      forall i | 1 <= i < |ring| ensures Holding(ring[i], base + BLOCK_SIZE * i, head + 1, rest) {
        assert ring[i] != block;
        assert old(Holding(ring[i], base + BLOCK_SIZE * i, head, contents));
        CellsBehind(base + BLOCK_SIZE * i, head, contents);
        HoldingElsewhere(ring[i], base + BLOCK_SIZE * i, head, contents, head + 1, rest);
      }
      if !empty {
        Whole(block, base, head + 1, rest);
      }
    }

    /** Takes the oldest block out of the index. */
    method GiveBack(entry: Entry<T>)
      requires ring != [] && blockIndex.present && blockIndex.Valid()
      requires Window(blockIndex.index, blockIndex.tail, BaseOf(head), ring)
      requires |ring| <= |blockIndex.index| && blockIndex.tail < |blockIndex.index|
      requires entry == blockIndex.index[Back(blockIndex.tail, |ring| - 1, |blockIndex.index|)]
      modifies this`ring, entry
      ensures ring == old(ring)[1..]
      ensures blockIndex.Valid() && Window(blockIndex.index, blockIndex.tail, BaseOf(head) + BLOCK_SIZE, ring)
    {
      hide Window, IsPowerOfTwo, Back, Distinct;
      ghost var shown: seq<Block?<T>> := ring;
      blockIndex.Store(entry, null, blockIndex.tail, BaseOf(head), shown, 0);
      WindowShortened(blockIndex.index, blockIndex.tail, BaseOf(head), shown[0 := null]);
      assert shown[0 := null][1..] == ring[1..];
      ring := ring[1..];
    }

    /** Takes the element that the counts promise. */
    method TakeFirst() returns (element: T, released: Block?<T>)
      requires Valid() && contents != [] && tailIndex < WORD && dequeueOptimisticCount < WORD && headIndex < WORD
      requires CircularLess(Wrap(dequeueOptimisticCount - dequeueOvercommit), tailIndex)
      modifies this`headIndex, this`dequeueOptimisticCount, this`head, this`contents, this`ring, ring, blockIndex.index
      ensures Valid() && [element] + contents == old(contents)
      ensures released != null <==> old(head - BaseOf(head)) == BLOCK_SIZE - 1
      ensures if released == null then ring == old(ring) else old(ring) == [released] + ring && released.Vacant()
    {
      hide Valid, Sound, Snug, Counters, Placed, Linked, Shown, Stored, Distinct, Window, IsPowerOfTwo, Back, Wrap;
      hide CircularLess, BaseOf;
      HeadFacts();
      WindowFits(blockIndex.index, blockIndex.tail, BaseOf(head), ring);
      var myDequeueCount: int := dequeueOptimisticCount;
      dequeueOptimisticCount := Wrap(dequeueOptimisticCount + 1);
      // Nobody else runs, so the count is still below the tail.
      assert CircularLess(Wrap(myDequeueCount - dequeueOvercommit), tailIndex);
      var index := headIndex;
      headIndex := Wrap(headIndex + 1);
      BackZero(blockIndex.tail, |blockIndex.index|);
      NextBase(head);
      var entry := blockIndex.Lookup(index, head, 0, blockIndex.tail, BaseOf(head), ring);
      var block: Block<T> := entry.value;
      var empty;
      element, empty := TakeOut(block, index);
      released := null;
      if empty {
        assert entry in blockIndex.index;
        GiveBack(entry);
        released := block;
      }
      head, contents := head + 1, contents[1..];
      Dequeued(empty);
    }

    /** Takes the oldest element, if there is one; a block that has become empty leaves the
        index and goes back. A block is never reused in place, so that the size check at
        each addition keeps the stored indices comparable. */
    method Dequeue() returns (element: Option<T>, released: Block?<T>)
      requires Valid()
      modifies this`headIndex, this`dequeueOptimisticCount, this`head, this`contents, this`ring, ring, blockIndex.index
      ensures Valid()
      ensures if old(contents) != [] then element == Some(old(contents)[0]) && contents == old(contents)[1..]
              else element == None && contents == [] && released == null
      ensures released != null <==> element.Some? && old(head - BaseOf(head)) == BLOCK_SIZE - 1
      ensures if released == null then ring == old(ring)
              else old(ring) == [released] + ring && released.Vacant()
      ensures blockIndex.present == old(blockIndex.present)
    {
      hide Valid, Sound, Snug, Stored, Distinct, BaseOf, CircularLess, Wrap;
      element, released := None, null;
      DequeueTest();
      if CircularLess(Wrap(dequeueOptimisticCount - dequeueOvercommit), tailIndex) {
        var x;
        x, released := TakeFirst();
        element := Some(x);
      }
    }

    lemma DequeueTest()
      requires Valid()
      ensures dequeueOptimisticCount < WORD && dequeueOvercommit < WORD && tailIndex < WORD && headIndex < WORD
      ensures CircularLess(Wrap(dequeueOptimisticCount - dequeueOvercommit), tailIndex) <==> contents != []
    {
      hide Wrap, Stored, Distinct, Window, CircularLess;
      EndBound();
      CountsCompare(tailIndex, headIndex, dequeueOptimisticCount, dequeueOvercommit, head, |contents|);
    }

    twostate lemma Dequeued(empty: bool)
      requires old(Valid()) && old(contents) != [] && old(ring) != []
      requires head == old(head) + 1 && contents == old(contents)[1..] && ring == old(if empty then ring[1..] else ring)
      requires headIndex == Wrap(old(headIndex) + 1) && dequeueOptimisticCount == Wrap(old(dequeueOptimisticCount) + 1)
      requires unchanged(`tailIndex, `dequeueOvercommit, `tailBlock)
      requires BaseOf(head) == if empty then BaseOf(old(head)) + BLOCK_SIZE else BaseOf(old(head))
      requires Distinct(ring) && Stored(ring, BaseOf(head), head, contents)
      requires blockIndex.Valid() && blockIndex.Shows(BaseOf(head), ring)
      ensures Valid()
    {
      hide Stored, Distinct, Counts, Window, IsPowerOfTwo, BaseOf;
      CountsPopped(tailIndex, old(headIndex), old(dequeueOptimisticCount), dequeueOvercommit,
                   old(head), old(|contents|), 1);
    }

    /** While memory lasts nothing is refused: with an index, a vacant block for every 32
        elements and as many allocations, room up to the size limit and fewer than
        2^63 - 64 elements in all, any number of elements finds its blocks. */
    lemma AcceptsWithMemory(count: nat, mallocs: nat, available: nat)
      requires Valid() && blockIndex.present && |contents| + count + 64 < HALF
      requires maxSubqueueSize == SIZE_MAX || |contents| + count + 32 <= maxSubqueueSize
      requires 32 * available >= count && 32 * mallocs >= count
      ensures CanAddAll(BlocksFor(Tail(), count), true, mallocs, available)
    {
      hide Linked, Wrap, Window, PreviousBlock, Growable;
      BulkFacts(count);
      var blocks := BlocksFor(Tail(), count);
      IndexRoom();
      GrowableEnough(|ring| + blocks, |blockIndex.index|, mallocs);
    }

    lemma IndexRoom()
      requires Valid() && blockIndex.present
      ensures |ring| <= |blockIndex.index| && |blockIndex.index| > 0
    {
    }

    /** And so does a single one. */
    lemma AcceptsOneWithMemory(available: Block<T>)
      requires Valid() && blockIndex.present && |contents| + 64 < HALF
      requires maxSubqueueSize == SIZE_MAX || |contents| + 32 <= maxSubqueueSize
      ensures Tail() % BLOCK_SIZE == 0 ==> CanAdd(true, true, available)
    {
      hide Linked, Window;
      EndOfRing();
    }

    /** Without an index nothing is stored. */
    lemma AbsentMeansEmpty()
      requires Valid() && !blockIndex.present
      ensures ring == [] && contents == [] && Tail() % BLOCK_SIZE == 0 && blockIndex.index == []
    {
    }

    // ---- enqueueing in bulk: undoing ----

    /** Frees the index entries of the added blocks one by one, looking each one up while
        the tail slot already goes back. */
    method Unlist(startTailIndex: nat, first: Block?<T>, ghost kept: seq<Block<T>>, ghost added: seq<Block<T>>,
                  ghost end: nat)
      requires blockIndex.Valid() && blockIndex.present && Chain(first, added)
      requires Window(blockIndex.index, blockIndex.tail, BaseOf(head), kept + added)
      requires end == BaseOf(head) + BLOCK_SIZE * |kept| && BLOCK_SIZE * |kept + added| <= HALF
      requires PreviousBlock(startTailIndex) == Wrap(end - BLOCK_SIZE)
      modifies blockIndex`tail, blockIndex.index
      ensures blockIndex.Valid() && Window(blockIndex.index, blockIndex.tail, BaseOf(head), kept)
      ensures blockIndex.Newest(|kept|) == old(Counted(blockIndex.index, blockIndex.tail, |kept + added|))[..|kept|]
    {
      hide Window, Wrap, Back, IsPowerOfTwo, Counted, BaseOf, Distinct;
      ghost var top, n := blockIndex.tail, |kept|;
      ghost var shown: seq<Block?<T>>, i := kept + added, 0;
      WindowFits(blockIndex.index, top, BaseOf(head), shown);
      BackZero(top, |blockIndex.index|);
      var currentTailIndex := PreviousBlock(startTailIndex);
      var block := first;
      while block != null
        invariant i <= |added| && block == if i < |added| then added[i] else null
        invariant currentTailIndex == Wrap(end - BLOCK_SIZE + BLOCK_SIZE * i)
        invariant blockIndex.Valid() && |shown| == n + |added| && shown[..n] == kept
        invariant forall j | n <= j < n + i :: shown[j] == null
        invariant Window(blockIndex.index, top, BaseOf(head), shown)
        invariant blockIndex.tail == Back(top, i, |blockIndex.index|)
        decreases |added| - i
        modifies blockIndex`tail, blockIndex.index
      {
        WrapSub(end - BLOCK_SIZE + BLOCK_SIZE * i, BLOCK_SIZE);
        currentTailIndex := Wrap(currentTailIndex + BLOCK_SIZE);
        UnlistOne(currentTailIndex, top, shown, i, n);
        shown := shown[n + i := null];
        block := block.next;
        i := i + 1;
      }
      WindowRewound(blockIndex.index, top, BaseOf(head), shown, i);
      CountedRewound(blockIndex.index, top, n + i, i);
    }

    method UnlistOne(index: nat, ghost top: nat, ghost shown: seq<Block?<T>>, ghost i: nat, ghost n: nat)
      requires blockIndex.Valid() && blockIndex.present && Window(blockIndex.index, top, BaseOf(head), shown)
      requires n + i < |shown| && BLOCK_SIZE * |shown| <= HALF && top < |blockIndex.index|
      requires |shown| <= |blockIndex.index|
      requires index == Wrap(BaseOf(head) + BLOCK_SIZE * (n + i)) && blockIndex.tail == Back(top, i, |blockIndex.index|)
      modifies blockIndex`tail, blockIndex.index
      ensures blockIndex.Valid() && Window(blockIndex.index, top, BaseOf(head), shown[n + i := null])
      ensures blockIndex.tail == Back(top, i + 1, |blockIndex.index|)
    {
      hide Window, Wrap, Back, IsPowerOfTwo, Distinct;
      ghost var wanted := BaseOf(head) + BLOCK_SIZE * (n + i);
      assert (wanted - BaseOf(head)) / BLOCK_SIZE == n + i;
      var entry := blockIndex.Lookup(index, wanted, i, top, BaseOf(head), shown);
      assert entry in blockIndex.index;
      blockIndex.Store(entry, null, top, BaseOf(head), shown, n + i);
      BackOfBack(top, i, 1, |blockIndex.index|);
      BackZero(top, |blockIndex.index|);
      blockIndex.Rewind();
    }

    // ---- enqueueing in bulk: allocating ----

    /** taken blocks of the supply are chained behind the kept ones; partial tells whether
        the last kept block is still being filled. */
    ghost predicate Adding(kept: seq<Block<T>>, supply: seq<Block<T>>, taken: nat, partial: bool)
      reads this, kept, supply
    {
      && taken <= |supply| && ring == kept + supply[..taken] && Distinct(kept + supply)
      && (forall j | taken <= j < |supply| :: supply[j].Vacant())
      && Links(kept, supply, taken, partial)
    }

    ghost predicate Links(kept: seq<Block<T>>, supply: seq<Block<T>>, taken: nat, partial: bool)
      requires taken <= |supply|
      reads this, kept, supply
    {
      && (forall j | 0 <= j < taken :: supply[j].next == NextOf(supply, taken, j))
      && (partial ==> kept != [])
      && (taken > 0 ==> tailBlock == supply[taken - 1])
      && (taken == 0 && partial ==> tailBlock == kept[|kept| - 1])
      && (taken > 0 && partial ==> kept[|kept| - 1].next == supply[0])
    }

    /** Sets the next pointer of a block in use. */
    method SetNext(block: Block<T>, next: Block?<T>)
      requires Sound() && block in ring
      modifies block`next
      ensures Sound() && block.next == next
    {
      block.next := next;
      assert Stored(ring, BaseOf(head), head, contents) by {
        forall i | 0 <= i < |ring| ensures Holding(ring[i], BaseOf(head) + BLOCK_SIZE * i, head, contents) {
          assert old(Holding(ring[i], BaseOf(head) + BLOCK_SIZE * i, head, contents));
        }
      }
    }

    /** Takes the next block of the supply, if all goes well, and chains it behind the others. */
    method ChainOne(at: nat, canAlloc: bool, mallocOk: bool, supply: seq<Block<T>>, taken: nat, partial: bool,
                    ghost kept: seq<Block<T>>, ghost window: seq<Entry<T>>) returns (added: bool, grew: bool)
      requires Sound() && Adding(kept, supply, taken, partial) && at == Wrap(End())
      requires window <= blockIndex.Newest(|ring|)
      modifies this`ring, this`tailBlock, kept, supply, blockIndex, blockIndex.index
      ensures Sound() && blockIndex.present == old(blockIndex.present) && window <= blockIndex.Newest(|ring|)
      ensures added <==> old(CanAdd(canAlloc, mallocOk, if taken < |supply| then supply[taken] else null))
      ensures Adding(kept, supply, if added then taken + 1 else taken, partial)
      ensures !added ==> tailBlock == old(tailBlock)
      ensures |blockIndex.index| == if grew then 2 * old(|blockIndex.index|) else old(|blockIndex.index|)
      ensures added ==> (grew <==> old(|ring| == |blockIndex.index|))
      ensures forall e | e in blockIndex.index :: e in old(blockIndex.index) || fresh(e)
    {
      hide Sound, CanAdd, Counted, End, Distinct;
      var available: Block?<T> := if taken < |supply| then supply[taken] else null;
      Untaken(kept, supply, taken);
      var newBlock;
      newBlock, grew := TryAddBlock(at, canAlloc, mallocOk, available);
      if newBlock == null {
        return false, grew;
      }
      assert ring == kept + supply[..taken + 1];
      LinkNew(newBlock, supply, taken, partial, kept);
      return true, grew;
    }

    /** Chains a block that has just been taken behind the others. */
    method LinkNew(newBlock: Block<T>, supply: seq<Block<T>>, taken: nat, partial: bool, ghost kept: seq<Block<T>>)
      requires Sound() && taken < |supply| && newBlock == supply[taken] && ring == kept + supply[..taken + 1]
      requires Distinct(kept + supply) && Links(kept, supply, taken, partial)
      modifies this`tailBlock, kept, supply
      ensures forall b | b in kept + supply :: b.elements == old(b.elements) && b.emptyFlags == old(b.emptyFlags)
      ensures Sound() && Links(kept, supply, taken + 1, partial)
    {
      hide Sound, Distinct;
      Untaken(kept, supply, taken);
      SetNext(newBlock, null);
      if partial || taken > 0 {
        SetNext(tailBlock, newBlock);
      }
      SetTail(newBlock);
    }

    /** The rest of the supply differs from the blocks in use. */
    lemma Untaken(kept: seq<Block<T>>, supply: seq<Block<T>>, taken: nat)
      requires taken <= |supply| && Distinct(kept + supply)
      ensures taken < |supply| ==> supply[taken] !in kept + supply[..taken]
      ensures forall i, j | 0 <= i < j < |supply| :: supply[i] != supply[j]
      ensures forall i, j | 0 <= i < |kept| && 0 <= j < |supply| :: kept[i] != supply[j]
    {
      forall i, j | 0 <= i < j < |supply| ensures supply[i] != supply[j] {
        assert (kept + supply)[|kept| + i] == supply[i] && (kept + supply)[|kept| + j] == supply[j];
      }
      forall i, j | 0 <= i < |kept| && 0 <= j < |supply| ensures kept[i] != supply[j] {
        assert (kept + supply)[i] == kept[i] && (kept + supply)[|kept| + j] == supply[j];
      }
    }

    lemma LeftOver(kept: seq<Block<T>>, supply: seq<Block<T>>, taken: nat, partial: bool)
      requires Adding(kept, supply, taken, partial)
      ensures forall j | taken <= j < |supply| :: supply[j].Vacant() && supply[j] !in ring
    {
      hide Links, Distinct;
      Untaken(kept, supply, taken);
    }

    lemma RingFits(kept: seq<Block<T>>, supply: seq<Block<T>>, taken: nat, partial: bool)
      requires Sound() && Adding(kept, supply, taken, partial)
      ensures taken <= |supply| && ring == kept + supply[..taken] && |ring| == |kept| + taken
      ensures if blockIndex.present then |ring| <= |blockIndex.index| else ring == []
    {
      hide Stored, Distinct, Back;
    }

    lemma EndIs(end: nat, n: nat, taken: nat)
      requires |ring| == n + taken
      ensures End() == BaseOf(head) + BLOCK_SIZE * n + BLOCK_SIZE * taken
    {
    }

    /** What it takes to add the next block, and why the rest is hopeless without it. */
    lemma StepReason(end: nat, canAlloc: bool, left: nat, supply: seq<Block<T>>, taken: nat, blocks: nat,
                     kept: seq<Block<T>>)
      requires taken < blocks && taken <= |supply| && End() == end + BLOCK_SIZE * taken && |ring| == |kept| + taken
      requires (if blockIndex.present then |ring| <= |blockIndex.index| else ring == []) && (canAlloc || left == 0)
      ensures var can := CanAdd(canAlloc, left > 0, if taken < |supply| then supply[taken] else null);
        && (can ==> !FullAt(End()) && blockIndex.present && taken < |supply|)
        && (can && |ring| == |blockIndex.index| ==> left > 0)
        && (can && |ring| == |blockIndex.index| ==>
              (Growable(|kept| + blocks, |blockIndex.index|, left)
               <==> Growable(|kept| + blocks, 2 * |blockIndex.index|, left - 1)))
        && (!can ==> FullAt(end + BLOCK_SIZE * (blocks - 1)) || !blockIndex.present
                     || !Growable(|kept| + blocks, |blockIndex.index|, left) || blocks > |supply|)
    {
      if blockIndex.present && |ring| == |blockIndex.index| {
        GrowOnce(|kept| + blocks, |blockIndex.index|, left);
      }
    }

    lemma StartAdding(supply: seq<Block<T>>)
      requires Valid() && Distinct(ring + supply) && forall j | 0 <= j < |supply| :: supply[j].Vacant()
      ensures Sound() && Adding(ring, supply, 0, tailIndex % BLOCK_SIZE != 0)
      ensures PreviousBlock(tailIndex) == Wrap(End() - BLOCK_SIZE)
    {
      hide Linked, Shown, Distinct, Wrap, PreviousBlock;
      EndOfRing();
      PreviousOfEnd(Tail(), End());
      assert ring == ring + supply[..0];
    }

    /** All the blocks of a bulk enqueue can be added. */
    ghost predicate CanAddAll(blocks: nat, canAlloc: bool, mallocs: nat, available: nat)
      reads this, blockIndex
    {
      blocks == 0 ||
      (!FullAt(End() + BLOCK_SIZE * (blocks - 1)) && blockIndex.present
       && Growable(|ring| + blocks, |blockIndex.index|, if canAlloc then mallocs else 0) && blocks <= available)
    }

    /** Adds the blocks of a bulk enqueue, stopping at the first failure. */
    method Allocate(startTailIndex: nat, blockBaseDiff: nat, canAlloc: bool, mallocs: nat, supply: seq<Block<T>>,
                    ghost blocks: nat)
      returns (ok: bool, taken: nat)
      requires Valid() && startTailIndex == tailIndex && blockBaseDiff == BLOCK_SIZE * blocks
      requires Distinct(ring + supply) && forall j | 0 <= j < |supply| :: supply[j].Vacant()
      modifies this`ring, this`tailBlock, ring, supply, blockIndex, blockIndex.index
      ensures Sound() && Adding(old(ring), supply, taken, startTailIndex % BLOCK_SIZE != 0)
      ensures taken <= |supply| && ring == old(ring) + supply[..taken]
      ensures ok <==> old(CanAddAll(blocks, canAlloc, mallocs, |supply|))
      ensures if ok then taken == blocks else taken < blocks
      ensures taken > 0 ==> blockIndex.present
      ensures old(blockIndex.Newest(|ring|)) <= blockIndex.Newest(|ring|)
      ensures forall e | e in blockIndex.index :: e in old(blockIndex.index) || fresh(e)
      ensures taken == 0 ==> tailBlock == old(tailBlock)
      ensures blockIndex.present == old(blockIndex.present)
    {
      hide Sound, Valid, Adding, Counted, IsPowerOfTwo, Growable, CanAdd, End, Wrap, PreviousBlock;
      ghost var kept, window := ring, blockIndex.Newest(|ring|);
      var partial := startTailIndex % BLOCK_SIZE != 0;
      StartAdding(supply);
      ghost var end, goal := End(), |ring| + blocks;
      EndIs(end, |kept|, 0);
      var left: nat := if canAlloc then mallocs else 0;
      ghost var promised := Growable(goal, |blockIndex.index|, left);
      var diff := blockBaseDiff;
      var currentTailIndex := PreviousBlock(startTailIndex);
      taken := 0;
      while diff > 0
        invariant taken <= blocks && diff == BLOCK_SIZE * (blocks - taken)
        invariant Sound() && Adding(kept, supply, taken, partial) && window <= blockIndex.Newest(|ring|)
        invariant end == BaseOf(head) + BLOCK_SIZE * |kept|
        invariant End() == end + BLOCK_SIZE * taken && currentTailIndex == Wrap(End() - BLOCK_SIZE)
        invariant |ring| == |kept| + taken
        invariant taken > 0 ==> !FullAt(end + BLOCK_SIZE * (taken - 1)) && blockIndex.present && taken <= |supply|
        invariant blockIndex.present == old(blockIndex.present) && (canAlloc || left == 0)
        invariant Growable(goal, |blockIndex.index|, left) <==> promised
        invariant forall e | e in blockIndex.index :: e in old(blockIndex.index) || fresh(e)
        invariant taken == 0 ==> tailBlock == old(tailBlock)
        decreases diff
      {
        diff := diff - BLOCK_SIZE;
        WrapSub(End() - BLOCK_SIZE, BLOCK_SIZE);
        currentTailIndex := Wrap(currentTailIndex + BLOCK_SIZE);
        RingFits(kept, supply, taken, partial);
        forall i | 0 <= i < |blockIndex.index|
          ensures blockIndex.index[i] in old(blockIndex.index) || fresh(blockIndex.index[i])
        {
          assert blockIndex.index[i] in blockIndex.index;
        }
        StepReason(end, canAlloc, left, supply, taken, blocks, kept);
        var added, grew := ChainOne(currentTailIndex, canAlloc, left > 0, supply, taken, partial, kept, window);
        if !added {
          RingFits(kept, supply, taken, partial);
          return false, taken;
        }
        if grew {
          left := left - 1;
        }
        taken := taken + 1;
        RingFits(kept, supply, taken, partial);
        EndIs(end, |kept|, taken);
      }
      RingFits(kept, supply, taken, partial);
      if blockIndex.present {
        Fits(goal, |blockIndex.index|, left);
      }
      return true, taken;
    }

    /** Takes a failed bulk enqueue back: the index entries are freed, the tail block is
        again what it was, and all blocks taken are handed back. */
    method Undo(startBlock: Block?<T>, firstAllocatedBlock: Block?<T>, ghost kept: seq<Block<T>>,
                ghost supply: seq<Block<T>>,
                ghost taken: nat, ghost partial: bool) returns (returned: seq<Block<T>>)
      requires Sound() && Adding(kept, supply, taken, partial) && (taken > 0 ==> blockIndex.present)
      requires firstAllocatedBlock == if taken == 0 then null else supply[0]
      requires Tail() <= BaseOf(head) + BLOCK_SIZE * |kept| < Tail() + BLOCK_SIZE
      requires Tail() % BLOCK_SIZE != 0 ==> kept != [] && startBlock == kept[|kept| - 1]
      modifies this`ring, this`tailBlock, blockIndex`tail, blockIndex.index
      ensures Valid() && ring == kept && tailBlock == startBlock
      ensures returned == supply[..taken] && forall b | b in supply :: b.Vacant()
      ensures |kept| <= |old(blockIndex.Newest(|ring|))| ==>
        blockIndex.Newest(|kept|) == old(blockIndex.Newest(|ring|))[..|kept|]
    {
      hide Sound, Valid, Adding, Links, Window, IsPowerOfTwo, Stored, Distinct, PreviousBlock, Counts, Wrap, Counted;
      hide BaseOf, Chain;
      AddedFacts(kept, supply, taken, partial);
      AddedBounds(kept, supply, taken);
      var startTailIndex := tailIndex;
      if firstAllocatedBlock != null {
        Unlist(startTailIndex, firstAllocatedBlock, kept, supply[..taken], BaseOf(head) + BLOCK_SIZE * |kept|);
      }
      returned := ChainList(firstAllocatedBlock, supply[..taken]);
      assert taken == 0 ==> kept + supply[..taken] == kept;
      tailBlock := startBlock;
      ring := kept;
      Restored();
    }

    lemma AddedBounds(kept: seq<Block<T>>, supply: seq<Block<T>>, taken: nat)
      requires Sound() && taken <= |supply| && ring == kept + supply[..taken]
      ensures Counts(tailIndex, headIndex, dequeueOptimisticCount, dequeueOvercommit, head, |contents|)
      ensures BLOCK_SIZE * |kept| <= BLOCK_SIZE * |ring| <= HALF && End() < head + HALF
      ensures maxSubqueueSize != SIZE_MAX ==>
        maxSubqueueSize % BLOCK_SIZE == 0 && BLOCK_SIZE * |kept| <= BLOCK_SIZE * |ring| <= maxSubqueueSize
      ensures blockIndex.Valid() && blockIndex.Shows(BaseOf(head), ring)
      ensures blockIndex.present ==> blockIndex.tail < |blockIndex.index| && |ring| <= |blockIndex.index|
    {
      hide Linked, Counts;
    }

    /** The parts make up the whole. */
    lemma Restored()
      requires Counts(tailIndex, headIndex, dequeueOptimisticCount, dequeueOvercommit, head, |contents|)
      requires Tail() <= End() < Tail() + BLOCK_SIZE && End() < head + HALF
      requires maxSubqueueSize != SIZE_MAX ==>
        maxSubqueueSize % BLOCK_SIZE == 0 && BLOCK_SIZE * |ring| <= maxSubqueueSize
      requires Stored(ring, BaseOf(head), head, contents) && Distinct(ring)
      requires blockIndex.Valid() && blockIndex.Shows(BaseOf(head), ring)
      requires Tail() % BLOCK_SIZE != 0 ==> ring != [] && tailBlock == ring[|ring| - 1]
      ensures Valid()
    {
      hide Stored, Distinct, Counts, Window, IsPowerOfTwo;
    }

    lemma LinksChain(kept: seq<Block<T>>, supply: seq<Block<T>>, taken: nat, partial: bool)
      requires taken <= |supply| && Links(kept, supply, taken, partial)
      ensures Chain(if taken == 0 then null else supply[0], supply[..taken])
    {
      var blocks := supply[..taken];
      forall j | 0 <= j < taken ensures blocks[j].next == NextOf(blocks, taken, j) {
        assert blocks[j] == supply[j] && NextOf(blocks, taken, j) == NextOf(supply, taken, j);
      }
    }

    lemma AddedFacts(kept: seq<Block<T>>, supply: seq<Block<T>>, taken: nat, partial: bool)
      requires Sound() && Adding(kept, supply, taken, partial)
      requires Tail() <= BaseOf(head) + BLOCK_SIZE * |kept| < Tail() + BLOCK_SIZE
      ensures taken <= |supply| && ring == kept + supply[..taken]
      ensures Chain(if taken == 0 then null else supply[0], supply[..taken])
      ensures PreviousBlock(tailIndex) == Wrap(BaseOf(head) + BLOCK_SIZE * |kept| - BLOCK_SIZE)
      ensures Stored(kept, BaseOf(head), head, contents) && Distinct(kept)
      ensures forall b | b in supply :: b.Vacant()
    {
      hide Shown, Wrap, PreviousBlock, Holding;
      PreviousOfEnd(Tail(), BaseOf(head) + BLOCK_SIZE * |kept|);
      LinksChain(kept, supply, taken, partial);
      forall i | 0 <= i < |kept| ensures Holding(kept[i], BaseOf(head) + BLOCK_SIZE * i, head, contents) {
        assert ring[i] == kept[i];
      }
      forall j | 0 <= j < |supply| ensures supply[j].Vacant() {
        if j < taken {
          assert ring[|kept| + j] == supply[j];
          VacantBeyond(supply[j], BaseOf(head) + BLOCK_SIZE * (|kept| + j), head, contents);
        }
      }
      forall i, j | 0 <= i < j < |kept| ensures kept[i] != kept[j] {
        assert (kept + supply)[i] == kept[i] && (kept + supply)[j] == kept[j];
      }
    }

    // ---- enqueueing in bulk: filling ----

    /** Constructs n items, those from place from on, in block p of the ring. */
    method FillBlock(block: Block<T>, index: nat, stopIndex: nat, items: seq<T>, from: nat, ghost p: nat, ghost n: nat)
      requires from + n <= |items| && Distinct(ring) && Stored(ring, BaseOf(head), head, contents + items[..from])
      requires p < |ring| && block == ring[p]
      requires BaseOf(head) + BLOCK_SIZE * p <= Tail() + from
      requires Tail() + from + n <= BaseOf(head) + BLOCK_SIZE * (p + 1)
      requires n > 0 && index == Wrap(Tail() + from) && stopIndex == Wrap(Tail() + from + n)
      modifies block`elements
      ensures Stored(ring, BaseOf(head), head, contents + items[..from + n])
    {
      hide Holding, BaseOf, Wrap, Cell, Distinct;
      ghost var base, i, more := BaseOf(head), Tail() + from, contents + items[..from + n];
      BaseFacts();
      RemainderFrom(i, base, p);
      Parts(block, base + BLOCK_SIZE * p, head, contents + items[..from]);
      block.MoveIn(index, stopIndex, items, from, i, n);
      forall q | 0 <= q < |ring| ensures Holding(ring[q], base + BLOCK_SIZE * q, head, more) {
        if q == p {
          forall k | 0 <= k < BLOCK_SIZE ensures block.elements[k] == Cell(base + BLOCK_SIZE * p + k, head, more) {
            CellOfMore(base + BLOCK_SIZE * p + k, head, contents, items, from, n);
          }
          Whole(block, base + BLOCK_SIZE * p, head, more);
        } else {
          Apart(p, q);
          assert old(Holding(ring[q], base + BLOCK_SIZE * q, head, contents + items[..from]));
          forall k | base + BLOCK_SIZE * q <= k < base + BLOCK_SIZE * q + BLOCK_SIZE
            ensures Cell(k, head, more) == Cell(k, head, contents + items[..from])
          {
            CellOfMore(k, head, contents, items, from, n);
          }
          HoldingElsewhere(ring[q], base + BLOCK_SIZE * q, head, contents + items[..from], head, more);
        }
      }
    }

    lemma BaseFacts()
      ensures BaseOf(head) % BLOCK_SIZE == 0
    {
    }

    lemma Apart(p: nat, q: nat)
      requires Distinct(ring) && p < |ring| && q < |ring| && p != q
      ensures ring[p] != ring[q]
    {
      assert if p < q then ring[p] != ring[q] else ring[q] != ring[p];
    }

    /** Constructs the items block by block, from the tail block to the end block. */
    method Fill(items: seq<T>, endBlock: Block?<T>, ghost start: nat)
      requires Distinct(ring) && Stored(ring, BaseOf(head), head, contents) && 0 < |items| < HALF
      requires tailIndex == Wrap(Tail()) && start < |ring| && tailBlock == ring[start] && endBlock == ring[|ring| - 1]
      requires BaseOf(head) + BLOCK_SIZE * start <= Tail() < BaseOf(head) + BLOCK_SIZE * (start + 1)
      requires End() - BLOCK_SIZE < Tail() + |items| <= End()
      requires forall q | start <= q < |ring| - 1 :: ring[q].next == ring[q + 1]
      modifies this`tailBlock, ring
      ensures Stored(ring, BaseOf(head), head, contents + items) && tailBlock == endBlock
      ensures forall q | 0 <= q < |ring| :: ring[q].next == old(ring[q].next)
    {
      hide Stored, Wrap, BaseOf, CircularLess, InBlock, Distinct;
      ghost var base, p := BaseOf(head), start;
      var newTailIndex := Wrap(tailIndex + |items|);
      var currentTailIndex, from: nat := tailIndex, 0;
      WrapSub(Tail(), |items|);
      assert contents + items[..0] == contents;
      while true
        invariant start <= p < |ring| && tailBlock == ring[p] && from < |items|
        invariant currentTailIndex == Wrap(Tail() + from)
        invariant base + BLOCK_SIZE * p <= Tail() + from < base + BLOCK_SIZE * (p + 1)
        invariant Stored(ring, base, head, contents + items[..from])
        invariant forall q | 0 <= q < |ring| :: ring[q].next == old(ring[q].next)
        decreases |ring| - p
      {
        ghost var i, last := Tail() + from, Tail() + |items|;
        BlockEnd(i, last);
        ghost var n := InBlock(i, last);
        Share(i, last, base, p, |ring|);
        var stopIndex := Wrap(currentTailIndex - currentTailIndex % BLOCK_SIZE + BLOCK_SIZE);
        stopIndex := if CircularLess(newTailIndex, stopIndex) then newTailIndex else stopIndex;
        FillBlock(tailBlock, currentTailIndex, stopIndex, items, from, p, n);
        from := from + Wrap(stopIndex - currentTailIndex);
        CountOfWords(i, n);
        currentTailIndex := stopIndex;
        SameBlock(p);
        if tailBlock == endBlock {
          break;
        }
        tailBlock := tailBlock.next;
        p := p + 1;
      }
      assert items[..|items|] == items;
    }

    /** A block before the last is filled to its end, the last as far as items are left. */
    lemma Share(i: nat, last: nat, base: nat, p: nat, blocks: nat)
      requires base % BLOCK_SIZE == 0 && base + BLOCK_SIZE * p <= i < base + BLOCK_SIZE * (p + 1) && i < last
      requires p < blocks
      requires base + BLOCK_SIZE * blocks - BLOCK_SIZE < last <= base + BLOCK_SIZE * blocks
      ensures var n := InBlock(i, last);
        && 0 < n && i + n <= base + BLOCK_SIZE * (p + 1) && i + n <= last
        && if p == blocks - 1 then i + n == last else i + n == base + BLOCK_SIZE * (p + 1) && i + n < last
    {
      RemainderFrom(i, base, p);
    }

    lemma SameBlock(p: nat)
      requires Distinct(ring) && p < |ring|
      ensures ring[p] == ring[|ring| - 1] <==> p == |ring| - 1
    {
    }

    lemma WindowLength()
      requires Valid()
      ensures |blockIndex.Newest(|ring|)| == |ring|
    {
    }

    /** The arithmetic on stored indices finds the number of new blocks. */
    lemma BulkFacts(count: nat)
      requires Valid() && count < HALF
      ensures Wrap(PreviousBlock(Wrap(tailIndex + count)) - PreviousBlock(tailIndex))
           == BLOCK_SIZE * BlocksFor(Tail(), count)
      ensures End() == BlockStart(Tail()) && End() + BLOCK_SIZE * BlocksFor(Tail(), count) == BlockStart(Tail() + count)
      ensures Tail() <= End() < Tail() + BLOCK_SIZE && tailIndex == Wrap(Tail())
      ensures tailIndex % BLOCK_SIZE == Tail() % BLOCK_SIZE
      ensures Tail() % BLOCK_SIZE != 0 ==> ring != [] && tailBlock == ring[|ring| - 1]
    {
      hide Linked, Shown, Wrap, PreviousBlock, BlockStart;
      EndOfRing();
      var a, b := BlockStart(Tail()), BlockStart(Tail() + count);
      EndAligned();
      Between(End(), a);
      Between(b, a);
      WrapSub(Tail(), count);
      PreviousOfEnd(Tail(), a);
      PreviousOfEnd(Tail() + count, b);
      CellOfWord(Tail());
      WrapSub(b - BLOCK_SIZE, a - BLOCK_SIZE);
      WrapSmall(b - a);
    }

    lemma EndAligned()
      ensures End() % BLOCK_SIZE == 0
    {
      SameRemainder(End(), BaseOf(head) / BLOCK_SIZE + |ring|, 0);
    }

    /** The blocks that are filled, and how they are chained. */
    lemma FillBlocks(kept: seq<Block<T>>, supply: seq<Block<T>>, taken: nat, partial: bool)
      requires Sound() && Adding(kept, supply, taken, partial)
      ensures taken <= |supply| && ring == kept + supply[..taken] && Distinct(ring)
      ensures Stored(ring, BaseOf(head), head, contents)
      ensures (partial ==> kept != []) && tailIndex == Wrap(Tail())
      ensures taken > 0 ==> tailBlock == ring[|ring| - 1] && ring[|kept|] == supply[0]
      ensures forall q | (if partial then |kept| - 1 else |kept|) <= q < |ring| - 1 :: ring[q].next == ring[q + 1]
    {
      hide Shown, Holding, Distinct, BaseOf;
      LinkedParts();
      forall q | |kept| <= q < |ring| - 1 ensures ring[q].next == ring[q + 1] {
        assert ring[q] == supply[q - |kept|] && supply[q - |kept|].next == NextOf(supply, taken, q - |kept|);
      }
    }

    /** Where in the ring the elements go. */
    lemma FillPlace(n: nat, taken: nat, count: nat)
      requires BaseOf(head) + BLOCK_SIZE * n == BlockStart(Tail()) && taken == BlocksFor(Tail(), count)
      requires |ring| == n + taken
      requires tailIndex % BLOCK_SIZE == Tail() % BLOCK_SIZE && (tailIndex % BLOCK_SIZE != 0 ==> n > 0)
      ensures End() == BlockStart(Tail() + count) && (count == 0 ==> taken == 0)
      ensures var start := if tailIndex % BLOCK_SIZE != 0 then n - 1 else n;
        count > 0 ==> (
          && start < |ring| && (taken > 0 || start == |ring| - 1)
          && BaseOf(head) + BLOCK_SIZE * start <= Tail() < BaseOf(head) + BLOCK_SIZE * (start + 1))
    {
      hide BaseOf, BlockStart;
      Between(BlockStart(Tail() + count), BlockStart(Tail()));
      if Tail() % BLOCK_SIZE == 0 {
        Between(Tail(), BlockStart(Tail()));
      }
    }

    /** Fills the blocks and publishes the elements. */
    method Complete(items: seq<T>, startBlock: Block?<T>, firstAllocatedBlock: Block?<T>, endBlock: Block?<T>,
                    ghost supply: seq<Block<T>>, ghost taken: nat, ghost kept: seq<Block<T>>)
      requires Sound() && Adding(kept, supply, taken, tailIndex % BLOCK_SIZE != 0) && |items| < HALF
      requires tailIndex % BLOCK_SIZE == Tail() % BLOCK_SIZE
      requires BaseOf(head) + BLOCK_SIZE * |kept| == BlockStart(Tail()) && taken == BlocksFor(Tail(), |items|)
      requires firstAllocatedBlock == (if taken == 0 then null else supply[0]) && endBlock == tailBlock
      requires taken == 0 ==> endBlock == startBlock
      requires Tail() % BLOCK_SIZE != 0 ==> kept != [] && startBlock == kept[|kept| - 1]
      modifies this`tailIndex, this`tailBlock, this`contents, ring
      ensures Valid() && contents == old(contents) + items && ring == old(ring) == kept + supply[..taken]
    {
      hide Sound, Snug, Valid, Adding, Links, BlocksFor, BlockStart, Distinct, Stored, BaseOf, Wrap, Counts, Window;
      hide IsPowerOfTwo;
      FillBlocks(kept, supply, taken, tailIndex % BLOCK_SIZE != 0);
      FillPlace(|kept|, taken, |items|);
      AddedBounds(kept, supply, taken);
      var startTailIndex := tailIndex;
      tailBlock := startBlock;
      if startTailIndex % BLOCK_SIZE == 0 && firstAllocatedBlock != null {
        tailBlock := firstAllocatedBlock;
      }
      if |items| > 0 {
        Fill(items, endBlock, if startTailIndex % BLOCK_SIZE != 0 then |kept| - 1 else |kept|);
      } else {
        assert contents + items == contents;
      }
      Advance(items);
    }

    /** Moves the tail index over the items that are in place. */
    method Advance(items: seq<T>)
      requires Counts(tailIndex, headIndex, dequeueOptimisticCount, dequeueOvercommit, head, |contents|)
      requires End() == BlockStart(Tail() + |items|) && End() < head + HALF
      requires maxSubqueueSize != SIZE_MAX ==>
        maxSubqueueSize % BLOCK_SIZE == 0 && BLOCK_SIZE * |ring| <= maxSubqueueSize
      requires Stored(ring, BaseOf(head), head, contents + items) && Distinct(ring)
      requires blockIndex.Valid() && blockIndex.Shows(BaseOf(head), ring)
      requires (Tail() + |items|) % BLOCK_SIZE != 0 ==> ring != [] && tailBlock == ring[|ring| - 1]
      modifies this`tailIndex, this`contents
      ensures Valid() && contents == old(contents) + items
    {
      hide Valid, BlockStart, Distinct, Stored, BaseOf, Wrap, Counts, Window, IsPowerOfTwo;
      CountsPushed(tailIndex, headIndex, dequeueOptimisticCount, dequeueOvercommit, head, |contents|, |items|);
      tailIndex := Wrap(tailIndex + |items|);
      contents := contents + items;
      Restored();
    }

    // ---- enqueueing in bulk ----

    /** Appends all the items or none. A failed call leaves the elements, the tail index, the
        tail block and the entries of the index as they were, and hands back every block it
        took. It succeeds exactly if all the blocks it needs can be added. */
    method EnqueueBulk(items: seq<T>, canAlloc: bool, mallocs: nat, supply: seq<Block<T>>)
      returns (ok: bool, taken: nat, returned: seq<Block<T>>)
      requires Valid() && |items| < HALF
      requires Distinct(ring + supply) && forall j | 0 <= j < |supply| :: supply[j].Vacant()
      modifies this`tailIndex, this`tailBlock, this`contents, this`ring, ring, supply, blockIndex, blockIndex.index
      ensures Valid() && taken <= |supply|
      ensures ok <==> old(CanAddAll(BlocksFor(Tail(), |items|), canAlloc, mallocs, |supply|))
      ensures contents == if ok then old(contents) + items else old(contents)
      ensures ring == if ok then old(ring) + supply[..taken] else old(ring)
      ensures ok ==> taken == old(BlocksFor(Tail(), |items|)) && returned == []
      ensures !ok ==> returned == supply[..taken] && forall b | b in supply :: b.Vacant()
      ensures forall j | taken <= j < |supply| :: supply[j].Vacant()
      ensures !ok ==> tailIndex == old(tailIndex) && tailBlock == old(tailBlock)
      ensures !ok ==> blockIndex.Newest(|ring|) == old(blockIndex.Newest(|ring|))
      ensures blockIndex.present == old(blockIndex.present)
    {
      hide Valid, Sound, Snug, Adding, Links, Counted, BlocksFor, CanAddAll, BlockStart, PreviousBlock, BaseOf;
      hide Distinct, Wrap;
      WindowLength();
      var startTailIndex, startBlock := tailIndex, tailBlock;
      ghost var kept, blocks := ring, BlocksFor(Tail(), |items|);
      BulkFacts(|items|);
      var blockBaseDiff := Wrap(PreviousBlock(Wrap(startTailIndex + |items|)) - PreviousBlock(startTailIndex));
      ok, taken := Allocate(startTailIndex, blockBaseDiff, canAlloc, mallocs, supply, blocks);
      var firstAllocatedBlock, endBlock := if taken == 0 then null else supply[0], tailBlock;
      returned := [];
      if !ok {
        forall i | 0 <= i < |blockIndex.index|
          ensures blockIndex.index[i] in old(blockIndex.index) || fresh(blockIndex.index[i])
        {
          assert blockIndex.index[i] in blockIndex.index;
        }
        returned := Undo(startBlock, firstAllocatedBlock, kept, supply, taken, startTailIndex % BLOCK_SIZE != 0);
        return;
      }
      forall i | 0 <= i < |ring| ensures ring[i] in kept || ring[i] in supply {
        assert i < |kept| ==> ring[i] == kept[i];
        assert i >= |kept| ==> ring[i] == supply[i - |kept|];
      }
      LeftOver(kept, supply, taken, startTailIndex % BLOCK_SIZE != 0);
      Complete(items, startBlock, firstAllocatedBlock, endBlock, supply, taken, kept);
    }

    /** Without an index a call changes nothing that matters. */
    method RefuseCall(call: Call<T>) returns (ok: bool)
      requires Valid() && !blockIndex.present && (call.BulkCall? ==> |call.items| < HALF)
      requires Distinct(Offered(call)) && forall b | b in Offered(call) :: b.Vacant()
      modifies this, blockIndex, Offered(call)
      ensures Valid() && !blockIndex.present && contents == [] && ring == []
      ensures forall b | b in Offered(call) :: b.Vacant()
      ensures ok <==> call.BulkCall? && call.items == []
    {
      hide Valid, Distinct, Growable, BaseOf;
      AbsentMeansEmpty();
      match call
      case EnqueueCall(element, canAlloc, mallocOk, available) =>
        assert available != null ==> available == Offered(call)[0];
        ok := Enqueue(element, canAlloc, mallocOk, available);
        AbsentMeansEmpty();
      case BulkCall(items, canAlloc, mallocs, supply) =>
        assert ring + supply == supply;
        NothingNeeded(|items|);
        var taken, returned;
        ok, taken, returned := EnqueueBulk(items, canAlloc, mallocs, supply);
        AbsentMeansEmpty();
      case DequeueCall =>
        var element, released := Dequeue();
        ok := element.Some?;
        AbsentMeansEmpty();
    }

    /** At a block boundary only an empty bulk needs no block. */
    lemma NothingNeeded(count: nat)
      requires Tail() % BLOCK_SIZE == 0
      ensures BlocksFor(Tail(), count) == 0 <==> count == 0
    {
    }
  }

  // ---- a producer without an index ----

  datatype Call<T> =
    | EnqueueCall(element: T, canAlloc: bool, mallocOk: bool, available: Block?<T>)
    | BulkCall(items: seq<T>, canAlloc: bool, mallocs: nat, supply: seq<Block<T>>)
    | DequeueCall

  /** The blocks the environment could hand out during a call. */
  function Offered<T>(call: Call<T>): seq<Block<T>> {
    match call
    case EnqueueCall(_, _, _, available) => if available == null then [] else [available]
    case BulkCall(_, _, _, supply) => supply
    case DequeueCall => []
  }

  ghost predicate AllVacant<T>(calls: seq<Call<T>>, blocks: set<Block<T>>)
    reads blocks
  {
    && (forall b | b in blocks :: b.Vacant())
    && (forall i | 0 <= i < |calls| :: Distinct(Offered(calls[i])) && forall b | b in Offered(calls[i]) :: b in blocks)
    && (forall i | 0 <= i < |calls| && calls[i].BulkCall? :: |calls[i].items| < HALF)
  }

  /** If the first block index could not be allocated, no call ever makes up for it: over
      any sequence of calls, and however much memory there is later, every element is
      refused, nothing is dequeued and no block is used. */
  method AbsentIndexRefusesAll<T>(p: ImplicitProducer<T>, calls: seq<Call<T>>, ghost blocks: set<Block<T>>)
    returns (stored: seq<bool>)
    requires p.Valid() && !p.blockIndex.present && AllVacant(calls, blocks)
    modifies p, p.blockIndex, p.blockIndex.index, blocks
    ensures p.Valid() && !p.blockIndex.present && p.contents == [] && p.ring == [] && AllVacant(calls, blocks)
    ensures |stored| == |calls|
    ensures forall i | 0 <= i < |calls| :: stored[i] <==> calls[i].BulkCall? && calls[i].items == []
  {
    stored := [];
    p.AbsentMeansEmpty();
    while |stored| < |calls|
      invariant p.Valid() && !p.blockIndex.present && p.contents == [] && p.ring == [] && AllVacant(calls, blocks)
      invariant |stored| <= |calls| && p.blockIndex.index == []
      invariant forall i | 0 <= i < |stored| :: stored[i] <==> calls[i].BulkCall? && calls[i].items == []
      decreases |calls| - |stored|
    {
      var call := calls[|stored|];
      var ok := p.RefuseCall(call);
      forall b | b in blocks ensures b.Vacant() {
        assert old(b.Vacant());
      }
      p.AbsentMeansEmpty();
      stored := stored + [ok];
    }
  }
}
