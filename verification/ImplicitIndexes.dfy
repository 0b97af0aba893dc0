/** The block index of an implicit producer: a circular, growing array of pointers to
    entries, where an entry is free again once its block has been given back. */
module ImplicitIndexes {

  import opened Basics
  import opened Blocks
  import opened Circular

  const IMPLICIT_INITIAL_INDEX_SIZE: nat := 32

  /** No block starts at an odd index. */
  const INVALID_BLOCK_BASE: nat := 1

  class Entry<T> {
    var key: nat
    var value: Block?<T>

    /** A new entry has no key yet, and no value has been stored in it. */
    constructor ()
      ensures key == INVALID_BLOCK_BASE
    {
      key := INVALID_BLOCK_BASE;
      value := *;
    }

    ghost predicate Free()
      reads this
    {
      key == INVALID_BLOCK_BASE || value == null
    }
  }

  /** The keys, values and free entries of the slots, counted back from slot top: the last
      |blocks| have consecutive bases from firstBase on and these values. */
  ghost predicate Window<T>(index: seq<Entry<T>>, top: nat, firstBase: nat, blocks: seq<Block?<T>>)
    reads index
  {
    && top < |index| && |blocks| <= |index|
    && (forall k | 0 <= k < |blocks| ::
          index[Back(top, k, |index|)].key == Wrap(firstBase + BLOCK_SIZE * (|blocks| - 1 - k)))
    && (forall k | 0 <= k < |blocks| :: index[Back(top, k, |index|)].value == blocks[|blocks| - 1 - k])
    && (forall k | |blocks| <= k < |index| :: index[Back(top, k, |index|)].Free())
  }

  /** The entries in the n slots up to slot top, the oldest first. */
  ghost function Counted<T>(index: seq<Entry<T>>, top: nat, n: nat): (entries: seq<Entry<T>>)
    requires top < |index| && n <= |index|
    ensures |entries| == n
  {
    seq(n, i requires 0 <= i < n => index[Back(top, n - 1 - i, |index|)])
  }

  /** A free slot behind the tail slot becomes the newest of the window. */
  lemma WindowKeyed<T>(index: seq<Entry<T>>, top: nat, firstBase: nat, blocks: seq<Block?<T>>, next: nat)
    requires top < |index| && next == (top + 1) % |index| && |blocks| < |index|
    requires index[next].key == Wrap(firstBase + BLOCK_SIZE * |blocks|)
    requires forall k | 0 <= k < |blocks| ::
      index[Back(top, k, |index|)].key == Wrap(firstBase + BLOCK_SIZE * (|blocks| - 1 - k))
    requires forall k | 0 <= k < |blocks| :: index[Back(top, k, |index|)].value == blocks[|blocks| - 1 - k]
    requires forall k | |blocks| <= k < |index| - 1 :: index[Back(top, k, |index|)].Free()
    ensures Window(index, next, firstBase, blocks + [index[next].value])
    ensures Counted(index, next, |blocks| + 1) == Counted(index, top, |blocks|) + [index[next]]
  {
    BackZero(next, |index|);
    forall k | 0 <= k < |index| - 1 ensures Back(next, k + 1, |index|) == Back(top, k, |index|) {
      NextBack(top, k + 1, |index|);
    }
    forall k | 1 <= k < |index| ensures Back(next, k, |index|) == Back(top, k - 1, |index|) {
      assert Back(next, (k - 1) + 1, |index|) == Back(top, k - 1, |index|);
    }
    var n := |blocks|;
    forall i | 0 <= i < n ensures Counted(index, next, n + 1)[i] == Counted(index, top, n)[i] {
      assert Back(next, n - i, |index|) == Back(top, n - 1 - i, |index|);
    }
  }

  /** The newest m of the window are null: it ends as well at the slot m back. */
  lemma WindowRewound<T>(index: seq<Entry<T>>, top: nat, firstBase: nat, blocks: seq<Block?<T>>, m: nat)
    requires Window(index, top, firstBase, blocks) && m <= |blocks|
    requires forall j | |blocks| - m <= j < |blocks| :: blocks[j] == null
    ensures Window(index, Back(top, m, |index|), firstBase, blocks[..|blocks| - m])
  {
    hide Back, Wrap, Window;
    WindowFits(index, top, firstBase, blocks);
    var n, from, rest := |blocks| - m, Back(top, m, |index|), blocks[..|blocks| - m];
    forall k | 0 <= k < n
      ensures index[Back(from, k, |index|)].key == Wrap(firstBase + BLOCK_SIZE * (n - 1 - k))
      ensures index[Back(from, k, |index|)].value == rest[n - 1 - k]
    {
      BackOfBack(top, m, k, |index|);
      WindowSlot(index, top, firstBase, blocks, m + k);
    }
    forall k | n <= k < |index| ensures index[Back(from, k, |index|)].Free() {
      BackOfBack(top, m, k, |index|);
      WindowSlot(index, top, firstBase, blocks, if m + k < |index| then m + k else m + k - |index|);
    }
    WindowFrom(index, from, firstBase, rest);
  }

  /** One slot of a window. */
  lemma WindowSlot<T>(index: seq<Entry<T>>, top: nat, firstBase: nat, blocks: seq<Block?<T>>, k: nat)
    requires Window(index, top, firstBase, blocks) && k < |index|
    ensures var e := index[Back(top, k, |index|)];
      if k < |blocks| then
        e.key == Wrap(firstBase + BLOCK_SIZE * (|blocks| - 1 - k)) && e.value == blocks[|blocks| - 1 - k]
      else e.Free()
  {
  }

  lemma WindowFrom<T>(index: seq<Entry<T>>, top: nat, firstBase: nat, blocks: seq<Block?<T>>)
    requires top < |index| && |blocks| <= |index|
    requires forall k | 0 <= k < |blocks| ::
      index[Back(top, k, |index|)].key == Wrap(firstBase + BLOCK_SIZE * (|blocks| - 1 - k))
    requires forall k | 0 <= k < |blocks| :: index[Back(top, k, |index|)].value == blocks[|blocks| - 1 - k]
    requires forall k | |blocks| <= k < |index| :: index[Back(top, k, |index|)].Free()
    ensures Window(index, top, firstBase, blocks)
  {
  }

  lemma CountedRewound<T>(index: seq<Entry<T>>, top: nat, n: nat, m: nat)
    requires top < |index| && m <= n <= |index|
    ensures Counted(index, Back(top, m, |index|), n - m) == Counted(index, top, n)[..n - m]
  {
    forall i | 0 <= i < n - m
      ensures Counted(index, Back(top, m, |index|), n - m)[i] == Counted(index, top, n)[i]
    {
      BackOfBack(top, m, n - m - 1 - i, |index|);
    }
  }

  lemma WindowFits<T>(index: seq<Entry<T>>, top: nat, firstBase: nat, blocks: seq<Block?<T>>)
    requires Window(index, top, firstBase, blocks)
    ensures top < |index| && |blocks| <= |index|
  {
  }

  /** The oldest block is null: the window starts as well with the next. */
  lemma WindowShortened<T>(index: seq<Entry<T>>, top: nat, firstBase: nat, blocks: seq<Block?<T>>)
    requires Window(index, top, firstBase, blocks) && blocks != [] && blocks[0] == null
    ensures Window(index, top, firstBase + BLOCK_SIZE, blocks[1..])
  {
  }

  class BlockIndex<T> {
    var present: bool
    var index: seq<Entry<T>>
    var tail: nat
    var nextCapacity: nat

    ghost predicate Valid()
      reads this
    {
      && IsPowerOfTwo(nextCapacity) && nextCapacity >= IMPLICIT_INITIAL_INDEX_SIZE
      && (if present then 2 * |index| == nextCapacity && tail < |index| && Distinct(index) else index == [])
    }

    /** The window ends at the tail slot. */
    ghost predicate Shows(firstBase: nat, blocks: seq<Block?<T>>)
      reads this, index
    {
      if present then Window(index, tail, firstBase, blocks) else blocks == []
    }

    /** The entries in the n newest slots, the oldest first. */
    ghost function Newest(n: nat): seq<Entry<T>>
      reads this
    {
      if present && tail < |index| && n <= |index| then Counted(index, tail, n) else []
    }

    constructor (mallocOk: bool)
      ensures Valid() && Shows(0, []) && present == mallocOk && forall e | e in index :: fresh(e)
    {
      present, index, tail, nextCapacity := false, [], 0, IMPLICIT_INITIAL_INDEX_SIZE;
      new;
      SmallPowers();
      var grown := Grow(mallocOk, 0, []);
    }

    /** The entries in slot order from just behind the tail slot around to it. */
    method Rotated() returns (entries: seq<Entry<T>>)
      requires present && tail < |index|
      ensures |entries| == |index|
      ensures forall k | 0 <= k < |index| :: entries[|index| - 1 - k] == index[Back(tail, k, |index|)]
    {
      hide Back;
      entries := [];
      var position := tail;
      var more := true;
      MaskedBack(tail, |index|, |index|);
      BackZero(tail, |index|);
      while more
        invariant |entries| <= |index| && position == Back(tail, |index| - |entries|, |index|)
        invariant more <==> |entries| < |index|
        invariant forall i | 0 <= i < |entries| :: entries[i] == index[Back(tail, |index| - 1 - i, |index|)]
        decreases |index| - |entries|
      {
        WalkNext(tail, |index| - |entries|, |index|);
        position := (position + 1) % |index|;
        ghost var before := |entries|;
        entries := entries + [index[position]];
        more := position != tail;
      }
      forall k | 0 <= k < |index| ensures entries[|index| - 1 - k] == index[Back(tail, k, |index|)] {
        assert |index| - 1 - (|index| - 1 - k) == k;
      }
    }

    /** Doubles the index (or makes the first one): the old entries in order, then new ones. */
    method Grow(mallocOk: bool, ghost firstBase: nat, ghost blocks: seq<Block?<T>>) returns (grown: bool)
      requires Valid() && Shows(firstBase, blocks)
      modifies this
      ensures grown == mallocOk && Valid() && Shows(firstBase, blocks)
      ensures grown ==> present && |index| == if old(present) then 2 * |old(index)| else old(nextCapacity)
      ensures Newest(|blocks|) == old(Newest(|blocks|))
      ensures forall e | e in index :: e in old(index) || fresh(e)
      ensures !grown ==> unchanged(this)
    {
      if !mallocOk {
        return false;
      }
      hide Window, Distinct, IsPowerOfTwo, Back;
      var prevCapacity := if present then |index| else 0;
      var entryCount := if present then prevCapacity else nextCapacity;
      var newIndex: seq<Entry<T>> := [];
      Doubled(nextCapacity);
      if present {
        newIndex := Rotated();
        RotatedDistinct(index, tail, newIndex);
      } else {
        NothingDistinct<T>();
      }
      newIndex := Extended(newIndex, entryCount);
      Relaid(newIndex, prevCapacity, firstBase, blocks);
      index := newIndex;
      tail := if prevCapacity == 0 then nextCapacity - 1 else prevCapacity - 1;
      nextCapacity := 2 * nextCapacity;
      present := true;
      return true;
    }

    /** The laid-out entries show the same window from their new tail slot. */
    lemma Relaid(newIndex: seq<Entry<T>>, prevCapacity: nat, firstBase: nat, blocks: seq<Block?<T>>)
      requires Valid() && Shows(firstBase, blocks) && prevCapacity == if present then |index| else 0
      requires |newIndex| == nextCapacity
      requires present ==>
        forall k | 0 <= k < prevCapacity :: newIndex[prevCapacity - 1 - k] == index[Back(tail, k, prevCapacity)]
      requires forall i | prevCapacity <= i < |newIndex| :: newIndex[i].Free()
      ensures var newTail := if prevCapacity == 0 then nextCapacity - 1 else prevCapacity - 1;
        && newTail < |newIndex| && Window(newIndex, newTail, firstBase, blocks)
        && Counted(newIndex, newTail, |blocks|) == Newest(|blocks|)
    {
      var newTail := if prevCapacity == 0 then nextCapacity - 1 else prevCapacity - 1;
      forall k | 0 <= k < |newIndex|
        ensures Back(newTail, k, |newIndex|) == if k <= newTail then newTail - k else newTail + |newIndex| - k
      {
      }
      if present {
        assert forall k | 0 <= k < prevCapacity ::
          newIndex[Back(newTail, k, |newIndex|)] == index[Back(tail, k, prevCapacity)];
        forall i | 0 <= i < |blocks| ensures Counted(newIndex, newTail, |blocks|)[i] == Newest(|blocks|)[i] {
          assert newIndex[Back(newTail, |blocks| - 1 - i, |newIndex|)]
              == index[Back(tail, |blocks| - 1 - i, prevCapacity)];
        }
      }
    }

    /** Finds a free entry behind the tail slot, in a larger index if need be, and keys it. */
    method Insert(canAlloc: bool, mallocOk: bool, blockStartIndex: nat,
                  ghost firstBase: nat, ghost blocks: seq<Block?<T>>) returns (entry: Entry?<T>, grew: bool)
      requires Valid() && Shows(firstBase, blocks) && null !in blocks && firstBase % BLOCK_SIZE == 0
      requires blockStartIndex == Wrap(firstBase + BLOCK_SIZE * |blocks|)
      modifies this, index
      ensures Valid()
      ensures entry != null <==> old(present) && (|blocks| < old(|index|) || (canAlloc && mallocOk))
      ensures grew <==> old(present) && |blocks| == old(|index|) && canAlloc && mallocOk
      ensures entry == null ==> unchanged(this) && Shows(firstBase, blocks)
      ensures present == old(present) && |index| == if grew then 2 * |old(index)| else |old(index)|
      ensures entry != null ==>
        present && entry == index[tail] && Window(index, tail, firstBase, blocks + [entry.value]) && |blocks| < |index|
      ensures entry != null ==> Newest(|blocks| + 1) == old(Newest(|blocks|)) + [entry]
      ensures forall e | e in index :: e in old(index) || fresh(e)
    {
      if !present {
        return null, false;
      }
      hide Window, IsPowerOfTwo, Back, Distinct, Wrap;
      NextIsFree(firstBase, blocks);
      var newTail := (tail + 1) % |index|;
      if index[newTail].key == INVALID_BLOCK_BASE || index[newTail].value == null {
        SetKey(newTail, blockStartIndex, firstBase, blocks);
        return index[newTail], false;
      }
      if !canAlloc {
        return null, false;
      }
      var grown := Grow(mallocOk, firstBase, blocks);
      if !grown {
        return null, false;
      }
      NextIsFree(firstBase, blocks);
      newTail := (tail + 1) % |index|;
      assert index[newTail] in index;
      SetKey(newTail, blockStartIndex, firstBase, blocks);
      return index[newTail], true;
    }

    /** The slot behind the tail slot is free exactly if the window leaves one. */
    lemma NextIsFree(firstBase: nat, blocks: seq<Block?<T>>)
      requires Valid() && present && Shows(firstBase, blocks) && null !in blocks && firstBase % BLOCK_SIZE == 0
      ensures |blocks| <= |index| && (tail + 1) % |index| == Back(tail, |index| - 1, |index|)
      ensures index[(tail + 1) % |index|].Free() <==> |blocks| < |index|
    {
      MaskedNext(tail, |index|);
      var k := |index| - 1;
      if |blocks| == |index| {
        assert index[Back(tail, k, |index|)].value == blocks[0];
        CellOfWord(firstBase);
        assert index[Back(tail, k, |index|)].key == Wrap(firstBase);
      }
    }

    method SetKey(newTail: nat, blockStartIndex: nat, ghost firstBase: nat, ghost blocks: seq<Block?<T>>)
      requires Valid() && present && Window(index, tail, firstBase, blocks) && |blocks| < |index|
      requires newTail == (tail + 1) % |index| == Back(tail, |index| - 1, |index|)
      requires blockStartIndex == Wrap(firstBase + BLOCK_SIZE * |blocks|)
      modifies this`tail, index[newTail]
      ensures Valid() && tail == newTail && Window(index, tail, firstBase, blocks + [index[tail].value])
      ensures Newest(|blocks| + 1) == old(Newest(|blocks|)) + [index[tail]]
    {
      hide IsPowerOfTwo, Back;
      OthersDiffer(newTail, |index| - 1);
      index[newTail].key := blockStartIndex;
      WindowKeyed(index, tail, firstBase, blocks, newTail);
      tail := newTail;
    }

    lemma OthersDiffer(slot: nat, k: nat)
      requires Valid() && present && k < |index| && slot == Back(tail, k, |index|)
      ensures forall j | 0 <= j < |index| && j != k :: index[Back(tail, j, |index|)] != index[slot]
    {
      forall j | 0 <= j < |index| && j != k ensures index[Back(tail, j, |index|)] != index[slot] {
        BackInjective(tail, j, k, |index|);
      }
    }

    method Rewind()
      requires present && tail < |index|
      modifies this`tail
      ensures tail == Back(old(tail), 1, |index|)
    {
      MaskedBack(tail, 1, |index|);
      tail := (tail - 1) % |index|;
    }

    /** Stores a block, or null, in the entry of place j of a window that ends at slot top. */
    method Store(entry: Entry<T>, value: Block?<T>, ghost top: nat, ghost firstBase: nat,
                 ghost blocks: seq<Block?<T>>, ghost j: nat)
      requires Valid() && present && Window(index, top, firstBase, blocks) && j < |blocks|
      requires entry == index[Back(top, |blocks| - 1 - j, |index|)]
      modifies entry
      ensures Window(index, top, firstBase, blocks[j := value])
    {
      hide IsPowerOfTwo, Back, Wrap;
      ghost var k := |blocks| - 1 - j;
      forall i | 0 <= i < |index| && i != k ensures index[Back(top, i, |index|)] != entry {
        BackInjective(top, i, k, |index|);
      }
      entry.value := value;
    }

    /** Undoes an insertion: the tail slot goes back and its entry is freed. */
    method Withdraw(entry: Entry<T>, ghost firstBase: nat, ghost blocks: seq<Block?<T>>)
      requires Valid() && present && Window(index, tail, firstBase, blocks + [entry.value]) && entry == index[tail]
      modifies this`tail, entry
      ensures Valid() && Shows(firstBase, blocks) && Newest(|blocks|) == old(Newest(|blocks| + 1))[..|blocks|]
    {
      hide Window, IsPowerOfTwo, Distinct;
      ghost var top, n := tail, |blocks|;
      BackZero(top, |index|);
      WindowFits(index, top, firstBase, blocks + [entry.value]);
      Rewind();
      Store(entry, null, top, firstBase, blocks + [entry.value], n);
      assert (blocks + [old(entry.value)])[n := null] == blocks + [null];
      WindowRewound(index, top, firstBase, blocks + [null], 1);
      assert (blocks + [null])[..n] == blocks;
      CountedRewound(index, top, n + 1, 1);
    }

    /** The entry for an index, found from the key of the tail slot; the tail slot may lie
        behind or before it, and the stored indices may have wrapped around. */
    method Lookup(wanted: nat, ghost i: nat, ghost a: nat, ghost top: nat, ghost firstBase: nat,
                  ghost blocks: seq<Block?<T>>)
      returns (entry: Entry<T>)
      requires Valid() && present && Window(index, top, firstBase, blocks) && BLOCK_SIZE * |blocks| <= HALF
      requires firstBase % BLOCK_SIZE == 0 && firstBase <= i < firstBase + BLOCK_SIZE * |blocks| && wanted == Wrap(i)
      requires a < |blocks| && tail == Back(top, a, |index|)
      ensures entry == index[Back(top, |blocks| - 1 - (i - firstBase) / BLOCK_SIZE, |index|)]
      ensures entry.key == Wrap(i - i % BLOCK_SIZE) && entry.value == blocks[(i - firstBase) / BLOCK_SIZE]
    {
      hide IsPowerOfTwo, Back, Wrap, Distinct, Quotient, Signed;
      var base := wanted - wanted % BLOCK_SIZE;
      var tailBase := index[tail].key;
      BlockOffset(i, firstBase, |blocks| - 1 - a);
      ghost var b := |blocks| - 1 - (i - firstBase) / BLOCK_SIZE;
      MaskedMove(top, a, b, |index|);
      var offset := Quotient(Signed(Wrap(base - tailBase)), BLOCK_SIZE);
      var slot := (tail + offset) % |index|;
      entry := index[slot];
    }
  }

  lemma NothingDistinct<T>()
    ensures Distinct<T>([])
  {
  }

  lemma RotatedDistinct<T>(index: seq<Entry<T>>, tail: nat, entries: seq<Entry<T>>)
    requires Distinct(index) && tail < |index| == |entries|
    requires forall k | 0 <= k < |index| :: entries[|index| - 1 - k] == index[Back(tail, k, |index|)]
    ensures Distinct(entries) && forall e | e in entries :: e in index
  {
    forall i | 0 <= i < |entries| ensures entries[i] == index[Back(tail, |index| - 1 - i, |index|)] {
      assert entries[|index| - 1 - (|index| - 1 - i)] == index[Back(tail, |index| - 1 - i, |index|)];
    }
  }

  /** The entries followed by count new ones. */
  method Extended<T>(entries: seq<Entry<T>>, count: nat) returns (extended: seq<Entry<T>>)
    requires Distinct(entries)
    ensures |extended| == |entries| + count && extended[..|entries|] == entries && Distinct(extended)
    ensures forall i | |entries| <= i < |extended| :: fresh(extended[i]) && extended[i].Free()
  {
    extended := entries;
    for i := 0 to count
      invariant |extended| == |entries| + i && extended[..|entries|] == entries && Distinct(extended)
      invariant forall j | |entries| <= j < |extended| :: fresh(extended[j]) && extended[j].Free()
    {
      var entry := new Entry();
      extended := extended + [entry];
    }
  }
}
