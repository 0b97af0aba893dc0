/** The fixed-size blocks in which both kinds of producer store their elements. */
module Blocks {

  import opened Basics
  import opened Circular

  const BLOCK_SIZE: nat := 32
  const SIZE_MAX: nat := WORD - 1

  class Block<T> {
    /** A cell is None while no element is constructed in it. */
    var elements: seq<Option<T>>
    /** Flag 31 - k tells that cell k is dequeued (explicit producers). */
    var emptyFlags: seq<bool>
    /** How many cells are dequeued (implicit producers). */
    var elementsCompletelyDequeued: nat
    var next: Block?<T>

    constructor ()
      ensures Vacant() && elementsCompletelyDequeued == 0 && next == null
    {
      elements, emptyFlags := seq(BLOCK_SIZE, _ => None), seq(BLOCK_SIZE, _ => false);
      elementsCompletelyDequeued, next := 0, null;
    }

    ghost predicate Shaped()
      reads this
    {
      |elements| == |emptyFlags| == BLOCK_SIZE
    }

    /** Nothing is constructed in the block: what a block given out by the free list is. */
    ghost predicate Vacant()
      reads this
    {
      Shaped() && forall k | 0 <= k < BLOCK_SIZE :: elements[k] == None
    }

    method IsEmpty() returns (empty: bool)
      requires Shaped()
      ensures empty <==> forall i | 0 <= i < BLOCK_SIZE :: emptyFlags[i]
    {
      for i := 0 to BLOCK_SIZE
        invariant forall j | 0 <= j < i :: emptyFlags[j]
      {
        if !emptyFlags[i] {
          return false;
        }
      }
      return true;
    }

    /** Marks the cell of index i as dequeued; it must not be marked yet. */
    method SetEmpty(i: nat)
      requires Shaped() && !emptyFlags[BLOCK_SIZE - 1 - i % BLOCK_SIZE]
      modifies this`emptyFlags
      ensures emptyFlags == old(emptyFlags)[BLOCK_SIZE - 1 - i % BLOCK_SIZE := true]
    {
      emptyFlags := emptyFlags[BLOCK_SIZE - 1 - i % BLOCK_SIZE := true];
    }

    /** Marks count cells from the one of index i on. */
    method SetManyEmpty(i: nat, count: nat)
      requires Shaped() && i % BLOCK_SIZE + count <= BLOCK_SIZE
      requires forall k | BLOCK_SIZE - i % BLOCK_SIZE - count <= k < BLOCK_SIZE - i % BLOCK_SIZE :: !emptyFlags[k]
      modifies this`emptyFlags
      ensures emptyFlags == Filled(old(emptyFlags), BLOCK_SIZE - i % BLOCK_SIZE - count, count, true)
    {
      var first := BLOCK_SIZE - 1 - i % BLOCK_SIZE - count + 1;
      for j := 0 to count
        invariant emptyFlags == Filled(old(emptyFlags), first, j, true)
      {
        emptyFlags := emptyFlags[first + j := true];
      }
    }

    /** Moves n elements out, from the cell of index i on, and destroys them there. */
    method MoveOut(index: nat, endIndex: nat, ghost i: nat, ghost n: nat) returns (moved: seq<T>)
      requires Shaped() && index == Wrap(i) && endIndex == Wrap(i + n) && i % BLOCK_SIZE + n <= BLOCK_SIZE
      requires forall k | i % BLOCK_SIZE <= k < i % BLOCK_SIZE + n :: elements[k].Some?
      modifies this`elements
      ensures |moved| == n && forall k | 0 <= k < n :: old(elements[i % BLOCK_SIZE + k]) == Some(moved[k])
      ensures elements == Filled(old(elements), i % BLOCK_SIZE, n, None)
    {
      moved := [];
      var at := index;
      NotThereYet(i, 0, n);
      while at != endIndex
        invariant |moved| <= n && at == Wrap(i + |moved|) && (at == endIndex <==> |moved| == n)
        invariant forall k | 0 <= k < |moved| :: old(elements[i % BLOCK_SIZE + k]) == Some(moved[k])
        invariant elements == Filled(old(elements), i % BLOCK_SIZE, |moved|, None)
        decreases n - |moved|
      {
        hide Wrap;
        NextCell(i, |moved|, n);
        NotThereYet(i, |moved| + 1, n);
        moved := moved + [elements[at % BLOCK_SIZE].value];
        elements := elements[at % BLOCK_SIZE := None];
        at := Wrap(at + 1);
      }
    }

    /** Constructs n of the items, those from place from on, in the cells of index i on. */
    method MoveIn(index: nat, endIndex: nat, items: seq<T>, from: nat, ghost i: nat, ghost n: nat)
      requires Shaped() && index == Wrap(i) && endIndex == Wrap(i + n) && i % BLOCK_SIZE + n <= BLOCK_SIZE
      requires from + n <= |items|
      modifies this`elements
      ensures Shaped()
      ensures forall k | 0 <= k < BLOCK_SIZE ::
        elements[k] == if i % BLOCK_SIZE <= k < i % BLOCK_SIZE + n then Some(items[from + k - i % BLOCK_SIZE])
                       else old(elements[k])
    {
      var at, next := index, from;
      NotThereYet(i, 0, n);
      while at != endIndex
        invariant from <= next <= from + n && at == Wrap(i + (next - from)) && (at == endIndex <==> next == from + n)
        invariant Shaped() && forall k | 0 <= k < BLOCK_SIZE ::
          elements[k] == if i % BLOCK_SIZE <= k < i % BLOCK_SIZE + (next - from)
                         then Some(items[from + k - i % BLOCK_SIZE])
                         else old(elements[k])
        decreases from + n - next
      {
        hide Wrap;
        NextCell(i, next - from, n);
        NotThereYet(i, next - from + 1, n);
        elements := elements[at % BLOCK_SIZE := Some(items[next])];
        at := Wrap(at + 1);
        next := next + 1;
      }
    }

    /** Counts one more dequeued cell and tells whether that was the last one. */
    method CountEmpty() returns (empty: bool)
      modifies this`elementsCompletelyDequeued
      ensures elementsCompletelyDequeued == old(elementsCompletelyDequeued) + 1
      ensures empty <==> elementsCompletelyDequeued == BLOCK_SIZE
    {
      var previous := elementsCompletelyDequeued;
      elementsCompletelyDequeued := previous + 1;
      return previous == BLOCK_SIZE - 1;
    }

    method ResetCount()
      modifies this`elementsCompletelyDequeued
      ensures elementsCompletelyDequeued == 0
    {
      elementsCompletelyDequeued := 0;
    }

    method ResetEmpty()
      requires Shaped()
      modifies this`emptyFlags
      ensures Shaped() && forall i | 0 <= i < BLOCK_SIZE :: !emptyFlags[i]
    {
      for i := 0 to BLOCK_SIZE
        invariant Shaped() && forall j | 0 <= j < i :: !emptyFlags[j]
      {
        emptyFlags := emptyFlags[i := false];
      }
    }
  }

  /** s with x in the count places from first on. */
  function Filled<X>(s: seq<X>, first: nat, count: nat, x: X): (r: seq<X>)
    requires first + count <= |s|
    ensures |r| == |s|
    ensures forall k | 0 <= k < |s| :: r[k] == if first <= k < first + count then x else s[k]
  {
    seq(|s|, k requires 0 <= k < |s| => if first <= k < first + count then x else s[k])
  }

  lemma NotThereYet(i: nat, done: nat, n: nat)
    requires done <= n <= BLOCK_SIZE
    ensures Wrap(i + done) == Wrap(i + n) <==> done == n
  {
    WrapSub(i + n, i + done);
    WrapSmall(n - done);
  }

  lemma NextCell(i: nat, done: nat, n: nat)
    requires i % BLOCK_SIZE + n <= BLOCK_SIZE && done < n
    ensures Wrap(i + done) % BLOCK_SIZE == i % BLOCK_SIZE + done
    ensures Wrap(Wrap(i + done) + 1) == Wrap(i + done + 1)
  {
    CellOfWord(i + done);
    SameRemainder(i + done, i / BLOCK_SIZE, i % BLOCK_SIZE + done);
    WrapSub(i + done, 1);
  }

  /** The cell of a stored index is the cell of the counter it stands for. */
  lemma CellOfWord(n: nat)
    ensures Wrap(n) % BLOCK_SIZE == n % BLOCK_SIZE
    ensures Wrap(n) - Wrap(n) % BLOCK_SIZE == Wrap(n - n % BLOCK_SIZE)
  {
    var q, r := n / WORD, n % WORD;
    assert n == BLOCK_SIZE * (q * (WORD / BLOCK_SIZE)) + r;
    SameRemainder(n, q * (WORD / BLOCK_SIZE), r);
    var below := r - r % BLOCK_SIZE;
    assert n - n % BLOCK_SIZE == below + q * WORD;
    WrapShift(below, q);
    WrapSmall(below);
  }

  lemma SameRemainder(n: nat, q: nat, r: nat)
    requires n == BLOCK_SIZE * q + r
    ensures n % BLOCK_SIZE == r % BLOCK_SIZE
  {
    var s := r / BLOCK_SIZE;
    assert r == BLOCK_SIZE * s + r % BLOCK_SIZE;
    assert n == BLOCK_SIZE * (q + s) + r % BLOCK_SIZE;
  }

  /** What the cell of index i holds when the elements contents start at index head. */
  function Cell<T>(i: nat, head: nat, contents: seq<T>): Option<T> {
    if head <= i < head + |contents| then Some(contents[i - head]) else None
  }

  lemma RemainderFrom(n: nat, base: nat, blocks: nat)
    requires base % BLOCK_SIZE == 0 && base + BLOCK_SIZE * blocks <= n < base + BLOCK_SIZE * (blocks + 1)
    ensures n % BLOCK_SIZE == n - base - BLOCK_SIZE * blocks
  {
    var q, r := base / BLOCK_SIZE, n - base - BLOCK_SIZE * blocks;
    SameRemainder(n, q + blocks, r);
  }

  lemma Boundary(n: nat, base: nat, blocks: nat)
    requires base % BLOCK_SIZE == 0 && n % BLOCK_SIZE == 0
    requires BLOCK_SIZE * (blocks - 1) < n - base <= BLOCK_SIZE * blocks
    ensures n - base == BLOCK_SIZE * blocks
  {
    var q := n / BLOCK_SIZE - base / BLOCK_SIZE;
    assert n - base == BLOCK_SIZE * q;
  }

  /** How many of the indices from i up to last are in i's block. */
  function InBlock(i: nat, last: nat): nat
    requires i <= last
  {
    if last < i - i % BLOCK_SIZE + BLOCK_SIZE then last - i else BLOCK_SIZE - i % BLOCK_SIZE
  }

  /** The code's end of a block's share is InBlock further. */
  lemma BlockEnd(i: nat, last: nat)
    requires i <= last < i + HALF
    ensures var blockEnd := Wrap(Wrap(i) - Wrap(i) % BLOCK_SIZE + BLOCK_SIZE);
      (if CircularLess(Wrap(last), blockEnd) then Wrap(last) else blockEnd) == Wrap(i + InBlock(i, last))
    ensures i % BLOCK_SIZE + InBlock(i, last) <= BLOCK_SIZE && i + InBlock(i, last) <= last
    ensures i + InBlock(i, last) == last || (InBlock(i, last) > 0 && i % BLOCK_SIZE + InBlock(i, last) == BLOCK_SIZE)
    ensures InBlock(i, last) == 0 ==> i == last
  {
    hide Wrap, CircularLess;
    var end := i - i % BLOCK_SIZE + BLOCK_SIZE;
    CellOfWord(i);
    WrapSub(i - i % BLOCK_SIZE, BLOCK_SIZE);
    CircularLessIsLess(last, end);
  }

  lemma SplitAgain<T>(s: seq<T>, a: nat, n: nat)
    requires a + n <= |s|
    ensures s[a..][..n] == s[a..a + n] && s[a..][n..] == s[a + n..] && s[..a] + s[a..][..n] == s[..a + n]
  {
  }

  lemma CellsFull<T>(elements: seq<Option<T>>, k: nat, n: nat, todo: seq<T>)
    requires k + n <= |elements| && n <= |todo| && forall j | 0 <= j < n :: elements[k + j] == Some(todo[j])
    ensures forall m | k <= m < k + n :: elements[m].Some?
  {
    forall m | k <= m < k + n ensures elements[m].Some? {
      assert elements[k + (m - k)] == Some(todo[m - k]);
    }
  }

  /** A limit in whole blocks that is not reached yet leaves room for one more. */
  lemma AnotherBlock(blocks: nat, length: nat, limit: nat)
    ensures limit % BLOCK_SIZE == 0 && length + BLOCK_SIZE <= limit && length > BLOCK_SIZE * (blocks - 1) ==>
      BLOCK_SIZE * (blocks + 1) <= limit
  {
    var q := limit / BLOCK_SIZE;
    assert limit == BLOCK_SIZE * q + limit % BLOCK_SIZE;
  }

  /** Whole blocks within less than a block of a limit in whole blocks are within it. */
  lemma WholeBlocks(blocks: nat, limit: nat)
    requires limit % BLOCK_SIZE == 0 && BLOCK_SIZE * blocks < limit + BLOCK_SIZE
    ensures BLOCK_SIZE * blocks <= limit
  {
    assert limit == BLOCK_SIZE * (limit / BLOCK_SIZE);
  }

  // ---- the four indices of a producer ----

  /** The stored indices of a producer whose length elements start at counter head, while
      no consumer is at work. */
  ghost predicate Counts(tailIndex: nat, headIndex: nat, optimistic: nat, overcommit: nat, head: nat, length: nat) {
    && tailIndex == Wrap(head + length) && headIndex == Wrap(head)
    && optimistic < WORD && overcommit < WORD && Wrap(optimistic - overcommit) == headIndex
  }

  lemma CountsPushed(tailIndex: nat, headIndex: nat, optimistic: nat, overcommit: nat, head: nat, length: nat, n: nat)
    requires Counts(tailIndex, headIndex, optimistic, overcommit, head, length)
    ensures Counts(Wrap(tailIndex + n), headIndex, optimistic, overcommit, head, length + n)
  {
    WrapSub(head + length, n);
  }

  lemma CountsPopped(tailIndex: nat, headIndex: nat, optimistic: nat, overcommit: nat, head: nat, length: nat, n: nat)
    requires Counts(tailIndex, headIndex, optimistic, overcommit, head, length) && n <= length
    ensures Counts(tailIndex, Wrap(headIndex + n), Wrap(optimistic + n), overcommit, head + n, length - n)
  {
    hide Wrap;
    var c: int := overcommit;
    WrapSub(head, n);
    WrapSub(optimistic + n, -c);
    WrapSub(optimistic - overcommit, n);
  }

  /** The test at the start of a dequeue tells whether there is an element, unless there
      are 2^63 of them. */
  lemma CountsCompare(tailIndex: nat, headIndex: nat, optimistic: nat, overcommit: nat, head: nat, length: nat)
    requires Counts(tailIndex, headIndex, optimistic, overcommit, head, length) && length <= HALF
    ensures CircularLess(Wrap(optimistic - overcommit), tailIndex) <==> 0 < length < HALF
  {
    WrapSub(head, head + length);
    WrapSmall(0 - length);
  }

  /** The comparison that keeps the indices of a further block at index at comparable. */
  lemma FullCompares(head: nat, at: nat)
    requires head <= at <= head + HALF
    ensures CircularLess(Wrap(head), Wrap(Wrap(at) + BLOCK_SIZE)) <==> at - head + BLOCK_SIZE < HALF
    ensures Wrap(Wrap(at) - Wrap(head)) == at - head
  {
    WrapSub(at, head);
    WrapSub(at, BLOCK_SIZE);
    WrapSub(head, at + BLOCK_SIZE);
    WrapSmall(at - head);
    WrapSmall(0 - (at - head + BLOCK_SIZE));
  }

  /** The signed, truncated quotient is the number of blocks between an index's block and
      block p. */
  lemma BlockOffset(i: nat, firstBase: nat, p: nat)
    requires firstBase % BLOCK_SIZE == 0 && firstBase <= i
    requires i < firstBase + HALF && BLOCK_SIZE * p < HALF
    ensures Wrap(i) - Wrap(i) % BLOCK_SIZE < WORD
    ensures i - i % BLOCK_SIZE == firstBase + BLOCK_SIZE * ((i - firstBase) / BLOCK_SIZE)
    ensures Quotient(Signed(Wrap(Wrap(i) - Wrap(i) % BLOCK_SIZE - Wrap(firstBase + BLOCK_SIZE * p))), BLOCK_SIZE)
         == (i - firstBase) / BLOCK_SIZE - p
  {
    hide Wrap, Signed;
    var j := (i - firstBase) / BLOCK_SIZE;
    CellOfWord(i);
    assert i - i % BLOCK_SIZE == firstBase + BLOCK_SIZE * j;
    SignedDifference(firstBase + BLOCK_SIZE * j, firstBase + BLOCK_SIZE * p);
    assert firstBase + BLOCK_SIZE * j - (firstBase + BLOCK_SIZE * p) == BLOCK_SIZE * (j - p);
    ExactQuotient(j - p);
  }

  lemma ExactQuotient(n: int)
    ensures Quotient(BLOCK_SIZE * n, BLOCK_SIZE) == n
  {
  }
}
