/** Index arithmetic on unsigned machine words. Indices of the queue are meant as
    unbounded counters; the code stores them modulo 2^64 and compares them with
    circular_less_than. */
module Circular {

  const WORD: int := 0x1_0000_0000_0000_0000
  const HALF: int := 0x8000_0000_0000_0000

  /** The word that stores the unbounded counter n. */
  function Wrap(n: int): (w: nat)
    ensures w < WORD
  {
    n % WORD
  }

  /** circular_less_than on two stored words. */
  predicate CircularLess(a: nat, b: nat)
    requires a < WORD && b < WORD
  {
    Wrap(a - b) > HALF
  }

  /** A word read as a two's complement signed number. */
  function Signed(w: nat): (n: int)
    requires w < WORD
    ensures -HALF <= n < HALF && Wrap(n) == w
  {
    if w < HALF then w else w - WORD
  }

  lemma WrapSub(a: int, b: int)
    ensures Wrap(Wrap(a) - Wrap(b)) == Wrap(a - b)
    ensures Wrap(Wrap(a) + b) == Wrap(a + b)
  {
    var qa, qb := a / WORD, b / WORD;
    assert a == qa * WORD + Wrap(a) && b == qb * WORD + Wrap(b);
    WrapShift(Wrap(a) - Wrap(b), qa - qb);
    WrapShift(Wrap(a) + b, qa);
  }

  lemma WrapShift(r: int, k: int)
    ensures Wrap(r + k * WORD) == Wrap(r)
  {
    var q := r / WORD;
    assert r == q * WORD + r % WORD;
    assert (r + k * WORD) == (q + k) * WORD + r % WORD;
  }

  lemma WrapSmall(n: int)
    requires -WORD <= n < WORD
    ensures Wrap(n) == if n >= 0 then n else n + WORD
  {
    if n < 0 {
      WrapShift(n, 1);
    }
  }

  /** Comparing the stored words decides the order of the counters, provided they
      are less than half the word range apart. */
  lemma CircularLessIsLess(a: int, b: int)
    requires -HALF < b - a < HALF
    ensures CircularLess(Wrap(a), Wrap(b)) <==> a < b
  {
    WrapSub(a, b);
    WrapSmall(a - b);
  }

  /** The proviso is needed: half a range apart, the comparison no longer tells. */
  lemma CircularLessFailsAtHalf(a: int)
    ensures !CircularLess(Wrap(a), Wrap(a + HALF)) && !CircularLess(Wrap(a + HALF), Wrap(a))
  {
    WrapSub(a, a + HALF);
    WrapSub(a + HALF, a);
    WrapSmall(-HALF);
    WrapSmall(HALF);
  }

  /** The signed reading of a wrapped difference is the difference of the counters. */
  lemma SignedDifference(a: int, b: int)
    requires -HALF <= a - b < HALF
    ensures Signed(Wrap(Wrap(a) - Wrap(b))) == a - b
  {
    WrapSub(a, b);
    WrapSmall(a - b);
  }

  /** The sizes that allow masking an index with size - 1, which is then a remainder. */
  predicate IsPowerOfTwo(n: nat) {
    n == 1 || (n > 0 && n % 2 == 0 && IsPowerOfTwo(n / 2))
  }

  lemma SmallPowers()
    ensures IsPowerOfTwo(16) && IsPowerOfTwo(32)
  {
    Doubled(1);
    Doubled(2);
    Doubled(4);
    Doubled(8);
    Doubled(16);
  }

  lemma Doubled(size: nat)
    requires IsPowerOfTwo(size)
    ensures IsPowerOfTwo(2 * size) && size > 0
  {
  }

  /** A signed division as the machine does it, towards zero. */
  function Quotient(x: int, d: nat): int
    requires d > 0
  {
    if x < 0 then -(-x / d) else x / d
  }

  /** k slots before slot front of a circular array. */
  function Back(front: nat, k: nat, size: nat): (slot: nat)
    requires front < size && k <= size
    ensures slot < size
  {
    if k <= front then front - k else front + size - k
  }

  lemma MaskedBack(front: nat, k: nat, size: nat)
    requires front < size && k <= size
    ensures (front - k) % size == Back(front, k, size) < size
  {
    if k > front {
      assert front - k == -1 * size + (front + size - k);
    }
  }

  lemma MaskedNext(front: nat, size: nat)
    requires front < size
    ensures (front + 1) % size == if front + 1 == size then 0 else front + 1
  {
  }

  /** Walking the slots in order from k back ends at front after k steps, not before. */
  lemma WalkNext(front: nat, k: nat, size: nat)
    requires front < size && 1 <= k <= size
    ensures Back(front, k, size) < size && (Back(front, k, size) + 1) % size == Back(front, k - 1, size)
    ensures Back(front, k - 1, size) == front <==> k == 1
  {
    MaskedNext(Back(front, k, size), size);
  }

  /** Seen from the next slot, slot front is one back and the others are one further. */
  lemma NextBack(front: nat, k: nat, size: nat)
    requires front < size && 1 <= k <= size
    ensures var next := (front + 1) % size;
      next < size && Back(next, k, size) == (if k == 1 then front else Back(front, k - 1, size))
    ensures k > 1 ==> Back(front, k - 1, size) != front
  {
    MaskedNext(front, size);
  }

  lemma CountOfWords(i: nat, n: nat)
    requires n < WORD
    ensures Wrap(Wrap(i + n) - Wrap(i)) == n
  {
    WrapSub(i + n, i);
    WrapSmall(n);
  }

  lemma SameWord(a: nat, b: nat)
    requires a <= b < a + HALF
    ensures Wrap(a) == Wrap(b) <==> a == b
  {
    CountOfWords(a, b - a);
    WrapSmall(0);
  }

  /** Slots counted back from the same slot differ. */
  lemma BackInjective(front: nat, j: nat, k: nat, size: nat)
    requires front < size && j < size && k < size
    ensures Back(front, j, size) == Back(front, k, size) <==> j == k
  {
  }

  /** Moving by a - b from the slot a back leads to the slot b back. */
  lemma MaskedMove(front: nat, a: nat, b: nat, size: nat)
    requires front < size && a < size && b < size
    ensures (Back(front, a, size) + (a - b)) % size == Back(front, b, size)
  {
    var x: int, y := Back(front, a, size) + (a - b), Back(front, b, size);
    Remainder(x, y, size);
  }

  lemma Remainder(x: int, y: nat, size: nat)
    requires y < size && (x == y || x == y + size || x == y - size)
    ensures x % size == y
  {
    if x == y + size {
      assert x == 1 * size + y;
    } else if x == y - size {
      assert x == -1 * size + y;
    }
  }

  /** Counting back from the slot a back. */
  lemma BackOfBack(front: nat, a: nat, k: nat, size: nat)
    requires front < size && a <= size && k < size
    ensures Back(Back(front, a, size), k, size) == Back(front, if a + k < size then a + k else a + k - size, size)
  {
  }

  lemma BackZero(front: nat, size: nat)
    requires front < size
    ensures Back(front, 0, size) == front == Back(front, size, size)
  {
  }
}
