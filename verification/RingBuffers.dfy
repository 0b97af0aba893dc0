/** The fixed-capacity ring buffer of the environment utilities, refined to a bounded
    sequence that loses its oldest element when it is overwritten. */
module RingBuffers {

  import opened Basics

  // ---- the bounded sequence ----

  datatype Operation<T> = Push(value: T) | PushOverwrite(value: T) | Pop

  function Pushed<T>(s: seq<T>, capacity: nat, x: T): seq<T> {
    if |s| < capacity then s + [x] else s
  }

  function Overwritten<T>(s: seq<T>, capacity: nat, x: T): seq<T>
    requires capacity > 0
  {
    if |s| < capacity then s + [x] else s[1..] + [x]
  }

  function Popped<T>(s: seq<T>): seq<T> {
    if s == [] then [] else s[1..]
  }

  /** The newest min(n, |s|) elements, oldest first. */
  function Latest<T>(s: seq<T>, n: nat): (r: seq<T>)
    ensures |r| == Min(n, |s|)
  {
    s[|s| - Min(n, |s|)..]
  }

  function Reversed<T>(s: seq<T>): (r: seq<T>)
    ensures |r| == |s|
  {
    if s == [] then [] else Reversed(s[1..]) + [s[0]]
  }

  function Apply<T>(s: seq<T>, capacity: nat, op: Operation<T>): seq<T>
    requires capacity > 0
  {
    match op
    case Push(x) => Pushed(s, capacity, x)
    case PushOverwrite(x) => Overwritten(s, capacity, x)
    case Pop => Popped(s)
  }

  function Run<T>(s: seq<T>, capacity: nat, ops: seq<Operation<T>>): seq<T>
    requires capacity > 0
    decreases |ops|
  {
    if ops == [] then s else Run(Apply(s, capacity, ops[0]), capacity, ops[1..])
  }

  /** The values a run lets in, in order: a push into a full buffer is refused. */
  function Accepted<T>(s: seq<T>, capacity: nat, ops: seq<Operation<T>>): seq<T>
    requires capacity > 0
    decreases |ops|
  {
    if ops == [] then []
    else
      var here := if ops[0].PushOverwrite? || (ops[0].Push? && |s| < capacity) then [ops[0].value] else [];
      here + Accepted(Apply(s, capacity, ops[0]), capacity, ops[1..])
  }

  /** The values that leave during a run, popped or overwritten, in order. */
  function Departed<T>(s: seq<T>, capacity: nat, ops: seq<Operation<T>>): seq<T>
    requires capacity > 0
    decreases |ops|
  {
    if ops == [] then []
    else
      var leaves := s != [] && (ops[0].Pop? || (ops[0].PushOverwrite? && |s| >= capacity));
      (if leaves then [s[0]] else []) + Departed(Apply(s, capacity, ops[0]), capacity, ops[1..])
  }

  /** First in, first out over every run: what was stored and what was let in is what left,
      in that order, followed by what is stored now. */
  lemma {:induction false} RunIsFifo<T>(s: seq<T>, capacity: nat, ops: seq<Operation<T>>)
    requires |s| <= capacity && capacity > 0
    ensures s + Accepted(s, capacity, ops) == Departed(s, capacity, ops) + Run(s, capacity, ops)
    ensures |Run(s, capacity, ops)| <= capacity
    decreases |ops|
  {
    if ops == [] {
      assert s + [] == [] + s;
    } else {
      var s', rest := Apply(s, capacity, ops[0]), ops[1..];
      RunIsFifo(s', capacity, rest);
      var (x, y) := (if ops[0].PushOverwrite? || (ops[0].Push? && |s| < capacity) then [ops[0].value] else [],
                     if s != [] && (ops[0].Pop? || (ops[0].PushOverwrite? && |s| >= capacity)) then [s[0]] else []);
      assert s + x == y + s';
      Regroup(s, x, y, s', Accepted(s', capacity, rest), Departed(s', capacity, rest), Run(s', capacity, rest));
    }
  }

  lemma Regroup<T>(s: seq<T>, x: seq<T>, y: seq<T>, s': seq<T>, a: seq<T>, d: seq<T>, r: seq<T>)
    requires s + x == y + s' && s' + a == d + r
    ensures s + (x + a) == (y + d) + r
  {
    assert s + (x + a) == (s + x) + a;
    assert (y + s') + a == y + (s' + a);
    assert y + (d + r) == (y + d) + r;
  }

  function Overwrites<T>(values: seq<T>): (ops: seq<Operation<T>>)
    ensures |ops| == |values|
  {
    seq(|values|, i requires 0 <= i < |values| => PushOverwrite(values[i]))
  }

  /** After overwriting pushes only, the buffer holds the newest values, as many as fit. */
  lemma {:induction false} OverwritesKeepLatest<T>(s: seq<T>, capacity: nat, values: seq<T>)
    requires |s| <= capacity && capacity > 0
    ensures Run(s, capacity, Overwrites(values)) == Latest(s + values, capacity)
    decreases |values|
  {
    if values == [] {
      assert s + [] == s;
    } else {
      var s' := Overwritten(s, capacity, values[0]);
      assert Overwrites(values)[1..] == Overwrites(values[1..]);
      OverwritesKeepLatest(s', capacity, values[1..]);
      assert s + values == (s + [values[0]]) + values[1..];
      assert Latest(s' + values[1..], capacity) == Latest(s + values, capacity);
    }
  }

  lemma {:induction false} ReversedAt<T>(s: seq<T>, k: nat)
    requires k < |s|
    ensures Reversed(s)[k] == s[|s| - 1 - k]
  {
    if k < |s| - 1 {
      ReversedAt(s[1..], k);
    }
  }

  // ---- the buffer ----

  /** The n elements stored before index w of the circular buffer b, oldest first. */
  ghost function View<T>(b: seq<T>, w: nat, n: nat): (s: seq<T>)
    requires w < |b| && n <= |b|
    ensures |s| == n
  {
    if n <= w then b[w - n..w] else b[|b| - (n - w)..] + b[..w]
  }

  /** An index below twice the capacity wraps around at most once. */
  lemma Wrapped(i: nat, capacity: nat)
    requires i < 2 * capacity
    ensures i % capacity == if i < capacity then i else i - capacity
  {
    if i >= capacity {
      assert i == capacity * 1 + (i - capacity);
    }
  }

  lemma ViewAt<T>(b: seq<T>, w: nat, n: nat, k: nat)
    requires w < |b| && k < n <= |b|
    ensures View(b, w, n)[k] == b[(w + |b| - n + k) % |b|] == b[if w + k < n then w + |b| - n + k else w - n + k]
  {
    Wrapped(w + |b| - n + k, |b|);
  }

  /** Storing x at index w adds it to the view; a full buffer loses its oldest element. */
  lemma ViewStored<T>(b: seq<T>, w: nat, n: nat, x: T)
    requires w < |b| && n <= |b|
    ensures View(b[w := x], (w + 1) % |b|, if n < |b| then n + 1 else n) == Overwritten(View(b, w, n), |b|, x)
  {
    hide View;
    Wrapped(w + 1, |b|);
    var next, m := (w + 1) % |b|, if n < |b| then n + 1 else n;
    var was, now := View(b, w, n), View(b[w := x], next, m);
    forall k | 0 <= k < m ensures now[k] == if k == m - 1 then x else was[k + (n + 1 - m)] {
      ViewAt(b[w := x], next, m, k);
      if k < m - 1 {
        ViewAt(b, w, n, k + (n + 1 - m));
      }
    }
    assert now == was[n + 1 - m..] + [x];
  }

  /** Taking one element less from the same end drops the oldest. */
  lemma ViewPopped<T>(b: seq<T>, w: nat, n: nat)
    requires w < |b| && 0 < n <= |b|
    ensures View(b, w, n - 1) == View(b, w, n)[1..]
  {
  }

  class RingBuffer<T(0)> {
    const capacity: nat
    const buffer: array<T>
    var writeIdx: nat
    var size: nat

    ghost predicate Valid()
      reads this
    {
      0 < capacity == buffer.Length && writeIdx < capacity && size <= capacity
    }

    /** The stored elements, oldest first. */
    ghost function Contents(): (s: seq<T>)
      requires Valid()
      reads this, buffer
      ensures |s| == size
    {
      View(buffer[..], writeIdx, size)
    }

    constructor (capacity: nat)
      requires capacity > 0
      ensures Valid() && this.capacity == capacity && fresh(buffer) && Contents() == []
    {
      this.capacity := capacity;
      writeIdx, size := 0, 0;
      buffer := new T[capacity];
    }

    method PushOverwrite(value: T)
      requires Valid()
      modifies this, buffer
      ensures Valid() && Contents() == Overwritten(old(Contents()), capacity, value)
    {
      hide View;
      ViewStored(buffer[..], writeIdx, size, value);
      buffer[writeIdx] := value;
      assert buffer[..] == old(buffer[..])[writeIdx := value];
      writeIdx := (writeIdx + 1) % capacity;
      if size < capacity {
        size := size + 1;
      }
    }

    method Push(value: T) returns (pushed: bool)
      requires Valid()
      modifies this, buffer
      ensures Valid() && pushed == (|old(Contents())| < capacity)
      ensures Contents() == Pushed(old(Contents()), capacity, value)
    {
      hide View;
      if size >= capacity {
        return false;
      }
      ViewStored(buffer[..], writeIdx, size, value);
      buffer[writeIdx] := value;
      assert buffer[..] == old(buffer[..])[writeIdx := value];
      writeIdx := (writeIdx + 1) % capacity;
      size := size + 1;
      return true;
    }

    method Pop() returns (value: Option<T>)
      requires Valid()
      modifies this
      ensures Valid() && Contents() == Popped(old(Contents()))
      ensures value == if old(Contents()) == [] then None else Some(old(Contents())[0])
    {
      hide View;
      if size == 0 {
        return None;
      }
      ViewAt(buffer[..], writeIdx, size, 0);
      ViewPopped(buffer[..], writeIdx, size);
      var readIdx := (writeIdx + capacity - size) % capacity;
      value := Some(buffer[readIdx]);
      size := size - 1;
    }

    method PeekLatest(n: nat) returns (out: seq<T>, count: nat)
      requires Valid()
      ensures out == Latest(Contents(), n) && count == |out|
    {
      hide View;
      out, count := [], 0;
      if size == 0 || n == 0 {
        return;
      }
      count := Min(n, size);
      var startOffset := size - count;
      Wrapped(writeIdx + capacity - size + startOffset, capacity);
      var startIdx := (writeIdx + capacity - size + startOffset) % capacity;
      for i := 0 to count
        invariant |out| == i && forall k | 0 <= k < i :: out[k] == Contents()[startOffset + k]
      {
        SlotOf(startOffset + i, startIdx, i);
        var idx := (startIdx + i) % capacity;
        out := out + [buffer[idx]];
      }
      assert out == Contents()[startOffset..];
    }

    /** Element k of the contents is i slots after start. */
    lemma SlotOf(k: nat, start: nat, i: nat)
      requires Valid() && k < size && i <= k && start == (writeIdx + capacity - size + (k - i)) % capacity
      ensures Contents()[k] == buffer[(start + i) % capacity]
    {
      hide View;
      ViewAt(buffer[..], writeIdx, size, k);
      Wrapped(writeIdx + capacity - size + k, capacity);
      Wrapped(writeIdx + capacity - size + (k - i), capacity);
      Wrapped(start + i, capacity);
    }

    method PeekLatestReverse(n: nat) returns (out: seq<T>, count: nat)
      requires Valid()
      ensures out == Reversed(Latest(Contents(), n)) && count == |out|
    {
      hide View;
      out, count := [], 0;
      if size == 0 || n == 0 {
        return;
      }
      count := Min(n, size);
      for i := 0 to count
        invariant |out| == i && forall k | 0 <= k < i :: out[k] == Contents()[size - 1 - k]
      {
        ViewAt(buffer[..], writeIdx, size, size - 1 - i);
        var idx := (writeIdx + capacity - 1 - i) % capacity;
        out := out + [buffer[idx]];
      }
      ghost var latest := Latest(Contents(), n);
      forall k | 0 <= k < count ensures out[k] == Reversed(latest)[k] {
        ReversedAt(latest, k);
      }
    }
  }

  /** Construction is refused exactly for capacity zero. */
  method Create<T(0)>(capacity: nat) returns (buffer: RingBuffer?<T>)
    ensures buffer == null <==> capacity == 0
    ensures buffer != null ==> fresh(buffer) && fresh(buffer.buffer) && buffer.Valid()
    ensures buffer != null ==> buffer.capacity == capacity && buffer.Contents() == []
  {
    if capacity == 0 {
      return null;
    }
    buffer := new RingBuffer(capacity);
  }
}
