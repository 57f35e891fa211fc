/**
 The resizing circular FIFO used both as the arrival buffer and as every
 priority level's ready queue.

 The Java object holds an `Object[]` array, a `front` index, a `rear` index and
 a `count`. Here the array is the sequence `items`, whose empty slots are
 `None` (Java's `null`); the abstract state is the ghost sequence
 `Contents(q)`, read from `count` slots starting at `front` and wrapping
 around the end of the array.
 */
module Queues {
  import opened Wrappers

  /** Capacity of a new or cleared queue. */
  const InitialCapacity := 4

  datatype Queue<T> = Queue(items: seq<Option<T>>, front: int, rear: int, count: int)

  predicate IsPowerOfTwo(n: int)
  {
    n == 1 || (n >= 2 && n % 2 == 0 && IsPowerOfTwo(n / 2))
  }

  function Capacity<T>(q: Queue<T>): int
  {
    |q.items|
  }

  /** Array index of the i-th element counted from the front; the index
      wraps around at most once because front < capacity and i <= capacity. */
  function Slot<T>(q: Queue<T>, i: int): int
  {
    if q.front + i < |q.items| then q.front + i else q.front + i - |q.items|
  }

  /** `(k + 1) % n` for an index k in [-1, n), without division. */
  function NextIndex(k: int, n: int): int
  {
    if k + 1 < n then k + 1 else 0
  }

  lemma NextIndexMod(k: int, n: int)
    requires 0 < n && -1 <= k < n
    ensures (k + 1) % n == NextIndex(k, n)
  {
  }

  /** The representation invariant kept by every operation of the class. */
  ghost predicate Valid<T>(q: Queue<T>)
  {
    && |q.items| >= 2
    && IsPowerOfTwo(|q.items|)
    && 0 <= q.front < |q.items|
    && 0 <= q.count <= |q.items|
    && -1 <= q.rear < |q.items|
    && NextIndex(q.rear, |q.items|) == Slot(q, q.count)
    && forall i :: 0 <= i < q.count ==> q.items[Slot(q, i)].Some?
  }

  /** The abstract FIFO contents, front first. */
  ghost function Contents<T>(q: Queue<T>): seq<T>
    requires Valid(q)
  {
    Prefix(q, q.count)
  }

  /** The first n elements counted from the front. */
  ghost function Prefix<T>(q: Queue<T>, n: int): seq<T>
    requires Valid(q) && 0 <= n <= q.count
    decreases n
  {
    if n == 0 then [] else Prefix(q, n - 1) + [q.items[Slot(q, n - 1)].value]
  }

  /** Element i of the contents sits in array slot `Slot(q, i)`. */
  lemma {:induction false} PrefixIndex<T>(q: Queue<T>, n: int)
    requires Valid(q) && 0 <= n <= q.count
    ensures |Prefix(q, n)| == n
    ensures forall i :: 0 <= i < n ==> Prefix(q, n)[i] == q.items[Slot(q, i)].value
    decreases n
  {
    if n > 0 {
      PrefixIndex(q, n - 1);
    }
  }

  lemma ContentsIndex<T>(q: Queue<T>)
    requires Valid(q)
    ensures |Contents(q)| == q.count
    ensures forall i :: 0 <= i < q.count ==> Contents(q)[i] == q.items[Slot(q, i)].value
  {
    PrefixIndex(q, q.count);
  }

  lemma PowerOfTwoDouble(n: int)
    requires IsPowerOfTwo(n)
    ensures IsPowerOfTwo(2 * n)
  {
    assert (2 * n) / 2 == n;
  }

  /** A new queue, and equally the state `clear()` leaves behind. */
  function Empty<T>(): (q: Queue<T>)
    ensures Valid(q) && Contents(q) == []
    ensures Capacity(q) == InitialCapacity && q.front == 0 && q.rear == -1
  {
    assert IsPowerOfTwo(2);
    assert IsPowerOfTwo(4);
    Queue(seq(InitialCapacity, _ => None), 0, -1, 0)
  }

  function IsEmpty<T>(q: Queue<T>): (b: bool)
    requires Valid(q)
    ensures b <==> Contents(q) == []
  {
    ContentsIndex(q);
    q.count == 0
  }

  function IsFull<T>(q: Queue<T>): (b: bool)
    requires Valid(q)
    ensures b <==> |Contents(q)| == Capacity(q)
  {
    ContentsIndex(q);
    q.count == |q.items|
  }

  /** The relocation done by `resize(size)`: the live elements are copied in
      order into a fresh array of `size` slots starting at index 0. */
  function Resize<T>(q: Queue<T>, size: int): (r: Queue<T>)
    requires Valid(q) && q.count <= size && size >= 2 && IsPowerOfTwo(size)
    ensures Valid(r) && Contents(r) == Contents(q)
    ensures Capacity(r) == size && r.front == 0 && r.rear == |Contents(q)| - 1
  {
    var r := Queue(seq(size, i requires 0 <= i < size =>
                         if i < q.count then q.items[Slot(q, i)] else None),
                   0, q.count - 1, q.count);
    assert forall i :: 0 <= i < r.count ==> Slot(r, i) == i;
    ContentsIndex(q);
    ContentsIndex(r);
    r
  }

  /** `resize` as the Java loop writes it: walk `front` around the old array
      and copy slot by slot into a new array. */
  method Relocate<T>(q: Queue<T>, size: int) returns (r: Queue<T>)
    requires Valid(q) && q.count <= size && size >= 2 && IsPowerOfTwo(size)
    ensures r == Resize(q, size)
    ensures Contents(r) == Contents(q)
  {
    var newQueue := new Option<T>[size](_ => None);
    var front := q.front;
    var i := 0;
    while i < q.count
      invariant 0 <= i <= q.count
      invariant front == Slot(q, i)
      invariant forall k :: 0 <= k < i ==> newQueue[k] == q.items[Slot(q, k)]
      invariant forall k :: i <= k < size ==> newQueue[k] == None
    {
      newQueue[i] := q.items[front];
      NextIndexMod(front, |q.items|);
      front := front + 1;
      front := front % |q.items|;
      i := i + 1;
    }
    r := Queue(newQueue[..], 0, q.count - 1, q.count);
  }

  /** `insert`: never fails; a full queue first doubles its capacity. */
  function Insert<T>(q: Queue<T>, x: T): (r: Queue<T>)
    requires Valid(q)
    ensures Valid(r) && Contents(r) == Contents(q) + [x]
    ensures Capacity(r) == if IsFull(q) then 2 * Capacity(q) else Capacity(q)
    ensures !IsFull(q) ==> r.front == q.front
  {
    if q.count == |q.items| then
      PowerOfTwoDouble(|q.items|);
      Append(Resize(q, 2 * |q.items|), x)
    else
      Append(q, x)
  }

  /** The part of `insert` after the capacity check: advance `rear` and store. */
  function Append<T>(q: Queue<T>, x: T): (r: Queue<T>)
    requires Valid(q) && q.count < |q.items|
    ensures Valid(r) && Contents(r) == Contents(q) + [x]
    ensures Capacity(r) == Capacity(q) && r.front == q.front
  {
    NextIndexMod(q.rear, |q.items|);
    var rear := (q.rear + 1) % |q.items|;
    var r := Queue(q.items[rear := Some(x)], q.front, rear, q.count + 1);
    assert forall i :: 0 <= i < q.count ==> Slot(q, i) != rear;
    assert Contents(r) == Contents(q) + [x] by {
      assert forall i :: 0 <= i < q.count ==> r.items[Slot(r, i)] == q.items[Slot(q, i)];
      ContentsIndex(q);
      ContentsIndex(r);
    }
    r
  }

  /** `remove`: the front element, or `None` (Java's `null`) on an empty
      queue. Afterwards the capacity halves when fewer than a quarter of the
      slots are occupied. */
  function Remove<T>(q: Queue<T>): (r: (Queue<T>, Option<T>))
    requires Valid(q)
    ensures Valid(r.0)
    ensures IsEmpty(q) ==> r == (q, None)
    ensures !IsEmpty(q) ==> r.1 == Some(Contents(q)[0]) && Contents(r.0) == Contents(q)[1..]
    ensures Capacity(r.0) ==
              if !IsEmpty(q) && |Contents(q)| - 1 < Capacity(q) / 4
              then Capacity(q) / 2 else Capacity(q)
  {
    if q.count == 0 then (q, None)
    else
      var item := q.items[q.front];
      NextIndexMod(q.front, |q.items|);
      var q1 := q.(front := (q.front + 1) % |q.items|, count := q.count - 1);
      assert forall i :: 0 <= i < q1.count ==> Slot(q1, i) == Slot(q, i + 1);
      assert Valid(q1);
      ContentsIndex(q);
      ContentsIndex(q1);
      assert Contents(q1) == Contents(q)[1..];
      if q1.count < |q1.items| / 4 then (Resize(q1, |q1.items| / 2), item)
      else (q1, item)
  }

  /** `query`: the front element. The Java method reads `items[front]`
      without checking for emptiness, so the model asks for a non-empty queue. */
  function Query<T>(q: Queue<T>): (x: T)
    requires Valid(q) && !IsEmpty(q)
    ensures x == Contents(q)[0]
  {
    assert Slot(q, 0) == q.front;
    ContentsIndex(q);
    q.items[q.front].value
  }

  /** A client's call on the queue: `insert(x)` or `remove()`. */
  datatype Op<T> = Ins(x: T) | Rem

  /** One call: the queue afterwards and what the call returned, if it
      returns anything (`insert` returns nothing, `remove` one value). */
  function Step<T>(q: Queue<T>, op: Op<T>): (r: (Queue<T>, seq<Option<T>>))
    requires Valid(q)
    ensures Valid(r.0)
  {
    match op
    case Ins(x) => (Insert(q, x), [])
    case Rem => var (q1, o) := Remove(q); (q1, [o])
  }

  /** Runs the calls in order; the result holds the final queue and what each
      `remove()` returned, in order. */
  function Apply<T>(q: Queue<T>, ops: seq<Op<T>>): (r: (Queue<T>, seq<Option<T>>))
    requires Valid(q)
    ensures Valid(r.0)
    decreases |ops|
  {
    if ops == [] then (q, [])
    else
      var (q1, out1) := Step(q, ops[0]);
      var (qn, outs) := Apply(q1, ops[1..]);
      (qn, out1 + outs)
  }

  /** The elements the calls insert, in order. */
  function Inserted<T>(ops: seq<Op<T>>): seq<T>
  {
    if ops == [] then []
    else (if ops[0].Ins? then [ops[0].x] else []) + Inserted(ops[1..])
  }

  /** The elements actually returned by a run of `remove()` calls, dropping
      the `None`s of calls on an empty queue. */
  function Removed<T>(outs: seq<Option<T>>): seq<T>
  {
    if outs == [] then []
    else (if outs[0].Some? then [outs[0].value] else []) + Removed(outs[1..])
  }

  lemma {:induction false} RemovedAppend<T>(a: seq<Option<T>>, b: seq<Option<T>>)
    ensures Removed(a + b) == Removed(a) + Removed(b)
    decreases |a|
  {
    if a == [] {
      assert a + b == b;
    } else {
      var head := if a[0].Some? then [a[0].value] else [];
      assert (a + b)[0] == a[0] && (a + b)[1..] == a[1..] + b;
      assert Removed(a + b) == head + Removed(a[1..] + b);
      RemovedAppend(a[1..], b);
      AppendAssoc(head, Removed(a[1..]), Removed(b));
    }
  }

  /** A single call is FIFO: what it removes, followed by what is left, is
      what was queued followed by what it inserts. */
  lemma StepIsFifo<T>(q: Queue<T>, op: Op<T>)
    requires Valid(q)
    ensures Removed(Step(q, op).1) + Contents(Step(q, op).0) == Contents(q) + Inserted([op])
  {
    assert [op][1..] == [];
    if !IsEmpty(q) {
      assert Contents(q) == [Contents(q)[0]] + Contents(q)[1..];
    }
  }

  /** Strict FIFO across any number of grow and shrink relocations: what has
      been removed, followed by what is still queued, is exactly what was
      queued at the start followed by everything inserted. */
  lemma {:induction false} ApplyIsFifo<T>(q: Queue<T>, ops: seq<Op<T>>)
    requires Valid(q)
    ensures Removed(Apply(q, ops).1) + Contents(Apply(q, ops).0) == Contents(q) + Inserted(ops)
    decreases |ops|
  {
    if ops != [] {
      var q1, out1 := Step(q, ops[0]).0, Step(q, ops[0]).1;
      var qn, outs := Apply(q1, ops[1..]).0, Apply(q1, ops[1..]).1;
      ApplyCons(q, ops);
      InsertedCons(ops);
      StepIsFifo(q, ops[0]);
      ApplyIsFifo(q1, ops[1..]);
      RemovedAppend(out1, outs);
      FifoChain(Removed(out1), Removed(outs), Contents(q1), Contents(qn),
                Contents(q), Inserted([ops[0]]), Inserted(ops[1..]));
    }
  }

  lemma ApplyCons<T>(q: Queue<T>, ops: seq<Op<T>>)
    requires Valid(q) && ops != []
    ensures var (q1, out1) := Step(q, ops[0]);
            Apply(q, ops) == (Apply(q1, ops[1..]).0, out1 + Apply(q1, ops[1..]).1)
  {
  }

  lemma InsertedCons<T>(ops: seq<Op<T>>)
    requires ops != []
    ensures Inserted(ops) == Inserted([ops[0]]) + Inserted(ops[1..])
  {
    assert [ops[0]][1..] == [];
  }

  /** The sequence algebra behind `ApplyIsFifo`: if a, then c, is Q then I1,
      and b, then d, is c then I2, then a, b, then d is Q, I1, then I2. */
  lemma FifoChain<T>(a: seq<T>, b: seq<T>, c: seq<T>, d: seq<T>, Q: seq<T>, I1: seq<T>, I2: seq<T>)
    requires a + c == Q + I1 && b + d == c + I2
    ensures (a + b) + d == Q + (I1 + I2)
  {
    AppendAssoc(a, b, d);
    AppendAssoc(a, c, I2);
    AppendAssoc(Q, I1, I2);
  }

  lemma AppendAssoc<T>(a: seq<T>, b: seq<T>, c: seq<T>)
    ensures (a + b) + c == a + (b + c)
  {
  }

  /** There is no floor at the initial capacity: inserting one element into
      a new queue and removing it again leaves a queue of 2 slots. */
  lemma ShrinkToTwo<T>(x: T)
    ensures Capacity(Remove(Insert(Empty(), x)).0) == 2
    ensures Contents(Remove(Insert(Empty(), x)).0) == []
    ensures Remove(Insert(Empty(), x)).1 == Some(x)
  {
    var q := Insert(Empty<T>(), x);
    assert Contents(q) == [x];
    assert !IsFull(Empty<T>());
  }
}
