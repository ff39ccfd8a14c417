/**
 * The slices-and-arrays exercise: a fixed-capacity FIFO queue kept in a ring
 * buffer.  The queue's elements are the len slots starting at head, read
 * modulo the buffer's capacity.  Elements are ints (the exercise accepts any
 * signed integer type).
 */
module CircularQueues {

  /** The len elements of buf that start at slot head and wrap around its end. */
  ghost function Window(buf: seq<int>, head: int, len: nat): (w: seq<int>)
    requires len <= |buf| && (0 < |buf| ==> 0 <= head < |buf|)
    ensures |w| == len
  {
    seq(len, i requires 0 <= i < len => buf[(head + i) % |buf|])
  }

  /** Writing just past the window and widening it appends the written value. */
  lemma WindowPush(buf: seq<int>, head: int, len: nat, v: int)
    requires len < |buf| && 0 <= head < |buf|
    ensures Window(buf[(head + len) % |buf| := v], head, len + 1) == Window(buf, head, len) + [v]
  {
    var buf' := buf[(head + len) % |buf| := v];
    var w, w' := Window(buf, head, len), Window(buf', head, len + 1);
    forall i | 0 <= i < len
      ensures w'[i] == w[i]
    {
      ModDistinct(head, i, len, |buf|);
    }
  }

  /** Two offsets below the capacity land on different slots. */
  lemma ModDistinct(head: int, i: int, j: int, n: int)
    requires 0 <= head < n && 0 <= i < j < n
    ensures (head + i) % n != (head + j) % n
  {
    if head + j < n {
    } else if head + i < n {
      assert (head + j) % n == head + j - n;
    } else {
      assert (head + i) % n == head + i - n;
      assert (head + j) % n == head + j - n;
    }
  }

  /** Advancing the head by one slot drops the window's first element. */
  lemma WindowPop(buf: seq<int>, head: int, len: nat)
    requires 0 < len <= |buf| && 0 <= head < |buf|
    ensures Window(buf, (head + 1) % |buf|, len - 1) == Window(buf, head, len)[1..]
  {
    var w, w' := Window(buf, head, len), Window(buf, (head + 1) % |buf|, len - 1);
    forall i | 0 <= i < len - 1
      ensures w'[i] == w[i + 1]
    {
      ModShift(head, i, |buf|);
    }
  }

  /** A slot number below the capacity is its own remainder. */
  lemma ModSmall(x: int, n: int)
    requires 0 <= x < n
    ensures x % n == x
  {
  }

  /** A slot number that went round once loses one capacity. */
  lemma ModOnce(x: int, n: int)
    requires 0 < n <= x < 2 * n
    ensures x % n == x - n
  {
  }

  /** Moving the head one slot on and then i slots reaches the slot i + 1 after the old head. */
  lemma ModShift(head: int, i: int, n: int)
    requires 0 <= head < n && 0 <= i < n - 1
    ensures ((head + 1) % n + i) % n == (head + i + 1) % n
  {
    if head + 1 == n {
      ModOnce(n, n);
      ModSmall(i, n);
      ModOnce(n + i, n);
    } else {
      ModSmall(head + 1, n);
    }
  }

  class CircularQueue {
    var values: array<int>
    var len: int
    var head: int

    /** len never exceeds the capacity, and head is a slot of a non-empty buffer. */
    ghost predicate Valid()
      reads this
    {
      && 0 <= len <= values.Length
      && (0 < values.Length ==> 0 <= head < values.Length)
    }

    /** The queued elements, oldest first. */
    ghost function Contents(): seq<int>
      requires Valid()
      reads this, values
    {
      Window(values[..], head, len)
    }

    /** NewCircularQueue: an empty queue over a zero-filled buffer of the given capacity. */
    constructor(size: nat)
      ensures Valid() && Contents() == [] && len == 0 && head == 0
      ensures values.Length == size && values[..] == seq(size, _ => 0)
      ensures fresh(values)
    {
      values := new int[size](_ => 0);
      len := 0;
      head := 0;
    }

    /** Push: refused on a full queue; otherwise writes the slot after the last element. */
    method Push(value: int) returns (ok: bool)
      requires Valid()
      modifies this, values
      ensures Valid() && values == old(values) && head == old(head)
      ensures ok <==> old(len) < values.Length
      ensures !ok ==> len == old(len) && values[..] == old(values[..])
      ensures ok ==> len == old(len) + 1
      ensures ok ==> values[..] == old(values[..])[(head + old(len)) % values.Length := value]
      ensures ok ==> Contents() == old(Contents()) + [value]
    {
      if Full() {
        return false;
      }
      var tail := (head + len) % values.Length;
      WindowPush(values[..], head, len, value);
      values[tail] := value;
      len := len + 1;
      return true;
    }

    /** Pop: refused on an empty queue; otherwise advances head past the oldest element. */
    method Pop() returns (ok: bool)
      requires Valid()
      modifies this
      ensures Valid() && values == old(values) && values[..] == old(values[..])
      ensures ok <==> old(len) > 0
      ensures !ok ==> len == old(len) && head == old(head)
      ensures ok ==> len == old(len) - 1 && head == (old(head) + 1) % values.Length
      ensures ok ==> Contents() == old(Contents())[1..]
    {
      if Empty() {
        return false;
      }
      WindowPop(values[..], head, len);
      head := (head + 1) % values.Length;
      len := len - 1;
      return true;
    }

    /** Front: the oldest element, or -1 on an empty queue. */
    function Front(): (v: int)
      requires Valid()
      reads this, values
      ensures v == if Contents() == [] then -1 else Contents()[0]
    {
      if Empty() then -1 else values[head]
    }

    /** Back: the newest element, or -1 on an empty queue. */
    function Back(): (v: int)
      requires Valid()
      reads this, values
      ensures v == if Contents() == [] then -1 else Contents()[|Contents()| - 1]
    {
      if Empty() then -1 else values[(head + len - 1) % values.Length]
    }

    /** Empty: nothing is queued. */
    function Empty(): (b: bool)
      requires Valid()
      reads this, values
      ensures b <==> Contents() == []
    {
      len == 0
    }

    /** Full: as many elements are queued as the buffer has slots. */
    function Full(): (b: bool)
      requires Valid()
      reads this, values
      ensures b <==> |Contents()| == values.Length
    {
      len == values.Length
    }
  }

  /** The first half of TestCircularQueue: an empty queue of capacity 3 refuses a pop, takes 1 2 3 and refuses 4. */
  method ScenarioFill() returns (q: CircularQueue, refusedPop: bool, refusedPush: bool)
    ensures fresh(q) && fresh(q.values) && q.Valid()
    ensures q.values[..] == [1, 2, 3] && q.head == 0 && q.len == 3
    ensures refusedPop && refusedPush
  {
    q := new CircularQueue(3);
    assert q.values[..] == [0, 0, 0];
    assert q.Empty() && !q.Full() && q.Front() == -1 && q.Back() == -1;
    var ok := q.Pop();
    refusedPop := !ok;
    ok := q.Push(1);
    assert q.values[..] == [1, 0, 0];
    ok := q.Push(2);
    assert q.values[..] == [1, 2, 0];
    ok := q.Push(3);
    assert q.values[..] == [1, 2, 3];
    ok := q.Push(4);
    refusedPush := !ok;
    assert q.Full() && q.Front() == 1 && q.Back() == 3;
  }

  /**
   * TestCircularQueue: once the queue holds 1 2 3, one pop and a push wrap the new
   * element to slot 0, so the buffer reads 4 2 3 with 2 in front and 4 at the back;
   * three pops empty the queue and a fourth is refused.
   */
  method ScenarioCircularQueue() returns (full: seq<int>, wrapped: seq<int>, front: int, back: int, lastPop: bool)
    ensures full == [1, 2, 3] && wrapped == [4, 2, 3]
    ensures front == 2 && back == 4 && !lastPop
  {
    var q, _, _ := ScenarioFill();
    full := q.values[..];
    var ok := q.Pop();
    assert ok && !q.Full();
    ok := q.Push(4);
    wrapped := q.values[..];
    front, back := q.Front(), q.Back();
    ok := q.Pop();
    ok := q.Pop();
    ok := q.Pop();
    assert ok && q.Empty();
    lastPop := q.Pop();
  }
}
