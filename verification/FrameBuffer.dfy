/**
  PtsFrameBuffer as a sequential object: what one critical section of push, pop and abort does
  to the queue. Blocking and wake-ups are the subject of FrameMonitor.
 */
module FrameBuffer {
  import opened Wrappers
  import opened PtsOrder
  import opened FrameHeap

  /**
    The abstract buffer: a bag of items. `orderly` records that every content so far met what
    the heap algorithms ask of the comparator.
   */
  datatype Buffer = Buffer(capacity: nat, items: multiset<QueueItem>, nextSeqNum: nat,
                           aborted: bool, orderly: bool)

  function Empty(capacity: nat): Buffer {
    Buffer(capacity, multiset{}, 0, false, true)
  }

  ghost predicate Comparable(items: multiset<QueueItem>) {
    StrictWeakOrder(set x | x in items)
  }

  ghost function Pushed(b: Buffer, frame: Frame): Buffer {
    var items := b.items + multiset{QueueItem(frame, b.nextSeqNum)};
    b.(items := items, nextSeqNum := b.nextSeqNum + 1, orderly := b.orderly && Comparable(items))
  }

  /** x leaves the buffer; it is a first item unless the comparator has failed before. */
  ghost predicate PopsTo(b: Buffer, x: QueueItem, b': Buffer) {
    && x in b.items
    && b' == b.(items := b.items - multiset{x})
    && (b.orderly ==> forall y | y in b.items :: !Later(x, y))
  }

  /** Every queued push number was issued, and issued once. */
  ghost predicate NumbersIssuedOnce(b: Buffer) {
    && (forall x | x in b.items :: x.seqNum < b.nextSeqNum && b.items[x] == 1)
    && (forall x, y | x in b.items && y in b.items && x.seqNum == y.seqNum :: x == y)
  }

  ghost predicate WellFormed(b: Buffer) {
    && |b.items| <= b.capacity
    && NumbersIssuedOnce(b)
    && (b.orderly ==> Comparable(b.items))
  }

  lemma PushKeepsWellFormed(b: Buffer, frame: Frame)
    requires WellFormed(b) && |b.items| < b.capacity
    ensures WellFormed(Pushed(b, frame))
  {
    var item := QueueItem(frame, b.nextSeqNum);
    assert item !in b.items;
    assert forall x | x in Pushed(b, frame).items :: x == item || x in b.items;
  }

  lemma SmallerIsComparable(items: multiset<QueueItem>, fewer: multiset<QueueItem>)
    requires Comparable(items) && forall x | x in fewer :: x in items
    ensures Comparable(fewer)
  {
    var all, some := set x | x in items, set x | x in fewer;
    assert some <= all;
  }

  lemma PopKeepsWellFormed(b: Buffer, x: QueueItem, b': Buffer)
    requires WellFormed(b) && PopsTo(b, x, b')
    ensures WellFormed(b') && x !in b'.items && |b'.items| == |b.items| - 1
  {
    if b.orderly {
      SmallerIsComparable(b.items, b'.items);
    }
  }

  /** As long as the queued frames fit one window, the heap algorithms get the order they need. */
  lemma WindowKeepsOrderly(b: Buffer, frame: Frame, base: int)
    requires b.orderly && FitsWindow(base, set x | x in Pushed(b, frame).items)
    ensures Pushed(b, frame).orderly
  {
    WindowIsStrictWeakOrder(base, set x | x in Pushed(b, frame).items);
  }

  /** On a window pop hands out the earliest time, and among equal times the first pushed. */
  lemma PopIsEarliestOnWindow(b: Buffer, x: QueueItem, b': Buffer, base: int)
    requires WellFormed(b) && b.orderly && PopsTo(b, x, b')
    requires FitsWindow(base, set y | y in b.items)
    ensures forall y | y in b'.items :: After(base, y, x)
  {
    PopKeepsWellFormed(b, x, b');
    forall y | y in b'.items ensures After(base, y, x) {
      assert y in b.items && y != x;
      WindowIsTotalOrder(base, x, y);
      OrderExactOnWindow(base, y, x);
    }
  }

  /** The class itself: a heap in the front part of an array. */
  class PtsFrameBuffer {
    const maxCapacity: nat
    var nextSeqNum: nat
    var aborted: bool
    const queue: array<QueueItem>
    var size: nat
    ghost var orderly: bool

    ghost predicate Valid()
      reads this, queue
    {
      && queue.Length == maxCapacity && size <= maxCapacity
      && WellFormed(Contents())
      && (orderly ==> IsHeap(queue[..size]))
    }

    ghost function Contents(): Buffer
      reads this, queue
      requires size <= queue.Length
    {
      Buffer(maxCapacity, multiset(queue[..size]), nextSeqNum, aborted, orderly)
    }

    constructor (maxCapacity: nat)
      ensures Valid() && fresh(queue) && Contents() == Empty(maxCapacity)
    {
      this.maxCapacity := maxCapacity;
      this.queue := new QueueItem[maxCapacity](_ => QueueItem(Frame(0, 0), 0));
      this.size := 0;
      this.nextSeqNum := 0;
      this.aborted := false;
      this.orderly := true;
      new;
      assert queue[..size] == [];
    }

    /** The predicate push waits for. */
    predicate MayPush()
      reads this
    {
      size < maxCapacity || aborted
    }

    /** The predicate pop waits for. */
    predicate MayPop()
      reads this
    {
      size > 0 || aborted
    }

    method Push(frame: Frame) returns (accepted: bool)
      requires Valid() && MayPush()
      modifies this, queue
      ensures Valid()
      ensures accepted == !old(aborted)
      ensures Contents() == if accepted then Pushed(old(Contents()), frame) else old(Contents())
    {
      if aborted {
        return false;
      }
      ghost var before, was := Contents(), queue[..size];
      ghost var after := Pushed(before, frame);
      HeapAfterPush(before, frame, was);
      AddToHeap(QueueItem(frame, nextSeqNum));
      nextSeqNum := nextSeqNum + 1;
      orderly := after.orderly;
      accepted := true;
      assert Contents() == after;
    }

    /** Puts an item at the back and lets it rise. */
    method AddToHeap(item: QueueItem)
      requires size < queue.Length
      modifies this`size, queue
      ensures size == old(size) + 1
      ensures queue[..size] == Raised(old(queue[..size]) + [item], old(size))
    {
      queue[size] := item;
      size := size + 1;
      assert queue[..size] == old(queue[..size]) + [item];
      PushHeap(queue, size);
    }

    method Pop() returns (result: Option<Frame>, ghost item: QueueItem)
      requires Valid() && MayPop()
      modifies this, queue
      ensures Valid()
      ensures result == if old(aborted) then None else Some(item.frame)
      ensures if result.None? then Contents() == old(Contents())
              else PopsTo(old(Contents()), item, Contents())
    {
      item := QueueItem(Frame(0, 0), 0);
      if aborted {
        return None, item;
      }
      ghost var before, was := Contents(), queue[..size];
      ghost var after := before.(items := multiset(Popped(was)));
      HeapAfterPop(before, was);
      item := TakeFromHeap();
      result := Some(queue[size].frame);
      assert Contents() == after;
    }

    /** Takes the root out of the heap and leaves it behind the others. */
    method TakeFromHeap() returns (ghost item: QueueItem)
      requires 0 < size <= queue.Length
      modifies this`size, queue
      ensures size == old(size) - 1 && item == old(queue[..size][0])
      ensures queue[..size] == Popped(old(queue[..size])) && queue[size] == item
    {
      item := queue[0];
      PopHeap(queue, size);
      size := size - 1;
    }

    method Abort()
      requires Valid()
      modifies this
      ensures Valid() && Contents() == old(Contents()).(aborted := true)
    {
      aborted := true;
    }

  }

  /** The elements of the heap stand for the buffer. */
  ghost predicate Holds(q: seq<QueueItem>, b: Buffer) {
    multiset(q) == b.items && (b.orderly ==> IsHeap(q))
  }

  lemma HeapAfterPush(b: Buffer, frame: Frame, q: seq<QueueItem>)
    requires WellFormed(b) && |q| < b.capacity && Holds(q, b)
    ensures WellFormed(Pushed(b, frame))
    ensures Holds(Raised(q + [QueueItem(frame, b.nextSeqNum)], |q|), Pushed(b, frame))
  {
    var x := QueueItem(frame, b.nextSeqNum);
    assert |multiset(q)| == |q|;
    PushKeepsWellFormed(b, frame);
    PushKeepsHeap(q, x);
    SetOfItems(q + [x]);
    assert multiset(q + [x]) == multiset(q) + multiset{x};
  }

  lemma HeapAfterPop(b: Buffer, q: seq<QueueItem>)
    requires WellFormed(b) && q != [] && Holds(q, b)
    ensures
      var b' := b.(items := multiset(Popped(q)));
      PopsTo(b, q[0], b') && WellFormed(b') && Holds(Popped(q), b')
  {
    SetOfItems(q);
    FirstIsEarliest(q);
    PopKeepsHeap(q);
    PopKeepsWellFormed(b, q[0], b.(items := multiset(Popped(q))));
  }

  lemma FirstIsEarliest(q: seq<QueueItem>)
    requires q != []
    ensures q[0] in multiset(q)
    ensures IsHeap(q) && Comparable(multiset(q)) ==> forall y | y in multiset(q) :: !Later(q[0], y)
  {
    SetOfItems(q);
    if IsHeap(q) && Comparable(multiset(q)) {
      forall y | y in multiset(q) ensures !Later(q[0], y) {
        var k :| 0 <= k < |q| && q[k] == y;
        RootIsEarliest(q, k);
      }
    }
  }

  lemma SetOfItems(q: seq<QueueItem>)
    ensures (set x | x in multiset(q)) == Items(q)
  {
    assert forall x :: x in multiset(q) <==> x in q;
  }
}
