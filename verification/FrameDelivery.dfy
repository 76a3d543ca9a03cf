/**
  Whole runs of the frame buffer: in which order do frames come out?

  The frames have true times in ticks, of which the buffer sees the 33-bit counts in microseconds.
  While the queued times span less than half the range of counts, every pop takes the first frame of
  the queue; the whole output is in presentation order exactly when no frame arrives too late.
 */
module FrameDelivery {
  import opened PtsOrder
  import Ticks = TickOrder
  import opened FrameBuffer

  datatype Event = Arrive(item: QueueItem) | Deliver(item: QueueItem) | Abort

  ghost predicate Step(b: Buffer, e: Event, b': Buffer) {
    match e
    case Arrive(x) =>
      && !b.aborted && |b.items| < b.capacity
      && x.seqNum == b.nextSeqNum && b' == Pushed(b, x.frame)
    case Deliver(x) => !b.aborted && PopsTo(b, x, b')
    case Abort => b' == b.(aborted := true)
  }

  ghost predicate StepAt(states: seq<Buffer>, log: seq<Event>, k: nat)
    requires k < |log| && |states| == |log| + 1
  {
    Step(states[k], log[k], states[k + 1])
  }

  /** A run: states[k] is the buffer before log[k]. */
  ghost predicate IsRun(states: seq<Buffer>, log: seq<Event>) {
    && |states| == |log| + 1
    && states[0] == Empty(states[0].capacity)
    && forall k | 0 <= k < |log| :: StepAt(states, log, k)
  }

  lemma StepKeepsWellFormed(b: Buffer, e: Event, b': Buffer)
    requires WellFormed(b) && Step(b, e, b')
    ensures WellFormed(b')
  {
    match e
    case Arrive(x) => PushKeepsWellFormed(b, x.frame);
    case Deliver(x) => PopKeepsWellFormed(b, x, b');
    case Abort =>
  }

  /** One more step makes a longer run. */
  lemma ExtendRun(states: seq<Buffer>, log: seq<Event>, e: Event, b': Buffer)
    requires IsRun(states, log) && Step(states[|log|], e, b')
    ensures IsRun(states + [b'], log + [e])
  {
    forall k | 0 <= k < |log| + 1 ensures StepAt(states + [b'], log + [e], k) {
      assert k < |log| ==> StepAt(states, log, k);
    }
  }

  lemma {:induction false} RunWellFormed(states: seq<Buffer>, log: seq<Event>, k: nat)
    requires IsRun(states, log) && k < |states|
    ensures WellFormed(states[k])
  {
    if k > 0 {
      RunWellFormed(states, log, k - 1);
      assert StepAt(states, log, k - 1);
      StepKeepsWellFormed(states[k - 1], log[k - 1], states[k]);
    }
  }

  /** The true time, in ticks, of the frame with each push number. */
  type Times = nat -> int

  /** x is to be shown before y: earlier, or at the same time and pushed first. */
  predicate Before(times: Times, x: QueueItem, y: QueueItem) {
    times(x.seqNum) < times(y.seqNum)
    || (times(x.seqNum) == times(y.seqNum) && x.seqNum < y.seqNum)
  }

  predicate Stamped(times: Times, x: QueueItem) {
    Ticks.Stamped(x, times(x.seqNum))
  }

  /** The queue fits half the range: its frames' times differ by less than two to the power 32 ticks. */
  ghost predicate Compact(times: Times, items: multiset<QueueItem>) {
    && (forall x | x in items :: Stamped(times, x))
    && (forall x, y | x in items && y in items ::
          times(x.seqNum) - times(y.seqNum) < Ticks.HALF)
  }

  lemma LaterIsReverseOfBefore(times: Times, items: multiset<QueueItem>, x: QueueItem, y: QueueItem)
    requires Compact(times, items) && x in items && y in items
    ensures Later(x, y) <==> Before(times, y, x)
  {
    var tx, ty := times(x.seqNum), times(y.seqNum);
    if tx < ty {
      Ticks.TickOrderExact(tx, ty, x, y);
    } else if ty < tx {
      Ticks.TickOrderExact(ty, tx, y, x);
    }
  }

  lemma CompactIsComparable(times: Times, items: multiset<QueueItem>)
    requires Compact(times, items)
    ensures Comparable(items)
  {
    forall x, y | x in items && y in items ensures Later(x, y) <==> Before(times, y, x) {
      LaterIsReverseOfBefore(times, items, x, y);
    }
  }

  ghost predicate CompactRun(times: Times, states: seq<Buffer>) {
    forall k | 0 <= k < |states| :: Compact(times, states[k].items)
  }

  lemma {:induction false} CompactRunIsOrderly(times: Times, states: seq<Buffer>, log: seq<Event>, k: nat)
    requires IsRun(states, log) && CompactRun(times, states) && k < |states|
    ensures states[k].orderly
  {
    if k > 0 {
      CompactRunIsOrderly(times, states, log, k - 1);
      assert StepAt(states, log, k - 1);
      CompactIsComparable(times, states[k].items);
    }
  }

  /** Each delivery takes the frame to be shown before everything else queued. */
  lemma DeliveryIsEarliest(times: Times, states: seq<Buffer>, log: seq<Event>, k: nat)
    requires IsRun(states, log) && CompactRun(times, states) && k < |log| && log[k].Deliver?
    ensures log[k].item in states[k].items
    ensures forall y | y in states[k].items && y != log[k].item :: Before(times, log[k].item, y)
  {
    var x := log[k].item;
    assert StepAt(states, log, k);
    CompactRunIsOrderly(times, states, log, k);
    RunWellFormed(states, log, k);
    forall y | y in states[k].items && y != x ensures Before(times, x, y) {
      LaterIsReverseOfBefore(times, states[k].items, x, y);
    }
  }

  lemma StepKeepsOld(b: Buffer, e: Event, b': Buffer, y: QueueItem)
    requires Step(b, e, b') && y in b'.items && y.seqNum < b.nextSeqNum
    ensures y in b.items
  {
    if e.Arrive? {
      assert b'.items == b.items + multiset{QueueItem(e.item.frame, b.nextSeqNum)};
    }
  }

  lemma QueuedBefore(states: seq<Buffer>, log: seq<Event>, k: nat, y: QueueItem)
    requires IsRun(states, log) && 0 < k < |states|
    requires y in states[k].items && y.seqNum < states[k - 1].nextSeqNum
    ensures y in states[k - 1].items
  {
    assert StepAt(states, log, k - 1);
    StepKeepsOld(states[k - 1], log[k - 1], states[k], y);
  }

  /** A frame queued at k with a push number issued before j was already queued at j. */
  lemma {:induction false} QueuedSince(states: seq<Buffer>, log: seq<Event>, j: nat, k: nat, y: QueueItem)
    requires IsRun(states, log) && j <= k < |states|
    requires y in states[k].items && y.seqNum < states[j].nextSeqNum
    ensures y in states[j].items
    decreases k
  {
    if j < k {
      NumbersGrow(states, log, j, k - 1);
      QueuedBefore(states, log, k, y);
      QueuedSince(states, log, j, k - 1, y);
    }
  }

  lemma {:induction false} NumbersGrow(states: seq<Buffer>, log: seq<Event>, j: nat, k: nat)
    requires IsRun(states, log) && j <= k < |states|
    ensures states[j].nextSeqNum <= states[k].nextSeqNum
    decreases k
  {
    if j < k {
      NumbersGrow(states, log, j, k - 1);
      assert StepAt(states, log, k - 1);
    }
  }

  /** A frame queued at k with a push number not yet issued at j arrived in between. */
  lemma {:induction false} ArrivedBetween(states: seq<Buffer>, log: seq<Event>, j: nat, k: nat, y: QueueItem)
    returns (m: nat)
    requires IsRun(states, log) && j <= k < |states|
    requires y in states[k].items && y.seqNum >= states[j].nextSeqNum
    ensures j <= m < k && log[m] == Arrive(y)
    decreases k
  {
    RunWellFormed(states, log, k);
    assert StepAt(states, log, k - 1);
    if y in states[k - 1].items {
      m := ArrivedBetween(states, log, j, k - 1, y);
    } else {
      m := k - 1;
    }
  }

  /** The frames come out in presentation order. */
  ghost predicate InPresentationOrder(times: Times, log: seq<Event>) {
    forall i, k | 0 <= i < k < |log| && log[i].Deliver? && log[k].Deliver? ::
      Before(times, log[i].item, log[k].item)
  }

  /** Some frame that is delivered arrived only after one to be shown after it had left. */
  ghost predicate SomeFrameLate(times: Times, log: seq<Event>) {
    exists i, j, k | 0 <= i < j < k < |log| ::
      && log[i].Deliver? && log[k].Deliver? && log[j] == Arrive(log[k].item)
      && !Before(times, log[i].item, log[k].item)
  }

  /** What is queued after a delivery was queued before it, and is another frame. */
  lemma LeftBehind(states: seq<Buffer>, log: seq<Event>, i: nat, y: QueueItem)
    requires IsRun(states, log) && i < |log| && log[i].Deliver? && y in states[i + 1].items
    ensures y in states[i].items && y != log[i].item
  {
    assert StepAt(states, log, i);
    RunWellFormed(states, log, i);
    PopKeepsWellFormed(states[i], log[i].item, states[i + 1]);
  }

  lemma DeliveredWasQueued(states: seq<Buffer>, log: seq<Event>, k: nat)
    requires IsRun(states, log) && k < |log| && log[k].Deliver?
    ensures log[k].item in states[k].items
  {
    assert StepAt(states, log, k);
  }

  /** A frame that was queued when an earlier one was delivered comes after it. */
  lemma QueuedComesAfter(times: Times, states: seq<Buffer>, log: seq<Event>, i: nat, k: nat)
    requires IsRun(states, log) && CompactRun(times, states) && i < k < |log|
    requires log[i].Deliver? && log[k].Deliver? && log[k].item.seqNum < states[i + 1].nextSeqNum
    ensures Before(times, log[i].item, log[k].item)
  {
    DeliveredWasQueued(states, log, k);
    QueuedSince(states, log, i + 1, k, log[k].item);
    LeftBehind(states, log, i, log[k].item);
    DeliveryIsEarliest(times, states, log, i);
  }

  /** A frame that arrived after an earlier one was delivered comes after it, unless it is late. */
  lemma ArrivedComesAfter(times: Times, states: seq<Buffer>, log: seq<Event>, i: nat, k: nat)
    requires IsRun(states, log) && i < k < |log| && !SomeFrameLate(times, log)
    requires log[i].Deliver? && log[k].Deliver? && log[k].item.seqNum >= states[i + 1].nextSeqNum
    ensures Before(times, log[i].item, log[k].item)
  {
    DeliveredWasQueued(states, log, k);
    var j := ArrivedBetween(states, log, i + 1, k, log[k].item);
    NotLate(times, log, i, j, k);
  }

  lemma NotLate(times: Times, log: seq<Event>, i: nat, j: nat, k: nat)
    requires !SomeFrameLate(times, log) && i < j < k < |log|
    requires log[i].Deliver? && log[k].Deliver? && log[j] == Arrive(log[k].item)
    ensures Before(times, log[i].item, log[k].item)
  {
  }

  /** A delivered frame never arrives again and is never delivered again. */
  lemma OutputPairs(times: Times, states: seq<Buffer>, log: seq<Event>, i: nat, k: nat)
    requires IsRun(states, log) && CompactRun(times, states) && i < k < |log|
    requires log[i].Deliver? && log[k].Deliver? && !SomeFrameLate(times, log)
    ensures Before(times, log[i].item, log[k].item)
  {
    if log[k].item.seqNum < states[i + 1].nextSeqNum {
      QueuedComesAfter(times, states, log, i, k);
    } else {
      ArrivedComesAfter(times, states, log, i, k);
    }
  }

  /**
    Reordering works exactly when nothing is late: provided the queued times always span less
    than half the range, the whole output is in presentation order if and only if no frame
    arrives after a frame that follows it has been handed out.
   */
  lemma OutputOrderedIffNothingLate(times: Times, states: seq<Buffer>, log: seq<Event>)
    requires IsRun(states, log) && CompactRun(times, states)
    ensures InPresentationOrder(times, log) <==> !SomeFrameLate(times, log)
  {
    if !SomeFrameLate(times, log) {
      forall i, k | 0 <= i < k < |log| && log[i].Deliver? && log[k].Deliver?
        ensures Before(times, log[i].item, log[k].item)
      {
        OutputPairs(times, states, log, i, k);
      }
    }
  }

  function ArrivedIn(e: Event): multiset<QueueItem> {
    if e.Arrive? then multiset{e.item} else multiset{}
  }

  function DeliveredIn(e: Event): multiset<QueueItem> {
    if e.Deliver? then multiset{e.item} else multiset{}
  }

  function Arrived(log: seq<Event>): multiset<QueueItem> {
    if log == [] then multiset{} else Arrived(log[..|log| - 1]) + ArrivedIn(log[|log| - 1])
  }

  function Delivered(log: seq<Event>): multiset<QueueItem> {
    if log == [] then multiset{} else Delivered(log[..|log| - 1]) + DeliveredIn(log[|log| - 1])
  }

  lemma OneMoreEvent(log: seq<Event>, n: nat)
    requires n < |log|
    ensures Arrived(log[..n + 1]) == Arrived(log[..n]) + ArrivedIn(log[n])
    ensures Delivered(log[..n + 1]) == Delivered(log[..n]) + DeliveredIn(log[n])
  {
    var longer := log[..n + 1];
    assert longer[..n] == log[..n] && longer[n] == log[n];
  }

  lemma StepConserves(b: Buffer, e: Event, b': Buffer)
    requires Step(b, e, b')
    ensures b.items + ArrivedIn(e) == b'.items + DeliveredIn(e)
  {
  }

  lemma BalanceKept(a: multiset<QueueItem>, d: multiset<QueueItem>, q: multiset<QueueItem>,
                    e: multiset<QueueItem>, f: multiset<QueueItem>, q': multiset<QueueItem>)
    requires a == d + q && q + e == q' + f
    ensures a + e == d + f + q'
  {
    assert a + e == d + (q + e);
  }

  /** Conservation: what arrived is what was delivered plus what is queued, window or not. */
  lemma {:induction false} NothingLostOrInvented(states: seq<Buffer>, log: seq<Event>, n: nat)
    requires IsRun(states, log) && n <= |log|
    ensures Arrived(log[..n]) == Delivered(log[..n]) + states[n].items
  {
    if n > 0 {
      NothingLostOrInvented(states, log, n - 1);
      assert StepAt(states, log, n - 1);
      StepConserves(states[n - 1], log[n - 1], states[n]);
      OneMoreEvent(log, n - 1);
      BalanceKept(Arrived(log[..n - 1]), Delivered(log[..n - 1]), states[n - 1].items,
                  ArrivedIn(log[n - 1]), DeliveredIn(log[n - 1]), states[n].items);
    }
  }
}
