/**
  The comparator on real streams: the demuxer turns a 33-bit count of 90 kHz ticks into the nearest
  microsecond, and a stream that goes on past the last count starts again at 0.
 */
module TickOrder {
  import opened Numbers
  import opened PtsOrder

  /** Counts are reduced modulo two to the power 33. */
  const COUNTS: int := 0x2_0000_0000

  const HALF: int := 0x1_0000_0000

  /** The microsecond nearest to a count of ticks: 100 / 9 of it, and no count falls in the middle. */
  function Micros(ticks: nat): nat {
    (200 * ticks + 9) / 18
  }

  /** It is less than half a microsecond away, so no other is as near. */
  lemma MicrosIsNearest(ticks: nat)
    ensures -9 < 18 * Micros(ticks) - 200 * ticks < 9
  {
  }

  /** The constants are half the range of counts, and the whole, in microseconds rounded down. */
  lemma ThresholdIsHalfTheRange()
    ensures COUNTS == TwoTo(33) && HALF == TwoTo(32)
    ensures WRAP_THRESHOLD == TwoTo(32) * 100 / 9 && PERIOD == TwoTo(33) * 100 / 9
  {
    PowersOfTwo();
  }

  /** x carries the timestamp of tick t. */
  predicate Stamped(x: QueueItem, t: int) {
    x.frame.pts == Micros(t % COUNTS)
  }

  /**
    For two ticks less than the whole range apart the comparator orders the frames correctly when
    they are less than half the range apart and wrongly when they are more; exactly half the range
    apart it depends on how the timestamps of the two round.
   */
  lemma TickOrderExact(t1: int, t2: int, x: QueueItem, y: QueueItem)
    requires t1 < t2 < t1 + COUNTS && Stamped(x, t1) && Stamped(y, t2)
    ensures t2 - t1 != HALF ==> ((Later(y, x) && !Later(x, y)) <==> t2 - t1 < HALF)
    ensures t2 - t1 == HALF ==>
              ((Later(y, x) && !Later(x, y)) <==>
                (x.frame.pts < y.frame.pts <==> Abs(y.frame.pts - x.frame.pts) == WRAP_THRESHOLD))
  {
    RemainderGap(t1, t2, COUNTS);
    MicrosGap(t1 % COUNTS, t2 % COUNTS);
  }

  /** Timestamps are as far apart as the ticks, up to rounding. */
  lemma MicrosGap(a: int, b: int)
    requires 0 <= a && 0 <= b
    ensures -9 < 9 * (Micros(b) - Micros(a)) - 100 * (b - a) < 9
  {
  }

  /** On a stretch shorter than half the range the comparator is the order of ticks, then of push numbers. */
  lemma TickWindowIsOrdered(base: int, time: QueueItem -> int, items: set<QueueItem>)
    requires forall x | x in items :: base <= time(x) < base + HALF && Stamped(x, time(x))
    ensures forall x, y | x in items && y in items ::
              Later(x, y) <==> time(x) > time(y) || (time(x) == time(y) && x.seqNum > y.seqNum)
    ensures StrictWeakOrder(items)
  {
    forall x, y | x in items && y in items
      ensures Later(x, y) <==> time(x) > time(y) || (time(x) == time(y) && x.seqNum > y.seqNum)
    {
      if time(x) < time(y) {
        TickOrderExact(time(x), time(y), x, y);
      } else if time(y) < time(x) {
        TickOrderExact(time(y), time(x), y, x);
      }
    }
  }
}
