/**
  The wrap-aware order of queued frames (PtsComparator).

  A presentation timestamp is a time reduced modulo PERIOD. The comparator sees only the
  reduced values, so it can be the order of the true times only on a window shorter than
  half a period. This module states exactly when it is.
 */
module PtsOrder {

  /** Half of the 33-bit timestamp range, in microseconds: 2^32 * 100 / 9, rounded down. */
  const WRAP_THRESHOLD: int := 47721858844

  const PERIOD: int := 2 * WRAP_THRESHOLD

  /** A decoded frame: its timestamp and an identity standing for the picture it carries. */
  datatype Frame = Frame(pts: int, picture: int)

  datatype QueueItem = QueueItem(frame: Frame, seqNum: nat)

  function Abs(x: int): nat {
    if x < 0 then -x else x
  }

  /** PtsComparator: lhs must be handed out after rhs. */
  predicate Later(lhs: QueueItem, rhs: QueueItem) {
    var a := lhs.frame.pts;
    var b := rhs.frame.pts;
    if Abs(a - b) > WRAP_THRESHOLD then a < b
    else if a != b then a > b
    else lhs.seqNum > rhs.seqNum
  }

  predicate ReducedPts(x: QueueItem) {
    0 <= x.frame.pts < PERIOD
  }

  /** The only time at or after base, less than one period on, whose timestamp is pts. */
  function Unwrap(base: int, pts: int): (t: int)
    ensures base <= t < base + PERIOD
    ensures 0 <= pts < PERIOD ==> t % PERIOD == pts
  {
    var t := base + (pts - base) % PERIOD;
    assert 0 <= pts < PERIOD ==> t % PERIOD == pts by {
      ReductionOfUnwrap(base, pts);
    }
    t
  }

  /** A remainder is determined by its range. */
  lemma RemainderUnique(a: int, q: int, m: int, r: int)
    requires a == q * m + r && 0 <= r < m
    ensures a % m == r
  {
    var d := a / m - q;
    assert d * m == r - a % m;
    assert d >= 1 ==> d * m >= m;
    assert d <= -1 ==> d * m <= -m;
  }

  lemma ReductionOfUnwrap(base: int, pts: int)
    ensures 0 <= pts < PERIOD ==> (base + (pts - base) % PERIOD) % PERIOD == pts
  {
    var m := PERIOD;
    var q := (pts - base) / m;
    assert pts - base == m * q + (pts - base) % m;
    if 0 <= pts < m {
      RemainderUnique(base + (pts - base) % m, -q, m, pts);
    }
  }

  /** The frame's time lies in the half-period window that starts at base. */
  predicate InWindow(base: int, x: QueueItem) {
    ReducedPts(x) && Unwrap(base, x.frame.pts) < base + WRAP_THRESHOLD
  }

  /** x comes strictly after y on (unwrapped time, push number). */
  predicate After(base: int, x: QueueItem, y: QueueItem) {
    var tx := Unwrap(base, x.frame.pts);
    var ty := Unwrap(base, y.frame.pts);
    tx > ty || (tx == ty && x.seqNum > y.seqNum)
  }

  /**
    For two times less than a period apart the comparator orders the frames correctly exactly
    when they are less than half a period apart, or exactly half a period apart with no wrap
    in between.
   */
  lemma PairOrderExact(t1: int, t2: int, x: QueueItem, y: QueueItem)
    requires t1 < t2 < t1 + PERIOD
    requires x.frame.pts == t1 % PERIOD && y.frame.pts == t2 % PERIOD
    ensures (Later(y, x) && !Later(x, y))
       <==> t2 - t1 < WRAP_THRESHOLD || (t2 - t1 == WRAP_THRESHOLD && x.frame.pts < y.frame.pts)
  {
    ReductionGap(t1, t2);
  }

  lemma ReductionGap(t1: int, t2: int)
    requires t1 <= t2 < t1 + PERIOD
    ensures t2 % PERIOD - t1 % PERIOD == t2 - t1 || t2 % PERIOD - t1 % PERIOD == t2 - t1 - PERIOD
  {
    RemainderGap(t1, t2, PERIOD);
  }

  lemma RemainderGap(t1: int, t2: int, m: int)
    requires 0 < m && t1 <= t2 < t1 + m
    ensures t2 % m - t1 % m == t2 - t1 || t2 % m - t1 % m == t2 - t1 - m
  {
    QuotientGap(m, t1 / m, t1 % m, t2 / m, t2 % m);
  }

  lemma QuotientGap(m: int, q1: int, r1: int, q2: int, r2: int)
    requires 0 <= r1 < m && 0 <= r2 < m && 0 <= m * q2 + r2 - (m * q1 + r1) < m
    ensures q2 == q1 || q2 == q1 + 1
    ensures q2 == q1 + 1 ==> m * q2 == m * q1 + m
  {
    if q2 < q1 {
      MultipleGrows(m, q2 + 1, q1);
    } else if q2 > q1 + 1 {
      MultipleGrows(m, q1 + 2, q2);
    }
  }

  lemma MultipleGrows(m: int, q: int, p: int)
    requires m >= 0 && q <= p
    ensures m * q <= m * p
  {
  }

  /** On a half-period window the comparator is exactly the order of the true times. */
  lemma OrderExactOnWindow(base: int, x: QueueItem, y: QueueItem)
    requires InWindow(base, x) && InWindow(base, y)
    ensures Later(x, y) <==> After(base, x, y)
  {
    var tx := Unwrap(base, x.frame.pts);
    var ty := Unwrap(base, y.frame.pts);
    if tx < ty {
      PairOrderExact(tx, ty, x, y);
    } else if ty < tx {
      PairOrderExact(ty, tx, y, x);
    }
  }

  /** What the heap algorithms ask of their comparator: a strict weak order. */
  ghost predicate StrictWeakOrder(items: set<QueueItem>) {
    && (forall x, y | x in items && y in items :: Later(x, y) ==> !Later(y, x))
    && (forall x, y, z | x in items && y in items && z in items ::
          !Later(x, y) && !Later(y, z) ==> !Later(x, z))
  }

  ghost predicate FitsWindow(base: int, items: set<QueueItem>) {
    forall x | x in items :: InWindow(base, x)
  }

  lemma WindowIsStrictWeakOrder(base: int, items: set<QueueItem>)
    requires FitsWindow(base, items)
    ensures StrictWeakOrder(items)
  {
    forall x, y | x in items && y in items
      ensures Later(x, y) <==> After(base, x, y)
    {
      OrderExactOnWindow(base, x, y);
    }
  }

  /** Frames in a window with distinct push numbers are totally ordered: one of any two comes first. */
  lemma WindowIsTotalOrder(base: int, x: QueueItem, y: QueueItem)
    requires InWindow(base, x) && InWindow(base, y) && x.seqNum != y.seqNum
    ensures Later(x, y) != Later(y, x)
  {
    OrderExactOnWindow(base, x, y);
    OrderExactOnWindow(base, y, x);
  }

  /**
    The window bound is tight: times exactly WRAP_THRESHOLD apart are handed out in the wrong
    order as soon as the wrap falls between them.
   */
  lemma SpanOfThresholdMisorders(t: int, x: QueueItem, y: QueueItem)
    requires t % PERIOD >= WRAP_THRESHOLD
    requires x.frame.pts == t % PERIOD && y.frame.pts == (t + WRAP_THRESHOLD) % PERIOD
    ensures Later(x, y) && !Later(y, x)
  {
    ReductionGap(t, t + WRAP_THRESHOLD);
  }

  /** One microsecond more and the comparator has a cycle, so it is no order at all. */
  lemma BeyondThresholdCycles(p: int, s: nat)
    requires 0 <= p && p + WRAP_THRESHOLD + 1 < PERIOD
    ensures
      var x := QueueItem(Frame(p, 0), s);
      var y := QueueItem(Frame(p + WRAP_THRESHOLD, 0), s);
      var z := QueueItem(Frame(p + WRAP_THRESHOLD + 1, 0), s);
      && Later(y, x) && Later(z, y) && Later(x, z)
      && !StrictWeakOrder({x, y, z})
  {
    var x := QueueItem(Frame(p, 0), s);
    var y := QueueItem(Frame(p + WRAP_THRESHOLD, 0), s);
    var z := QueueItem(Frame(p + WRAP_THRESHOLD + 1, 0), s);
    var items := {x, y, z};
    assert x in items && y in items && z in items;
    assert !Later(x, y) && !Later(y, z) && Later(x, z);
  }
}
