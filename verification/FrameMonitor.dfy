/**
  PtsFrameBuffer as a monitor: any number of threads call push, pop and abort.

  One move is one critical section, one notification or one wake-up. push and pop notify only
  after they have released the lock, so a thread that has finished its critical section but
  still owes its notification is a state of its own. Wake-ups may be spurious.
 */
module FrameMonitor {
  import opened Wrappers
  import opened PtsOrder
  import opened FrameBuffer
  import opened Roster
  import Delivery = FrameDelivery

  /**
    Where a thread is. Parked: waiting on the condition variable, not signalled. Woken: about to
    take the lock and test again. Owing: done but for the notification it still has to send.
   */
  datatype Role =
    | Outside
    | PushParked | PushWoken | PushOwing
    | PopParked | PopWoken | PopOwing

  /** frames holds the argument of every thread inside push. */
  datatype Monitor = Monitor(buf: Buffer, threads: Roster<Role>, frames: map<Tid, Frame>,
                             log: seq<Delivery.Event>)

  datatype Move =
    | CallPush(t: Tid, frame: Frame)
    | ResumePush(t: Tid)
    | NotifyPopper(t: Tid, woken: Option<Tid>)
    | CallPop(t: Tid, item: QueueItem)
    | ResumePop(t: Tid, item: QueueItem)
    | NotifyPusher(t: Tid, woken: Option<Tid>)
    | WakeSpuriously(t: Tid)
    | CallAbort(t: Tid)

  function Start(capacity: nat): Monitor {
    Monitor(Empty(capacity), map[], map[], [])
  }

  predicate Idle(m: Monitor, t: Tid) {
    t !in m.threads || m.threads[t] == Outside
  }

  /** The critical section of push. */
  ghost function EnterPush(m: Monitor, t: Tid, frame: Frame): Monitor {
    if m.buf.aborted then m.(threads := m.threads[t := Outside])
    else if |m.buf.items| < m.buf.capacity then
      m.(buf := Pushed(m.buf, frame),
         threads := m.threads[t := PushOwing],
         log := m.log + [Delivery.Arrive(QueueItem(frame, m.buf.nextSeqNum))])
    else m.(threads := m.threads[t := PushParked], frames := m.frames[t := frame])
  }

  /** The critical section of pop. */
  ghost predicate EnterPop(m: Monitor, t: Tid, item: QueueItem, m': Monitor) {
    if m.buf.aborted then m' == m.(threads := m.threads[t := Outside])
    else if |m.buf.items| > 0 then
      && PopsTo(m.buf, item, m'.buf)
      && m' == m.(buf := m'.buf, threads := m.threads[t := PopOwing],
                  log := m.log + [Delivery.Deliver(item)])
    else m' == m.(threads := m.threads[t := PopParked])
  }

  /** notify_all on both condition variables. */
  function WakeAll(threads: Roster<Role>): Roster<Role> {
    map t | t in threads ::
      match threads[t]
      case PushParked => PushWoken
      case PopParked => PopWoken
      case role => role
  }

  ghost predicate Next(m: Monitor, move: Move, m': Monitor) {
    match move
    case CallPush(t, frame) => Idle(m, t) && m' == EnterPush(m, t, frame)
    case ResumePush(t) =>
      At(m.threads, t, PushWoken) && t in m.frames && m' == EnterPush(m, t, m.frames[t])
    case NotifyPopper(t, woken) =>
      && At(m.threads, t, PushOwing) && NotifyOne(m.threads, PopParked, woken)
      && m' == m.(threads := Wake(m.threads[t := Outside], woken, PopWoken))
    case CallPop(t, item) => Idle(m, t) && EnterPop(m, t, item, m')
    case ResumePop(t, item) => At(m.threads, t, PopWoken) && EnterPop(m, t, item, m')
    case NotifyPusher(t, woken) =>
      && At(m.threads, t, PopOwing) && NotifyOne(m.threads, PushParked, woken)
      && m' == m.(threads := Wake(m.threads[t := Outside], woken, PushWoken))
    case WakeSpuriously(t) =>
      || (At(m.threads, t, PushParked) && m' == m.(threads := m.threads[t := PushWoken]))
      || (At(m.threads, t, PopParked) && m' == m.(threads := m.threads[t := PopWoken]))
    case CallAbort(t) =>
      && Idle(m, t)
      && m' == m.(buf := m.buf.(aborted := true), threads := WakeAll(m.threads),
                  log := m.log + [Delivery.Abort])
  }

  ghost predicate StepAt(ms: seq<Monitor>, moves: seq<Move>, k: nat)
    requires k < |moves| && |ms| == |moves| + 1
  {
    Next(ms[k], moves[k], ms[k + 1])
  }

  ghost predicate IsRun(ms: seq<Monitor>, moves: seq<Move>) {
    && |ms| == |moves| + 1
    && ms[0] == Start(ms[0].buf.capacity)
    && forall k | 0 <= k < |moves| :: StepAt(ms, moves, k)
  }

  // ---------- No wake-up is lost ----------

  /** A popper sleeps only if every queued frame already has a thread on its way to deal with it. */
  predicate PoppersCovered(m: Monitor) {
    !m.buf.aborted && Count(m.threads, PopParked) > 0 ==>
      |m.buf.items| <= Count(m.threads, PopWoken) + Count(m.threads, PushOwing)
  }

  /** A pusher sleeps only if every free slot already has a thread on its way to deal with it. */
  predicate PushersCovered(m: Monitor) {
    !m.buf.aborted && Count(m.threads, PushParked) > 0 ==>
      m.buf.capacity - |m.buf.items| <= Count(m.threads, PushWoken) + Count(m.threads, PopOwing)
  }

  predicate NobodyParkedAfterAbort(m: Monitor) {
    m.buf.aborted ==> Count(m.threads, PushParked) == 0 && Count(m.threads, PopParked) == 0
  }

  predicate HaveFrames(threads: Roster<Role>, frames: map<Tid, Frame>) {
    forall t | t in threads && (threads[t] == PushParked || threads[t] == PushWoken) :: t in frames
  }

  predicate PushersHaveFrames(m: Monitor) {
    HaveFrames(m.threads, m.frames)
  }

  predicate Covered(m: Monitor) {
    PoppersCovered(m) && PushersCovered(m) && NobodyParkedAfterAbort(m)
  }

  ghost predicate Inv(m: Monitor) {
    WellFormed(m.buf) && Covered(m) && PushersHaveFrames(m)
  }

  /** Thread t, awake or new, has been through a critical section. */
  lemma EnterKeepsCovered(m: Monitor, t: Tid, from: Role, to: Role, m': Monitor)
    requires Covered(m) && m'.threads == m.threads[t := to]
    requires m'.buf.aborted == m.buf.aborted && m'.buf.capacity == m.buf.capacity
    requires from == Outside || from == PushWoken || from == PopWoken
    requires if from == Outside then Idle(m, t) else At(m.threads, t, from)
    requires
      || (to == Outside && m.buf.aborted)
      || (to == PushParked && from != PopWoken && !m.buf.aborted
          && |m.buf.items| == |m'.buf.items| >= m.buf.capacity)
      || (to == PopParked && from != PushWoken && !m.buf.aborted
          && |m.buf.items| == |m'.buf.items| == 0)
      || (to == PushOwing && from != PopWoken && |m'.buf.items| == |m.buf.items| + 1)
      || (to == PopOwing && from != PushWoken && |m'.buf.items| == |m.buf.items| - 1)
    ensures Covered(m')
  {
    CountsAfterMove(m.threads, t, to);
    if from != Outside {
      CountPositive(m.threads, from);
    }
  }

  function PlaceOf(m: Monitor, t: Tid): Role {
    if t in m.threads then m.threads[t] else Outside
  }

  lemma EnterPushKeepsInv(m: Monitor, t: Tid, frame: Frame)
    requires Inv(m) && (Idle(m, t) || At(m.threads, t, PushWoken))
    ensures Covered(EnterPush(m, t, frame)) && WellFormed(EnterPush(m, t, frame).buf)
  {
    var m' := EnterPush(m, t, frame);
    EnterKeepsCovered(m, t, PlaceOf(m, t), m'.threads[t], m');
    if !m.buf.aborted && |m.buf.items| < m.buf.capacity {
      PushKeepsWellFormed(m.buf, frame);
    }
  }

  lemma EnterPopKeepsInv(m: Monitor, t: Tid, item: QueueItem, m': Monitor)
    requires Inv(m) && (Idle(m, t) || At(m.threads, t, PopWoken))
    requires EnterPop(m, t, item, m')
    ensures Covered(m') && WellFormed(m'.buf)
  {
    if !m.buf.aborted && |m.buf.items| > 0 {
      PopKeepsWellFormed(m.buf, item, m'.buf);
    }
    EnterKeepsCovered(m, t, PlaceOf(m, t), m'.threads[t], m');
  }

  lemma WakeKeepsCovered(m: Monitor, t: Tid, role: Role)
    requires Covered(m)
    requires (At(m.threads, t, PushParked) && role == PushWoken)
          || (At(m.threads, t, PopParked) && role == PopWoken)
    ensures Covered(m.(threads := m.threads[t := role]))
  {
    CountsAfterMove(m.threads, t, role);
  }

  /** The two notifications: t pays what it owes, waking one sleeper of the other side if any. */
  predicate OtherSide(owing: Role, parked: Role, role: Role) {
    || (owing == PushOwing && parked == PopParked && role == PopWoken)
    || (owing == PopOwing && parked == PushParked && role == PushWoken)
  }

  lemma CountsAfterNotify(threads: Roster<Role>, t: Tid, woken: Option<Tid>, owing: Role, parked: Role, role: Role)
    requires At(threads, t, owing) && OtherSide(owing, parked, role) && NotifyOne(threads, parked, woken)
    ensures
      var threads' := Wake(threads[t := Outside], woken, role);
      && Count(threads', owing) == Count(threads, owing) - 1
      && Count(threads', parked) == Count(threads, parked) - One(woken.Some?)
      && Count(threads', role) == Count(threads, role) + One(woken.Some?)
      && (forall r | r !in {Outside, owing, parked, role} :: Count(threads', r) == Count(threads, r))
  {
    CountsAfterMove(threads, t, Outside);
    if woken.Some? {
      CountsAfterMove(threads[t := Outside], woken.value, role);
    }
  }

  lemma NotifyKeepsCovered(m: Monitor, t: Tid, woken: Option<Tid>, owing: Role, parked: Role, role: Role)
    requires Covered(m) && At(m.threads, t, owing) && OtherSide(owing, parked, role)
    requires NotifyOne(m.threads, parked, woken)
    ensures Covered(m.(threads := Wake(m.threads[t := Outside], woken, role)))
  {
    CountsAfterNotify(m.threads, t, woken, owing, parked, role);
  }

  lemma NextKeepsInv(m: Monitor, move: Move, m': Monitor)
    requires Inv(m) && Next(m, move, m')
    ensures Inv(m')
  {
    NextKeepsFrames(m, move, m');
    NextKeepsCovered(m, move, m');
  }

  lemma NextKeepsCovered(m: Monitor, move: Move, m': Monitor)
    requires Inv(m) && Next(m, move, m')
    ensures Covered(m') && WellFormed(m'.buf)
  {
    match move
    case CallPush(t, frame) => EnterPushKeepsInv(m, t, frame);
    case ResumePush(t) => EnterPushKeepsInv(m, t, m.frames[t]);
    case CallPop(t, item) => EnterPopKeepsInv(m, t, item, m');
    case ResumePop(t, item) => EnterPopKeepsInv(m, t, item, m');
    case NotifyPopper(t, woken) => NotifyKeepsCovered(m, t, woken, PushOwing, PopParked, PopWoken);
    case NotifyPusher(t, woken) => NotifyKeepsCovered(m, t, woken, PopOwing, PushParked, PushWoken);
    case WakeSpuriously(t) => WakeKeepsCovered(m, t, m'.threads[t]);
    case CallAbort(_) => CountAfterWakeAll(m.threads);
  }

  lemma MoveKeepsFrames(threads: Roster<Role>, frames: map<Tid, Frame>, t: Tid, role: Role, frames': map<Tid, Frame>)
    requires HaveFrames(threads, frames) && forall u | u in frames :: u in frames'
    requires role == PushParked || role == PushWoken ==> t in frames'
    ensures HaveFrames(threads[t := role], frames')
  {
  }

  lemma NextKeepsFrames(m: Monitor, move: Move, m': Monitor)
    requires PushersHaveFrames(m) && Next(m, move, m')
    ensures PushersHaveFrames(m')
  {
    match move
    case NotifyPopper(t, woken) =>
      MoveKeepsFrames(m.threads, m.frames, t, Outside, m.frames);
      if woken.Some? {
        MoveKeepsFrames(m.threads[t := Outside], m.frames, woken.value, PopWoken, m.frames);
      }
    case NotifyPusher(t, woken) =>
      MoveKeepsFrames(m.threads, m.frames, t, Outside, m.frames);
      if woken.Some? {
        MoveKeepsFrames(m.threads[t := Outside], m.frames, woken.value, PushWoken, m.frames);
      }
    case CallAbort(_) =>
    case CallPush(t, frame) => MoveKeepsFrames(m.threads, m.frames, t, m'.threads[t], m'.frames);
    case ResumePush(t) => MoveKeepsFrames(m.threads, m.frames, t, m'.threads[t], m'.frames);
    case CallPop(t, item) => MoveKeepsFrames(m.threads, m.frames, t, m'.threads[t], m.frames);
    case ResumePop(t, item) => MoveKeepsFrames(m.threads, m.frames, t, m'.threads[t], m.frames);
    case WakeSpuriously(t) => MoveKeepsFrames(m.threads, m.frames, t, m'.threads[t], m.frames);
  }

  lemma CountAfterWakeAll(threads: Roster<Role>)
    ensures Count(WakeAll(threads), PushParked) == 0 && Count(WakeAll(threads), PopParked) == 0
  {
    assert Those(WakeAll(threads), PushParked) == {} && Those(WakeAll(threads), PopParked) == {};
  }

  /** The invariant holds in every state of every run. */
  lemma {:induction false} RunKeepsInv(ms: seq<Monitor>, moves: seq<Move>, k: nat)
    requires IsRun(ms, moves) && k < |ms|
    ensures Inv(ms[k])
  {
    if k > 0 {
      RunKeepsInv(ms, moves, k - 1);
      assert StepAt(ms, moves, k - 1);
      NextKeepsInv(ms[k - 1], moves[k - 1], ms[k]);
    }
  }

  // ---------- What the invariant is for ----------

  /** Some thread has something to do that does not wait for anybody. */
  predicate SomeoneCanMove(m: Monitor) {
    Count(m.threads, PushWoken) + Count(m.threads, PushOwing)
    + Count(m.threads, PopWoken) + Count(m.threads, PopOwing) > 0
  }

  /**
    In a state of any run where every thread inside a call is asleep: before an abort poppers
    sleep only on an empty buffer and pushers only on a full one; after it nobody sleeps.
   */
  lemma AsleepOnlyWithReason(ms: seq<Monitor>, moves: seq<Move>, k: nat)
    requires IsRun(ms, moves) && k < |ms| && !SomeoneCanMove(ms[k])
    ensures Count(ms[k].threads, PopParked) > 0 ==> !ms[k].buf.aborted && |ms[k].buf.items| == 0
    ensures Count(ms[k].threads, PushParked) > 0 ==>
              !ms[k].buf.aborted && |ms[k].buf.items| == ms[k].buf.capacity
  {
    RunKeepsInv(ms, moves, k);
  }

  /** With room for at least one frame, pushers and poppers never all wait for each other. */
  lemma NeverAllStuck(ms: seq<Monitor>, moves: seq<Move>, k: nat)
    requires IsRun(ms, moves) && k < |ms| && ms[k].buf.capacity > 0
    requires Count(ms[k].threads, PopParked) > 0 && Count(ms[k].threads, PushParked) > 0
    ensures SomeoneCanMove(ms[k])
  {
    RunKeepsInv(ms, moves, k);
  }

  /** Without room they do: a buffer of capacity 0 puts a pusher and a popper to sleep for good. */
  lemma ZeroCapacityDeadlocks(frame: Frame, item: QueueItem)
    ensures
      var m0 := Start(0);
      var m1 := m0.(threads := map[0 := PushParked], frames := map[0 := frame]);
      var m2 := m1.(threads := m1.threads[1 := PopParked]);
      && IsRun([m0, m1, m2], [CallPush(0, frame), CallPop(1, item)])
      && Count(m2.threads, PushParked) > 0 && Count(m2.threads, PopParked) > 0
      && !SomeoneCanMove(m2)
  {
    var m0 := Start(0);
    var m1 := m0.(threads := map[0 := PushParked], frames := map[0 := frame]);
    var m2 := m1.(threads := m1.threads[1 := PopParked]);
    assert Next(m0, CallPush(0, frame), m1) && Next(m1, CallPop(1, item), m2);
    assert At(m2.threads, 0, PushParked) && At(m2.threads, 1, PopParked);
    forall role
      ensures Count(m2.threads, role) > 0 <==> (role == PushParked || role == PopParked)
    {
      CountPositive(m2.threads, role);
    }
  }

  // ---------- Calls already made run to rest ----------

  /** A move by a thread that is inside push or pop and neither asleep nor woken for no reason. */
  predicate Internal(move: Move) {
    move.ResumePush? || move.ResumePop? || move.NotifyPopper? || move.NotifyPusher?
  }

  function Inside(threads: Roster<Role>): nat {
    Count(threads, PushParked) + Count(threads, PushWoken) + Count(threads, PushOwing)
    + Count(threads, PopParked) + Count(threads, PopWoken) + Count(threads, PopOwing)
  }

  /** Bounds the number of internal moves still possible. */
  function Work(threads: Roster<Role>): nat {
    2 * Inside(threads) + Count(threads, PushWoken) + Count(threads, PopWoken)
  }

  lemma InternalMovesUseUpWork(m: Monitor, move: Move, m': Monitor)
    requires Internal(move) && Next(m, move, m')
    ensures Work(m'.threads) < Work(m.threads)
  {
    match move
    case ResumePush(t) => ResumeUsesUpWork(m.threads, t, PushWoken, m'.threads[t]);
    case ResumePop(t, item) => ResumeUsesUpWork(m.threads, t, PopWoken, m'.threads[t]);
    case NotifyPopper(t, woken) => CountsAfterNotify(m.threads, t, woken, PushOwing, PopParked, PopWoken);
    case NotifyPusher(t, woken) => CountsAfterNotify(m.threads, t, woken, PopOwing, PushParked, PushWoken);
  }

  lemma ResumeUsesUpWork(threads: Roster<Role>, t: Tid, from: Role, to: Role)
    requires At(threads, t, from) && (from == PushWoken || from == PopWoken)
    requires to != PushWoken && to != PopWoken
    ensures Work(threads[t := to]) < Work(threads)
  {
    CountsAfterMove(threads, t, to);
  }

  lemma {:induction false} FirstItemExists(items: set<QueueItem>) returns (x: QueueItem)
    requires items != {} && StrictWeakOrder(items)
    ensures x in items && forall y | y in items :: !Later(x, y)
    decreases |items|
  {
    var z :| z in items;
    x := z;
    if items != {z} {
      var rest := items - {z};
      assert rest != {};
      var m := FirstItemExists(rest);
      if Later(z, m) {
        x := m;
      }
    }
  }

  /** A thread that can move has a move: nothing in push or pop waits but the wait itself. */
  lemma MoversCanMove(m: Monitor) returns (move: Move, m': Monitor)
    requires Inv(m) && SomeoneCanMove(m)
    ensures Internal(move) && Next(m, move, m')
  {
    CountPositive(m.threads, PushWoken);
    CountPositive(m.threads, PopWoken);
    CountPositive(m.threads, PushOwing);
    if t :| At(m.threads, t, PushWoken) {
      return ResumePush(t), EnterPush(m, t, m.frames[t]);
    } else if t :| At(m.threads, t, PopWoken) {
      move, m' := PopperCanResume(m, t);
    } else if t :| At(m.threads, t, PushOwing) {
      var woken := SomeoneToNotify(m.threads, PopParked);
      return NotifyPopper(t, woken), m.(threads := Wake(m.threads[t := Outside], woken, PopWoken));
    } else {
      CountPositive(m.threads, PopOwing);
      var t :| At(m.threads, t, PopOwing);
      var woken := SomeoneToNotify(m.threads, PushParked);
      return NotifyPusher(t, woken), m.(threads := Wake(m.threads[t := Outside], woken, PushWoken));
    }
  }

  lemma PopperCanResume(m: Monitor, t: Tid) returns (move: Move, m': Monitor)
    requires Inv(m) && At(m.threads, t, PopWoken)
    ensures Internal(move) && Next(m, move, m')
  {
    var x := QueueItem(Frame(0, 0), 0);
    if m.buf.aborted {
      return ResumePop(t, x), m.(threads := m.threads[t := Outside]);
    } else if |m.buf.items| == 0 {
      return ResumePop(t, x), m.(threads := m.threads[t := PopParked]);
    } else {
      x :| x in m.buf.items;
      if m.buf.orderly {
        var all := set y | y in m.buf.items;
        assert x in all;
        x := FirstItemExists(all);
      }
      var rest := m.buf.(items := m.buf.items - multiset{x});
      return ResumePop(t, x),
        m.(buf := rest, threads := m.threads[t := PopOwing], log := m.log + [Delivery.Deliver(x)]);
    }
  }

  ghost predicate InternalStep(m: Monitor, move: Move, m': Monitor) {
    Internal(move) && Next(m, move, m')
  }

  ghost predicate InternalRun(ms: seq<Monitor>, moves: seq<Move>) {
    && |ms| == |moves| + 1
    && forall k | 0 <= k < |moves| :: InternalStep(ms[k], moves[k], ms[k + 1])
  }

  lemma InternalRunFrom(m: Monitor, move: Move, ms: seq<Monitor>, moves: seq<Move>)
    requires InternalRun(ms, moves) && InternalStep(m, move, ms[0])
    ensures InternalRun([m] + ms, [move] + moves)
  {
    var ms', moves' := [m] + ms, [move] + moves;
    forall k | 0 <= k < |moves'| ensures InternalStep(ms'[k], moves'[k], ms'[k + 1]) {
      if k > 0 {
        assert InternalStep(ms[k - 1], moves[k - 1], ms[k]);
      }
    }
  }

  /**
    From any state of any run, the calls already made come to rest by themselves, in no more
    moves than three per thread inside: then nobody can move, so everyone left sleeps with
    reason.
   */
  lemma {:induction false} ComesToRest(m: Monitor) returns (ms: seq<Monitor>, moves: seq<Move>)
    requires Inv(m)
    ensures InternalRun(ms, moves) && ms[0] == m
    ensures |moves| <= Work(m.threads) <= 3 * Inside(m.threads)
    ensures Inv(ms[|moves|]) && !SomeoneCanMove(ms[|moves|])
    decreases Work(m.threads)
  {
    if SomeoneCanMove(m) {
      var move, m' := MoversCanMove(m);
      InternalMovesUseUpWork(m, move, m');
      NextKeepsInv(m, move, m');
      var ms', moves' := ComesToRest(m');
      InternalRunFrom(m, move, ms', moves');
      ms, moves := [m] + ms', [move] + moves';
    } else {
      ms, moves := [m], [];
    }
  }

  /** No schedule of the calls already made is longer than that. */
  lemma {:induction false} InternalRunsAreShort(ms: seq<Monitor>, moves: seq<Move>)
    requires InternalRun(ms, moves)
    ensures |moves| + Work(ms[|moves|].threads) <= Work(ms[0].threads)
    decreases |moves|
  {
    if moves != [] {
      var n := |moves| - 1;
      assert InternalStep(ms[n], moves[n], ms[n + 1]);
      InternalMovesUseUpWork(ms[n], moves[n], ms[n + 1]);
      InternalRunsAreShort(ms[..n + 1], moves[..n]);
    }
  }

  // ---------- Abort ----------

  /** After abort nothing enters or leaves, whatever is called later. */
  lemma {:induction false} AbortIsFinal(ms: seq<Monitor>, moves: seq<Move>, j: nat, k: nat)
    requires IsRun(ms, moves) && j <= k < |ms| && ms[j].buf.aborted
    ensures ms[k].buf == ms[j].buf
    ensures Count(ms[k].threads, PushParked) == 0 && Count(ms[k].threads, PopParked) == 0
    decreases k
  {
    RunKeepsInv(ms, moves, k);
    if j < k {
      AbortIsFinal(ms, moves, j, k - 1);
      assert StepAt(ms, moves, k - 1);
    }
  }

  /** After abort every call still inside returns: at rest the monitor is empty of threads. */
  lemma AbortReleasesEveryone(m: Monitor)
    requires Inv(m) && m.buf.aborted && !SomeoneCanMove(m)
    ensures Inside(m.threads) == 0
  {
    assert NobodyParkedAfterAbort(m);
  }

  // ---------- Concurrent runs are runs of the sequential buffer ----------

  /**
    Whatever the threads do, the buffer lives through a sequential run whose log is the
    monitor's: every theorem about such runs holds for concurrent callers.
   */
  lemma {:induction false} RunIsSequential(ms: seq<Monitor>, moves: seq<Move>, k: nat)
    returns (states: seq<Buffer>)
    requires IsRun(ms, moves) && k < |ms|
    ensures Delivery.IsRun(states, ms[k].log) && states[|states| - 1] == ms[k].buf
  {
    if k == 0 {
      states := [ms[0].buf];
    } else {
      states := RunIsSequential(ms, moves, k - 1);
      var m, m' := ms[k - 1], ms[k];
      assert StepAt(ms, moves, k - 1);
      if m'.log != m.log {
        var e := m'.log[|m.log|];
        assert m'.log == m.log + [e] && Delivery.Step(m.buf, e, m'.buf);
        Delivery.ExtendRun(states, m.log, e, m'.buf);
        states := states + [m'.buf];
      }
    }
  }

  // ---------- What arrives is what was passed ----------

  /** The thread that makes the move. */
  function Mover(move: Move): Tid {
    match move
    case CallPush(t, _) => t
    case ResumePush(t) => t
    case NotifyPopper(t, _) => t
    case CallPop(t, _) => t
    case ResumePop(t, _) => t
    case NotifyPusher(t, _) => t
    case WakeSpuriously(t) => t
    case CallAbort(t) => t
  }

  /** Thread t puts x into the buffer at move k. */
  ghost predicate ArrivesAt(ms: seq<Monitor>, moves: seq<Move>, k: nat, t: Tid, x: QueueItem)
    requires k < |moves| && |ms| == |moves| + 1
  {
    Mover(moves[k]) == t && ms[k + 1].log == ms[k].log + [Delivery.Arrive(x)]
  }

  /** Thread t neither calls push at move i nor puts anything into the buffer there. */
  ghost predicate NoPushBy(ms: seq<Monitor>, moves: seq<Move>, i: nat, t: Tid)
    requires i < |moves| && |ms| == |moves| + 1
  {
    !(moves[i].CallPush? && moves[i].t == t) && forall x :: !ArrivesAt(ms, moves, i, t, x)
  }

  /** Thread t called push with the frame at move j; since then, and before move k, no frame of t has arrived. */
  ghost predicate CalledAndWaiting(ms: seq<Monitor>, moves: seq<Move>, j: nat, k: nat, t: Tid, frame: Frame)
    requires j < k <= |moves| && |ms| == |moves| + 1
  {
    && moves[j] == CallPush(t, frame) && (forall x :: !ArrivesAt(ms, moves, j, t, x))
    && forall i | j < i < k :: NoPushBy(ms, moves, i, t)
  }

  predicate AsleepInPush(m: Monitor, t: Tid) {
    At(m.threads, t, PushParked) || At(m.threads, t, PushWoken)
  }

  /** The moves of others leave a waiting pusher, and its frame, where they are. */
  lemma OthersLeaveWaiter(m: Monitor, move: Move, m': Monitor, t: Tid)
    requires Next(m, move, m') && Mover(move) != t && AsleepInPush(m', t)
    ensures AsleepInPush(m, t) && (t in m.frames ==> t in m'.frames && m'.frames[t] == m.frames[t])
  {
  }

  /** A thread's own move that leaves it waiting is a call or another wait, and nothing arrives by it. */
  lemma OwnMoveOfWaiter(m: Monitor, move: Move, m': Monitor, t: Tid)
    requires Next(m, move, m') && Mover(move) == t && AsleepInPush(m', t)
    ensures forall x :: m'.log != m.log + [Delivery.Arrive(x)]
    ensures move.CallPush? ==> m'.frames == m.frames[t := move.frame]
    ensures !move.CallPush? ==>
              AsleepInPush(m, t) && (t in m.frames ==> t in m'.frames && m'.frames[t] == m.frames[t])
  {
  }

  lemma OnlyPushesArrive(m: Monitor, move: Move, m': Monitor, x: QueueItem)
    requires Next(m, move, m') && m'.log == m.log + [Delivery.Arrive(x)]
    ensures (move.CallPush? && x.frame == move.frame)
         || (move.ResumePush? && AsleepInPush(m, move.t) && move.t in m.frames && x.frame == m.frames[move.t])
  {
    assert m'.log[|m.log|] == Delivery.Arrive(x);
  }

  lemma GoesOnWaiting(ms: seq<Monitor>, moves: seq<Move>, j: nat, k: nat, t: Tid, frame: Frame)
    requires j < k < |moves| && |ms| == |moves| + 1
    requires CalledAndWaiting(ms, moves, j, k, t, frame) && NoPushBy(ms, moves, k, t)
    ensures CalledAndWaiting(ms, moves, j, k + 1, t, frame)
  {
  }

  /** A pusher that waits holds the frame of its latest call, which has not arrived yet. */
  lemma {:induction false} WaiterHoldsItsFrame(ms: seq<Monitor>, moves: seq<Move>, k: nat, t: Tid) returns (j: nat)
    requires IsRun(ms, moves) && k < |ms| && AsleepInPush(ms[k], t)
    ensures t in ms[k].frames && j < k && CalledAndWaiting(ms, moves, j, k, t, ms[k].frames[t])
  {
    var move := moves[k - 1];
    assert StepAt(ms, moves, k - 1);
    if Mover(move) == t {
      OwnMoveOfWaiter(ms[k - 1], move, ms[k], t);
    } else {
      OthersLeaveWaiter(ms[k - 1], move, ms[k], t);
    }
    if move.CallPush? && move.t == t {
      j := k - 1;
    } else {
      j := WaiterHoldsItsFrame(ms, moves, k - 1, t);
      GoesOnWaiting(ms, moves, j, k - 1, t, ms[k].frames[t]);
    }
  }

  /**
    Arrivals are, call by call, the arguments passed: a frame that arrives is the argument of its
    thread's latest call of push, and nothing else has arrived by that call.
   */
  lemma ArrivalIsArgument(ms: seq<Monitor>, moves: seq<Move>, k: nat, t: Tid, x: QueueItem) returns (j: nat)
    requires IsRun(ms, moves) && k < |moves| && ArrivesAt(ms, moves, k, t, x)
    ensures j <= k && moves[j] == CallPush(t, x.frame)
    ensures j < k ==> moves[k] == ResumePush(t) && CalledAndWaiting(ms, moves, j, k, t, x.frame)
  {
    assert StepAt(ms, moves, k);
    OnlyPushesArrive(ms[k], moves[k], ms[k + 1], x);
    if moves[k].CallPush? {
      j := k;
    } else {
      j := WaiterHoldsItsFrame(ms, moves, k, t);
    }
  }

  /** The call ends with this move, with nothing pushed or popped. */
  predicate FailsAt(move: Move, m': Monitor) {
    (move.CallPush? || move.ResumePush? || move.CallPop? || move.ResumePop?) && Idle(m', Mover(move))
  }

  /** A call of push or pop fails exactly when it gets to run after an abort. */
  lemma FailsExactlyAfterAbort(ms: seq<Monitor>, moves: seq<Move>, k: nat)
    requires IsRun(ms, moves) && k < |moves|
    requires moves[k].CallPush? || moves[k].ResumePush? || moves[k].CallPop? || moves[k].ResumePop?
    ensures FailsAt(moves[k], ms[k + 1]) <==> exists j | 0 <= j < k :: moves[j].CallAbort?
  {
    assert StepAt(ms, moves, k);
    AbortedExactlyWhen(ms, moves, k);
  }

  lemma {:induction false} AbortedExactlyWhen(ms: seq<Monitor>, moves: seq<Move>, k: nat)
    requires IsRun(ms, moves) && k < |ms|
    ensures ms[k].buf.aborted <==> exists j | 0 <= j < k :: moves[j].CallAbort?
  {
    if k > 0 {
      AbortedExactlyWhen(ms, moves, k - 1);
      assert StepAt(ms, moves, k - 1);
    }
  }
}
