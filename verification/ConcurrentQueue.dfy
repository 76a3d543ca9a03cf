/**
  ConcurrentQueue: the queue itself, and the monitor around it with cancellable waiting.

  A consumer's wait is registered with its stop token: when the token fires, every sleeper of
  the queue is woken. A consumer that has been let through looks at its token once more before
  it takes an item, and by then it is no longer registered.
 */
module ConcurrentQueue {
  import opened Wrappers
  import opened Roster

  // ---------- The queue under its lock ----------

  class ConcurrentQueue<T> {
    var queue: seq<T>

    constructor ()
      ensures queue == []
    {
      queue := [];
    }

    method Push(item: T)
      modifies this
      ensures queue == old(queue) + [item]
    {
      queue := queue + [item];
    }

    /** pop, once its wait is over; stopRequested is what the token says after the wait. */
    method Pop(stopRequested: bool) returns (r: Option<T>)
      requires stopRequested || queue != []
      modifies this
      ensures stopRequested ==> r.None? && queue == old(queue)
      ensures !stopRequested ==> r.Some? && [r.value] + queue == old(queue)
    {
      if stopRequested {
        return None;
      }
      r := Some(queue[0]);
      queue := queue[1..];
    }

    method TryPop() returns (r: Option<T>)
      modifies this
      ensures if old(queue) == [] then r.None? && queue == []
              else r.Some? && [r.value] + queue == old(queue)
    {
      if queue == [] {
        return None;
      }
      r := Some(queue[0]);
      queue := queue[1..];
    }

    method Clear()
      modifies this
      ensures queue == []
    {
      queue := [];
    }
  }

  // ---------- The monitor ----------

  type Token = nat

  /**
    Parked: asleep in the wait. Woken: awake in the wait, about to test again. Through: the wait
    has returned with an item present, the lock is held, the token not yet looked at again.
   */
  datatype Role = Outside | Parked | Woken | Through

  datatype Fate = Taken | Cleared

  datatype Gone<T> = Gone(item: T, fate: Fate)

  /**
    flagged: tokens on which a stop was requested; unannounced: those among them whose waiters
    have not been woken yet. abandoned counts consumers that were let through and then gave up.
   */
  datatype State<T> = State(
    queue: seq<T>, threads: Roster<Role>, flagged: set<Token>, unannounced: set<Token>,
    pushed: seq<T>, gone: seq<Gone<T>>, abandoned: nat)

  datatype Move<T> =
    | Push(item: T, woken: Option<Tid>)
    | CallPop(t: Tid)
    | ResumePop(t: Tid)
    | FinishPop(t: Tid)
    | TryPop
    | Clear
    | WakeSpuriously(t: Tid)
    | RequestStop(k: Token)
    | AnnounceStop(k: Token)

  function Start<T>(): State<T> {
    State([], map[], {}, {}, [], [], 0)
  }

  predicate Idle<T>(s: State<T>, t: Tid) {
    t !in s.threads || s.threads[t] == Outside
  }

  predicate LockFree<T(==)>(s: State<T>) {
    Count(s.threads, Through) == 0
  }

  predicate Waiting<T>(s: State<T>, t: Tid) {
    At(s.threads, t, Parked) || At(s.threads, t, Woken)
  }

  function WakeAll(threads: Roster<Role>): Roster<Role> {
    map t | t in threads :: if threads[t] == Parked then Woken else threads[t]
  }

  /** The wait's loop body, run by a consumer whose token is k. */
  function Test<T>(s: State<T>, t: Tid, k: Token): State<T> {
    if s.queue != [] then s.(threads := s.threads[t := Through])
    else if k in s.flagged then s.(threads := s.threads[t := Outside])
    else s.(threads := s.threads[t := Parked])
  }

  function Take<T>(s: State<T>): State<T>
    requires s.queue != []
  {
    s.(queue := s.queue[1..], gone := s.gone + [Gone(s.queue[0], Taken)])
  }

  function AllCleared<T>(items: seq<T>): seq<Gone<T>> {
    seq(|items|, i requires 0 <= i < |items| => Gone(items[i], Cleared))
  }

  /** token(t) is the stop token thread t passes to pop. */
  ghost predicate Next<T(!new)>(token: Tid -> Token, s: State<T>, move: Move<T>, s': State<T>) {
    match move
    case Push(item, woken) =>
      && LockFree(s) && NotifyOne(s.threads, Parked, woken)
      && s' == s.(queue := s.queue + [item], pushed := s.pushed + [item],
                  threads := Wake(s.threads, woken, Woken))
    case CallPop(t) => LockFree(s) && Idle(s, t) && s' == Test(s, t, token(t))
    case ResumePop(t) => LockFree(s) && At(s.threads, t, Woken) && s' == Test(s, t, token(t))
    case FinishPop(t) =>
      && At(s.threads, t, Through) && s.queue != []
      && var out := s.(threads := s.threads[t := Outside]);
         s' == if token(t) in s.flagged then out.(abandoned := s.abandoned + 1) else Take(out)
    case TryPop => LockFree(s) && s' == if s.queue == [] then s else Take(s)
    case Clear => LockFree(s) && s' == s.(queue := [], gone := s.gone + AllCleared(s.queue))
    case WakeSpuriously(t) => At(s.threads, t, Parked) && s' == s.(threads := s.threads[t := Woken])
    case RequestStop(k) =>
      && k !in s.flagged
      && s' == s.(flagged := s.flagged + {k}, unannounced := s.unannounced + {k})
    case AnnounceStop(k) =>
      && k in s.unannounced
      && s'.threads == (if exists t :: Waiting(s, t) && token(t) == k then WakeAll(s.threads) else s.threads)
      && s' == s.(unannounced := s.unannounced - {k}, threads := s'.threads)
  }

  ghost predicate IsRun<T(!new)>(token: Tid -> Token, ss: seq<State<T>>, moves: seq<Move<T>>) {
    && |ss| == |moves| + 1 && ss[0] == Start()
    && forall k | 0 <= k < |moves| :: Next(token, ss[k], moves[k], ss[k + 1])
  }

  // ---------- Wake-ups ----------

  /** A sleeper means every queued item is on its way to somebody, or somebody gave one up. */
  predicate Covered<T>(s: State<T>) {
    Count(s.threads, Parked) > 0 ==>
      |s.queue| <= Count(s.threads, Woken) + Count(s.threads, Through) + s.abandoned
  }

  /** Whoever sleeps has not been told to stop, or is about to be told. */
  ghost predicate SleepersUntold<T>(token: Tid -> Token, s: State<T>) {
    && (forall t | At(s.threads, t, Parked) :: token(t) in s.flagged ==> token(t) in s.unannounced)
    && s.unannounced <= s.flagged
  }

  predicate LockHeldOnce<T>(s: State<T>) {
    Count(s.threads, Through) <= 1 && (Count(s.threads, Through) == 1 ==> s.queue != [])
  }

  ghost predicate Inv<T(!new)>(token: Tid -> Token, s: State<T>) {
    && Covered(s) && SleepersUntold(token, s) && LockHeldOnce(s)
    && (s.abandoned > 0 ==> s.flagged != {})
  }

  lemma TestKeepsInv<T(!new)>(token: Tid -> Token, s: State<T>, t: Tid)
    requires Inv(token, s) && LockFree(s) && (Idle(s, t) || At(s.threads, t, Woken))
    ensures Inv(token, Test(s, t, token(t)))
  {
    CountsAfterMove(s.threads, t, Test(s, t, token(t)).threads[t]);
  }

  lemma CountsAfterWakeAll(threads: Roster<Role>)
    ensures Count(WakeAll(threads), Parked) == 0
    ensures Count(WakeAll(threads), Through) == Count(threads, Through)
  {
    assert Those(WakeAll(threads), Parked) == {};
    assert Those(WakeAll(threads), Through) == Those(threads, Through);
  }

  lemma NextKeepsInv<T(!new)>(token: Tid -> Token, s: State<T>, move: Move<T>, s': State<T>)
    requires Inv(token, s) && Next(token, s, move, s')
    ensures Inv(token, s')
  {
    match move
    case Push(item, woken) =>
      if woken.Some? {
        CountsAfterMove(s.threads, woken.value, Woken);
      }
    case CallPop(t) => TestKeepsInv(token, s, t);
    case ResumePop(t) => TestKeepsInv(token, s, t);
    case FinishPop(t) => CountsAfterMove(s.threads, t, Outside);
    case TryPop =>
    case Clear =>
    case WakeSpuriously(t) => CountsAfterMove(s.threads, t, Woken);
    case RequestStop(k) =>
    case AnnounceStop(k) => CountsAfterWakeAll(s.threads);
  }

  lemma {:induction false} RunKeepsInv<T(!new)>(token: Tid -> Token, ss: seq<State<T>>, moves: seq<Move<T>>, k: nat)
    requires IsRun(token, ss, moves) && k < |ss|
    ensures Inv(token, ss[k])
  {
    if k > 0 {
      RunKeepsInv(token, ss, moves, k - 1);
      NextKeepsInv(token, ss[k - 1], moves[k - 1], ss[k]);
    } else {
      assert Those(ss[0].threads, Through) == {};
    }
  }

  /**
    Consumers that share one stop token never miss an item: until the stop is requested, a
    sleeping consumer means every queued item already has an awake consumer coming for it.
   */
  lemma SharedTokenLosesNoWakeup<T(!new)>(token: Tid -> Token, shared: Token,
                                          ss: seq<State<T>>, moves: seq<Move<T>>, k: nat)
    requires IsRun(token, ss, moves) && k < |ss|
    requires forall t :: token(t) == shared
    requires shared !in ss[k].flagged && Count(ss[k].threads, Parked) > 0
    ensures |ss[k].queue| <= Count(ss[k].threads, Woken) + Count(ss[k].threads, Through)
    ensures Count(ss[k].threads, Woken) + Count(ss[k].threads, Through) == 0 ==> ss[k].queue == []
  {
    RunKeepsInv(token, ss, moves, k);
    OnlyWaitersGiveUp(token, ss, moves, k);
  }

  /** Somebody gave an item up only if some consumer's own token was flagged. */
  lemma {:induction false} OnlyWaitersGiveUp<T(!new)>(token: Tid -> Token, ss: seq<State<T>>,
                                                      moves: seq<Move<T>>, k: nat)
    requires IsRun(token, ss, moves) && k < |ss|
    ensures ss[k].abandoned > 0 ==> exists t :: token(t) in ss[k].flagged
  {
    if k > 0 {
      OnlyWaitersGiveUp(token, ss, moves, k - 1);
      var s, s' := ss[k - 1], ss[k];
      assert Next(token, s, moves[k - 1], s');
      if s'.abandoned > s.abandoned {
        assert token(moves[k - 1].t) in s'.flagged;
      } else if s.abandoned > 0 {
        var t :| token(t) in s.flagged;
        assert token(t) in s'.flagged;
      }
    }
  }

  /** Once a stop has been announced, nobody with that token sleeps, then or ever after. */
  lemma StoppedConsumersAreAwake<T(!new)>(token: Tid -> Token, ss: seq<State<T>>, moves: seq<Move<T>>, k: nat, t: Tid)
    requires IsRun(token, ss, moves) && k < |ss|
    requires token(t) in ss[k].flagged && token(t) !in ss[k].unannounced
    ensures !At(ss[k].threads, t, Parked)
  {
    RunKeepsInv(token, ss, moves, k);
  }

  /** Consumer a is woken for the only item, is let through and finds its own token k fired. */
  function LostWakeup<T>(a: Tid, b: Tid, k: Token, item: T): seq<State<T>> {
    var empty := Start<T>();
    var full := empty.(queue := [item], pushed := [item]);
    var fired := full.(flagged := {k}, unannounced := {k});
    [ empty,
      empty.(threads := map[a := Parked]),
      empty.(threads := map[a := Parked, b := Parked]),
      full.(threads := map[a := Woken, b := Parked]),
      full.(threads := map[a := Through, b := Parked]),
      fired.(threads := map[a := Through, b := Parked]),
      fired.(threads := map[a := Outside, b := Parked], abandoned := 1),
      fired.(threads := map[a := Outside, b := Parked], abandoned := 1, unannounced := {}) ]
  }

  function LostWakeupMoves<T>(a: Tid, b: Tid, k: Token, item: T): seq<Move<T>> {
    [CallPop(a), CallPop(b), Push(item, Some(a)), ResumePop(a), RequestStop(k), FinishPop(a), AnnounceStop(k)]
  }

  lemma LostWakeupBegins<T(!new)>(token: Tid -> Token, a: Tid, b: Tid, item: T)
    requires token(a) != token(b)
    ensures
      var ss, moves := LostWakeup(a, b, token(a), item), LostWakeupMoves(a, b, token(a), item);
      forall k | 0 <= k < 4 :: Next(token, ss[k], moves[k], ss[k + 1])
  {
    var ss := LostWakeup(a, b, token(a), item);
    NoneThrough(ss[0].threads);
    NoneThrough(ss[1].threads);
    NoneThrough(ss[2].threads);
    NoneThrough(ss[3].threads);
    CountPositive(ss[2].threads, Parked);
    assert At(ss[2].threads, a, Parked);
  }

  /**
    With different tokens a wake-up can be lost: this run ends with consumer b asleep beside the
    item, its own token not fired, and nobody awake.
   */
  lemma DistinctTokensCanLoseWakeup<T(!new)>(token: Tid -> Token, a: Tid, b: Tid, item: T)
    requires token(a) != token(b)
    ensures IsRun(token, LostWakeup(a, b, token(a), item), LostWakeupMoves(a, b, token(a), item))
    ensures
      var s := LostWakeup(a, b, token(a), item)[7];
      && s.queue == [item] && token(b) !in s.flagged && s.unannounced == {}
      && At(s.threads, b, Parked)
      && Count(s.threads, Woken) == 0 && Count(s.threads, Through) == 0
  {
    LostWakeupBegins(token, a, b, item);
    var ss, moves := LostWakeup(a, b, token(a), item), LostWakeupMoves(a, b, token(a), item);
    assert Next(token, ss[4], moves[4], ss[5]) && Next(token, ss[5], moves[5], ss[6]);
    assert Next(token, ss[6], moves[6], ss[7]);
    NoneThrough(ss[7].threads);
    assert Those(ss[7].threads, Woken) == {};
  }

  /** A consumer sleeps on an unfired token only if every item has an awake consumer coming for it. */
  ghost predicate ItemsCovered<T(!new)>(token: Tid -> Token, s: State<T>) {
    (exists t :: At(s.threads, t, Parked) && token(t) !in s.flagged) ==>
      |s.queue| <= Count(s.threads, Woken) + Count(s.threads, Through)
  }

  ghost predicate NoWakeupLost<T(!new)>(token: Tid -> Token) {
    forall ss: seq<State<T>>, moves, k | IsRun(token, ss, moves) && 0 <= k < |ss| :: ItemsCovered(token, ss[k])
  }

  /** No run loses a wake-up exactly when all consumers share one token. */
  lemma NoWakeupLostIffTokenShared<T(!new)>(token: Tid -> Token, item: T)
    ensures NoWakeupLost<T>(token) <==> forall a, b :: token(a) == token(b)
  {
    if a, b :| token(a) != token(b) {
      DistinctTokensCanLoseWakeup(token, a, b, item);
      assert !ItemsCovered(token, LostWakeup(a, b, token(a), item)[7]);
    } else {
      forall ss: seq<State<T>>, moves, k | IsRun(token, ss, moves) && 0 <= k < |ss|
        ensures ItemsCovered(token, ss[k])
      {
        if t :| At(ss[k].threads, t, Parked) && token(t) !in ss[k].flagged {
          CountPositive(ss[k].threads, Parked);
          SharedTokenLosesNoWakeup(token, token(t), ss, moves, k);
        }
      }
    }
  }

  lemma NoneThrough(threads: Roster<Role>)
    requires forall t | t in threads :: threads[t] != Through
    ensures Count(threads, Through) == 0
  {
    assert Those(threads, Through) == {};
  }

  // ---------- Calls already made run to rest ----------

  /** A move by a consumer that is awake inside pop. */
  predicate Internal<T>(move: Move<T>) {
    move.ResumePop? || move.FinishPop?
  }

  predicate SomeoneCanMove<T>(s: State<T>) {
    Count(s.threads, Woken) > 0 || Count(s.threads, Through) > 0
  }

  /** Bounds the number of internal moves still possible: two for each consumer woken. */
  function Work(threads: Roster<Role>): nat {
    2 * Count(threads, Woken) + Count(threads, Through)
  }

  lemma InternalMovesUseUpWork<T(!new)>(token: Tid -> Token, s: State<T>, move: Move<T>, s': State<T>)
    requires Internal(move) && Next(token, s, move, s')
    ensures Work(s'.threads) < Work(s.threads)
    ensures s'.flagged == s.flagged && s'.unannounced == s.unannounced
  {
    CountsAfterMove(s.threads, move.t, s'.threads[move.t]);
  }

  /** Whoever is awake has a move: only the wait itself waits. */
  lemma MoversCanMove<T(!new)>(token: Tid -> Token, s: State<T>) returns (move: Move<T>, s': State<T>)
    requires Inv(token, s) && SomeoneCanMove(s)
    ensures Internal(move) && Next(token, s, move, s')
  {
    CountPositive(s.threads, Through);
    CountPositive(s.threads, Woken);
    if t :| At(s.threads, t, Through) {
      var out := s.(threads := s.threads[t := Outside]);
      return FinishPop(t), if token(t) in s.flagged then out.(abandoned := s.abandoned + 1) else Take(out);
    } else {
      var t :| At(s.threads, t, Woken);
      return ResumePop(t), Test(s, t, token(t));
    }
  }

  ghost predicate InternalStep<T(!new)>(token: Tid -> Token, s: State<T>, move: Move<T>, s': State<T>) {
    Internal(move) && Next(token, s, move, s')
  }

  ghost predicate InternalRun<T(!new)>(token: Tid -> Token, ss: seq<State<T>>, moves: seq<Move<T>>) {
    && |ss| == |moves| + 1
    && forall k | 0 <= k < |moves| :: InternalStep(token, ss[k], moves[k], ss[k + 1])
  }

  lemma InternalRunFrom<T(!new)>(token: Tid -> Token, s: State<T>, move: Move<T>, ss: seq<State<T>>,
                                 moves: seq<Move<T>>)
    requires InternalRun(token, ss, moves) && InternalStep(token, s, move, ss[0])
    ensures InternalRun(token, [s] + ss, [move] + moves)
  {
    var ss', moves' := [s] + ss, [move] + moves;
    forall k | 0 <= k < |moves'| ensures InternalStep(token, ss'[k], moves'[k], ss'[k + 1]) {
      if k > 0 {
        assert InternalStep(token, ss[k - 1], moves[k - 1], ss[k]);
      }
    }
  }

  /**
    From any state of any run the calls under way come to rest by themselves, in no more moves
    than two per consumer that is awake.
   */
  lemma {:induction false} ComesToRest<T(!new)>(token: Tid -> Token, s: State<T>)
    returns (ss: seq<State<T>>, moves: seq<Move<T>>)
    requires Inv(token, s)
    ensures InternalRun(token, ss, moves) && ss[0] == s && |moves| <= Work(s.threads)
    ensures Inv(token, ss[|moves|]) && !SomeoneCanMove(ss[|moves|])
    ensures ss[|moves|].flagged == s.flagged && ss[|moves|].unannounced == s.unannounced
    decreases Work(s.threads)
  {
    if SomeoneCanMove(s) {
      var move, s' := MoversCanMove(token, s);
      InternalMovesUseUpWork(token, s, move, s');
      NextKeepsInv(token, s, move, s');
      var ss', moves' := ComesToRest(token, s');
      InternalRunFrom(token, s, move, ss', moves');
      ss, moves := [s] + ss', [move] + moves';
    } else {
      ss, moves := [s], [];
    }
  }

  /** No schedule of the calls under way is longer than that. */
  lemma {:induction false} InternalRunsAreShort<T(!new)>(token: Tid -> Token, ss: seq<State<T>>, moves: seq<Move<T>>)
    requires InternalRun(token, ss, moves)
    ensures |moves| + Work(ss[|moves|].threads) <= Work(ss[0].threads)
    decreases |moves|
  {
    if moves != [] {
      var n := |moves| - 1;
      assert InternalStep(token, ss[n], moves[n], ss[n + 1]);
      InternalMovesUseUpWork(token, ss[n], moves[n], ss[n + 1]);
      InternalRunsAreShort(token, ss[..n + 1], moves[..n]);
    }
  }

  /** At rest, consumers that share an unfired token sleep only beside an empty queue. */
  lemma SleepersAtRestMeanEmptyQueue<T(!new)>(token: Tid -> Token, shared: Token,
                                              ss: seq<State<T>>, moves: seq<Move<T>>, k: nat, t: Tid)
    requires IsRun(token, ss, moves) && k < |ss| && !SomeoneCanMove(ss[k])
    requires forall u :: token(u) == shared
    requires shared !in ss[k].flagged && At(ss[k].threads, t, Parked)
    ensures ss[k].queue == []
  {
    CountPositive(ss[k].threads, Parked);
    SharedTokenLosesNoWakeup(token, shared, ss, moves, k);
  }

  /** At rest, whatever the tokens, nobody whose stop has been announced is still inside pop. */
  lemma StopReleasesConsumers<T(!new)>(token: Tid -> Token, s: State<T>, t: Tid)
    requires Inv(token, s) && !SomeoneCanMove(s)
    requires token(t) in s.flagged && token(t) !in s.unannounced
    ensures Idle(s, t)
  {
    CountPositive(s.threads, Woken);
    CountPositive(s.threads, Through);
    assert !At(s.threads, t, Parked) && !At(s.threads, t, Woken) && !At(s.threads, t, Through);
  }

  // ---------- Order and conservation ----------

  function ItemsOf<T>(gone: seq<Gone<T>>): seq<T> {
    seq(|gone|, i requires 0 <= i < |gone| => gone[i].item)
  }

  /** The arguments of the pushes among the first k moves, in order. */
  function PushedBy<T>(moves: seq<Move<T>>, k: nat): seq<T>
    requires k <= |moves|
  {
    if k == 0 then []
    else PushedBy(moves, k - 1) + if moves[k - 1].Push? then [moves[k - 1].item] else []
  }

  /**
    First in, first out, nothing lost or invented: the items that have left, in the order in
    which they left, followed by the queue, are the arguments of the calls of push, in order.
   */
  lemma {:induction false} FirstInFirstOut<T(!new)>(token: Tid -> Token, ss: seq<State<T>>, moves: seq<Move<T>>, k: nat)
    requires IsRun(token, ss, moves) && k < |ss|
    ensures ItemsOf(ss[k].gone) + ss[k].queue == ss[k].pushed == PushedBy(moves, k)
  {
    if k > 0 {
      FirstInFirstOut(token, ss, moves, k - 1);
      assert Next(token, ss[k - 1], moves[k - 1], ss[k]);
      NextKeepsOrder(token, ss[k - 1], moves[k - 1], ss[k]);
    }
  }

  lemma NextKeepsOrder<T(!new)>(token: Tid -> Token, s: State<T>, move: Move<T>, s': State<T>)
    requires Next(token, s, move, s') && ItemsOf(s.gone) + s.queue == s.pushed
    ensures ItemsOf(s'.gone) + s'.queue == s'.pushed
    ensures s'.pushed == s.pushed + if move.Push? then [move.item] else []
  {
  }

  /** The items that left into somebody's hands, in order. */
  function TakenItems<T>(gone: seq<Gone<T>>): seq<T> {
    if gone == [] then []
    else
      var last := gone[|gone| - 1];
      TakenItems(gone[..|gone| - 1]) + if last.fate.Taken? then [last.item] else []
  }

  /** The call of pop or tryPop in question is over after this move. */
  predicate EndsCall<T>(move: Move<T>, s': State<T>) {
    match move
    case CallPop(t) => Idle(s', t)
    case ResumePop(t) => Idle(s', t)
    case FinishPop(t) => Idle(s', t)
    case TryPop => true
    case _ => false
  }

  /** What the call that ends with this move returns; a wait that ends on a stop returns nothing. */
  function Returned<T>(token: Tid -> Token, s: State<T>, move: Move<T>): Option<T> {
    match move
    case FinishPop(t) => if s.queue == [] || token(t) in s.flagged then None else Some(s.queue[0])
    case TryPop => if s.queue == [] then None else Some(s.queue[0])
    case _ => None
  }

  function AsSeq<T>(x: Option<T>): seq<T> {
    if x.Some? then [x.value] else []
  }

  /** What the calls of the first k moves returned, in order. */
  function Handed<T>(token: Tid -> Token, ss: seq<State<T>>, moves: seq<Move<T>>, k: nat): seq<T>
    requires k <= |moves| < |ss|
  {
    if k == 0 then []
    else Handed(token, ss, moves, k - 1) + AsSeq(Returned(token, ss[k - 1], moves[k - 1]))
  }

  lemma {:induction false} ClearingTakesNothing<T>(gone: seq<Gone<T>>, items: seq<T>)
    ensures TakenItems(gone + AllCleared(items)) == TakenItems(gone)
    decreases |items|
  {
    if items == [] {
      assert gone + AllCleared(items) == gone;
    } else {
      var less, last := items[..|items| - 1], items[|items| - 1];
      ClearingTakesNothing(gone, less);
      OneMoreCleared(gone, less, last);
      OneMoreGone(gone + AllCleared(less), Gone(last, Cleared));
      assert items == less + [last];
    }
  }

  lemma OneMoreCleared<T>(gone: seq<Gone<T>>, items: seq<T>, last: T)
    ensures gone + AllCleared(items + [last]) == (gone + AllCleared(items)) + [Gone(last, Cleared)]
  {
  }

  lemma OneMoreGone<T>(gone: seq<Gone<T>>, last: Gone<T>)
    ensures TakenItems(gone + [last]) == TakenItems(gone) + if last.fate.Taken? then [last.item] else []
  {
    assert (gone + [last])[..|gone|] == gone;
  }

  /** A move takes the item it returns and no other; a call that ends with nothing changes nothing. */
  lemma ReturnedIsTaken<T(!new)>(token: Tid -> Token, s: State<T>, move: Move<T>, s': State<T>)
    requires Next(token, s, move, s')
    ensures TakenItems(s'.gone) == TakenItems(s.gone) + AsSeq(Returned(token, s, move))
    ensures EndsCall(move, s') && Returned(token, s, move).None? ==> s'.queue == s.queue && s'.gone == s.gone
    ensures EndsCall(move, s') && !move.TryPop? ==> (Returned(token, s, move).None? <==> token(move.t) in s.flagged)
  {
    if s.queue != [] {
      OneMoreGone(s.gone, Gone(s.queue[0], Taken));
    }
    ClearingTakesNothing(s.gone, s.queue);
  }

  /**
    In every run the items taken are those the calls of pop and tryPop returned, in the order in
    which they returned them; a call that came back empty-handed had left the queue, and what
    had gone from it, alone; and pop comes back empty-handed exactly when its token has fired.
   */
  lemma {:induction false} TakenAreReturned<T(!new)>(token: Tid -> Token, ss: seq<State<T>>, moves: seq<Move<T>>,
                                                     k: nat)
    requires IsRun(token, ss, moves) && k < |ss|
    ensures TakenItems(ss[k].gone) == Handed(token, ss, moves, k)
    ensures forall j | 0 <= j < k && EndsCall(moves[j], ss[j + 1]) && Returned(token, ss[j], moves[j]).None? ::
              ss[j + 1].queue == ss[j].queue && ss[j + 1].gone == ss[j].gone
    ensures forall j | 0 <= j < k && EndsCall(moves[j], ss[j + 1]) && !moves[j].TryPop? ::
              Returned(token, ss[j], moves[j]).None? <==> token(moves[j].t) in ss[j].flagged
  {
    if k > 0 {
      TakenAreReturned(token, ss, moves, k - 1);
      ReturnedIsTaken(token, ss[k - 1], moves[k - 1], ss[k]);
    }
  }
}
