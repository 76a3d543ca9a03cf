/**
  PlaybackOrchestrator: the download worker, a consumer of the segment queue and the owner who
  starts and stops, as an interleaving of small steps. Playlists, downloads and failures come
  from outside and may be anything.
 */
module Orchestrator {
  import opened Wrappers
  import opened Machine
  import opened Playlist
  import Abr
  import Q = ConcurrentQueue

  /**
    A downloaded segment. Besides the throughput it reports, the model remembers which playlist
    it was requested for and how many switches the worker had made by then.
   */
  datatype Bundle = Bundle(variantUri: string, segmentUri: string, index: nat, throughput: real, epoch: nat)

  /** What never changes: the URL resolver, the smoothing factor, the master URL. */
  datatype Config = Config(resolve: (string, string) -> string, alpha: real, masterUrl: string)

  datatype Reason = NoMaster | Stopped | NoPlaylist | NoSegment

  /** A list being worked on, from segment i. The rest records how things stood when the list arrived:
      the number of bundles pushed, the next index wanted, the current variant and the ABR state. */
  datatype Work = Work(list: Playlist, i: nat, since: nat, from: nat, uri: string, abr: Abr.State)

  /** Where the worker is. */
  datatype Phase =
    | NotStarted
    | AwaitMaster
    | LoopHead
    | AwaitPlaylist
    | AtSegment(work: Work)
    | AwaitSegment(work: Work)
    | Enqueue(work: Work, bundle: Bundle)
    | Decide(work: Work)
    | Drain(work: Work, nextUri: string)
    | Switch(work: Work, nextUri: string)
    | AfterList(work: Work)
    | EndOfStream(work: Work)
    | Done(reason: Reason)

  datatype State = State(
    phase: Phase, stopRequested: bool, abr: Abr.State,
    variants: seq<Variant>, currentUri: string, nextIndex: nat, throughput: real, switches: nat,
    queue: seq<Bundle>, pushed: seq<Bundle>, gone: seq<Q.Gone<Bundle>>)

  datatype Move =
    | StartWorker
    | GotMaster(master: Option<Playlist>)
    | CheckStop
    | GotPlaylist(playlist: Option<Playlist>)
    | VisitSegment
    | GotSegment(throughput: Option<real>)
    | PushBundle
    | DecideVariant
    | DrainQueue
    | SetVariant
    | FinishList
    | Consume
    | RequestStop
    | JoinAndClear

  const INITIAL := State(NotStarted, false, Abr.INITIAL, [], "", 0, 0.0, 0, [], [], [])

  function SelectUri(c: Config, abr: Abr.State, variants: seq<Variant>): string
    requires abr.current < |variants|
  {
    c.resolve(c.masterUrl, variants[abr.current].uri)
  }

  /** selectVariant always leaves an index into the list it was given. */
  lemma SelectInRange(alpha: real, s: Abr.State, vs: seq<Variant>, sample: real)
    requires vs != []
    ensures Abr.Select(alpha, s, vs, sample).current < |vs|
  {
  }

  function Cleared(s: State): State {
    s.(queue := [], gone := s.gone + Q.AllCleared(s.queue))
  }

  predicate FitsU64(list: Playlist) {
    forall k | 0 <= k < |list.segments| :: list.segments[k].sequenceIndex < U64
  }

  ghost predicate Next(c: Config, s: State, move: Move, s': State) {
    match move
    case StartWorker =>
      s.phase.NotStarted? && s' == INITIAL.(phase := AwaitMaster, abr := s.abr)
    case GotMaster(master) =>
      && s.phase.AwaitMaster?
      && if master.None? || !master.value.playlistType.Master? || master.value.variants == [] then
           s' == s.(phase := Done(NoMaster))
         else
           var vs := master.value.variants;
           var abr := Abr.Select(c.alpha, s.abr, vs, 0.0);
           SelectInRange(c.alpha, s.abr, vs, 0.0);
           s' == s.(phase := LoopHead, abr := abr, variants := vs, currentUri := SelectUri(c, abr, vs))
    case CheckStop =>
      && s.phase.LoopHead?
      && s' == s.(phase := if s.stopRequested then Done(Stopped) else AwaitPlaylist)
    case GotPlaylist(playlist) =>
      && s.phase.AwaitPlaylist?
      && (playlist.Some? ==> FitsU64(playlist.value))
      && s' == s.(phase :=
           if playlist.None? then Done(NoPlaylist)
           else AtSegment(Work(playlist.value, 0, |s.pushed|, s.nextIndex, s.currentUri, s.abr)))
    case VisitSegment =>
      && s.phase.AtSegment?
      && s.phase.work.i < |s.phase.work.list.segments|
      && var w := s.phase.work;
         s' == s.(phase :=
           if s.stopRequested then Done(Stopped)
           else if w.list.segments[w.i].sequenceIndex < s.nextIndex then AtSegment(w.(i := w.i + 1))
           else AwaitSegment(w))
    case GotSegment(throughput) =>
      && s.phase.AwaitSegment?
      && s.phase.work.i < |s.phase.work.list.segments|
      && var w := s.phase.work;
         var segment := w.list.segments[w.i];
         s' == if throughput.None? then s.(phase := Done(NoSegment))
               else s.(throughput := throughput.value,
                       nextIndex := (segment.sequenceIndex + 1) % U64,
                       phase := Enqueue(w.(i := w.i + 1),
                         Bundle(s.currentUri, c.resolve(s.currentUri, segment.uri),
                                segment.sequenceIndex, throughput.value, s.switches)))
    case PushBundle =>
      && s.phase.Enqueue?
      && s' == s.(queue := s.queue + [s.phase.bundle], pushed := s.pushed + [s.phase.bundle],
                  phase := Decide(s.phase.work))
    case DecideVariant =>
      && s.phase.Decide? && s.variants != []
      && var abr := Abr.Select(c.alpha, s.abr, s.variants, s.throughput);
         SelectInRange(c.alpha, s.abr, s.variants, s.throughput);
         var uri := SelectUri(c, abr, s.variants);
         s' == s.(abr := abr,
                  phase := if uri != s.currentUri then Drain(s.phase.work, uri) else AtSegment(s.phase.work))
    case DrainQueue =>
      && s.phase.Drain?
      && s' == Cleared(s).(phase := Switch(s.phase.work, s.phase.nextUri))
    case SetVariant =>
      && s.phase.Switch?
      && s' == s.(currentUri := s.phase.nextUri, switches := s.switches + 1, phase := AfterList(s.phase.work))
    case FinishList =>
      || (s.phase.AtSegment? && s.phase.work.i == |s.phase.work.list.segments|
          && s' == s.(phase := AfterList(s.phase.work)))
      || (s.phase.AfterList?
          && s' == s.(phase := if s.phase.work.list.hasEndlist then EndOfStream(s.phase.work) else LoopHead))
    case Consume =>
      && s.queue != []
      && s' == s.(queue := s.queue[1..], gone := s.gone + [Q.Gone(s.queue[0], Q.Taken)])
    case RequestStop => !s.phase.NotStarted? && s' == s.(stopRequested := true)
    case JoinAndClear =>
      (s.phase.Done? || s.phase.EndOfStream?) && s.stopRequested && s' == Cleared(s).(phase := NotStarted)
  }

  ghost predicate StepAt(c: Config, ss: seq<State>, moves: seq<Move>, k: nat)
    requires k < |moves| && k + 1 < |ss|
  {
    Next(c, ss[k], moves[k], ss[k + 1])
  }

  ghost predicate IsRun(c: Config, ss: seq<State>, moves: seq<Move>) {
    && |ss| == |moves| + 1 && ss[0] == INITIAL
    && forall k | 0 <= k < |moves| :: StepAt(c, ss, moves, k)
  }

  // ---------- Variants in the queue ----------

  predicate OfCurrentVariant(s: State, b: Bundle) {
    b.variantUri == s.currentUri && b.epoch == s.switches
  }

  /** Everything queued was fetched from the current variant, since the latest switch. */
  predicate Homogeneous(s: State) {
    && (forall k | 0 <= k < |s.queue| :: OfCurrentVariant(s, s.queue[k]))
    && (s.phase.Enqueue? ==> OfCurrentVariant(s, s.phase.bundle))
    && (s.phase.NotStarted? || s.phase.AwaitMaster? || s.phase.Switch? ==> s.queue == [])
  }

  lemma NextKeepsHomogeneous(c: Config, s: State, move: Move, s': State)
    requires Homogeneous(s) && Next(c, s, move, s')
    ensures Homogeneous(s')
  {
  }

  lemma {:induction false} RunHomogeneous(c: Config, ss: seq<State>, moves: seq<Move>, k: nat)
    requires IsRun(c, ss, moves) && k < |ss|
    ensures Homogeneous(ss[k])
  {
    if k > 0 {
      RunHomogeneous(c, ss, moves, k - 1);
      assert StepAt(c, ss, moves, k - 1);
      NextKeepsHomogeneous(c, ss[k - 1], moves[k - 1], ss[k]);
    }
  }

  /** Whatever the interleaving, the consumer only ever receives bundles of the variant that is
      current at that moment: never one of a variant the worker has switched away from. */
  lemma DeliveredIsCurrent(c: Config, ss: seq<State>, moves: seq<Move>, k: nat)
    requires IsRun(c, ss, moves) && k < |moves| && moves[k].Consume?
    ensures ss[k].queue != [] && OfCurrentVariant(ss[k], ss[k].queue[0])
    ensures ss[k + 1].gone == ss[k].gone + [Q.Gone(ss[k].queue[0], Q.Taken)]
  {
    RunHomogeneous(c, ss, moves, k);
    assert StepAt(c, ss, moves, k);
  }

  // ---------- Conservation ----------

  /** The bundles pushed in a run are, in order, those delivered or cleared and those queued. */
  lemma {:induction false} BundlesAccountedFor(c: Config, ss: seq<State>, moves: seq<Move>, k: nat)
    requires IsRun(c, ss, moves) && k < |ss|
    ensures Q.ItemsOf(ss[k].gone) + ss[k].queue == ss[k].pushed
  {
    if k > 0 {
      BundlesAccountedFor(c, ss, moves, k - 1);
      assert StepAt(c, ss, moves, k - 1);
    }
  }

  // ---------- Indices ----------

  function LastPushed(s: State): Bundle
    requires s.pushed != []
  {
    s.pushed[|s.pushed| - 1]
  }

  /** The bundle fits behind the last one pushed: at least its successor in 64 bits. */
  predicate Follows(s: State, index: nat) {
    index < U64 && (s.pushed != [] ==> (LastPushed(s).index + 1) % U64 <= index)
  }

  /** The worker's own bookkeeping: the next index is the successor of the last one pushed. */
  predicate NextIsSuccessor(s: State) {
    if s.phase.Enqueue? then
      Follows(s, s.phase.bundle.index) && s.nextIndex == (s.phase.bundle.index + 1) % U64
    else s.pushed != [] ==> s.nextIndex == (LastPushed(s).index + 1) % U64
  }

  predicate Chained(bundles: seq<Bundle>) {
    && (forall k | 0 <= k < |bundles| :: bundles[k].index < U64)
    && (forall k | 0 < k < |bundles| :: (bundles[k - 1].index + 1) % U64 <= bundles[k].index)
  }

  predicate AtWork(phase: Phase) {
    phase.AtSegment? || phase.AwaitSegment? || phase.Enqueue? || phase.Decide? || phase.Drain?
    || phase.Switch? || phase.AfterList? || phase.EndOfStream?
  }

  /** The list being worked on, and a segment about to arrive that is still wanted. */
  predicate WorkInRange(s: State) {
    && (AtWork(s.phase) ==> FitsU64(s.phase.work.list) && s.phase.work.i <= |s.phase.work.list.segments|)
    && (s.phase.AwaitSegment? ==>
          && s.phase.work.i < |s.phase.work.list.segments|
          && s.nextIndex <= s.phase.work.list.segments[s.phase.work.i].sequenceIndex)
  }

  predicate IndicesAdvance(s: State) {
    Chained(s.pushed) && NextIsSuccessor(s) && WorkInRange(s)
  }

  /** Moves that leave the bundles pushed and the next index alone. */
  predicate KeepsPushed(move: Move) {
    !move.StartWorker? && !move.GotSegment? && !move.PushBundle?
  }

  lemma PushedLeftAlone(c: Config, s: State, move: Move, s': State)
    requires KeepsPushed(move) && Next(c, s, move, s')
    ensures s'.pushed == s.pushed && s'.nextIndex == s.nextIndex
    ensures s'.phase == s.phase || !(s.phase.Enqueue? || s'.phase.Enqueue?)
  {
  }

  lemma PushKeepsChained(bundles: seq<Bundle>, b: Bundle)
    requires Chained(bundles) && b.index < U64
    requires bundles != [] ==> (bundles[|bundles| - 1].index + 1) % U64 <= b.index
    ensures Chained(bundles + [b])
  {
  }

  lemma NextKeepsWorkInRange(c: Config, s: State, move: Move, s': State)
    requires WorkInRange(s) && Next(c, s, move, s')
    ensures WorkInRange(s')
  {
  }

  lemma NextKeepsIndices(c: Config, s: State, move: Move, s': State)
    requires IndicesAdvance(s) && Next(c, s, move, s')
    ensures IndicesAdvance(s')
  {
    NextKeepsWorkInRange(c, s, move, s');
    if KeepsPushed(move) {
      OthersKeepIndices(c, s, move, s');
    } else if move.PushBundle? {
      PushKeepsIndices(c, s, s');
    } else if move.GotSegment? {
      SegmentKeepsIndices(c, s, move, s');
    }
  }

  lemma OthersKeepIndices(c: Config, s: State, move: Move, s': State)
    requires IndicesAdvance(s) && KeepsPushed(move) && Next(c, s, move, s')
    ensures Chained(s'.pushed) && NextIsSuccessor(s')
  {
    PushedLeftAlone(c, s, move, s');
  }

  lemma PushKeepsIndices(c: Config, s: State, s': State)
    requires IndicesAdvance(s) && Next(c, s, PushBundle, s')
    ensures Chained(s'.pushed) && NextIsSuccessor(s')
  {
    PushKeepsChained(s.pushed, s.phase.bundle);
  }

  lemma SegmentKeepsIndices(c: Config, s: State, move: Move, s': State)
    requires IndicesAdvance(s) && move.GotSegment? && Next(c, s, move, s')
    ensures Chained(s'.pushed) && NextIsSuccessor(s')
  {
    assert s'.pushed == s.pushed;
  }

  lemma {:induction false} RunIndicesAdvance(c: Config, ss: seq<State>, moves: seq<Move>, k: nat)
    requires IsRun(c, ss, moves) && k < |ss|
    ensures IndicesAdvance(ss[k])
  {
    if k > 0 {
      RunIndicesAdvance(c, ss, moves, k - 1);
      assert StepAt(c, ss, moves, k - 1);
      NextKeepsIndices(c, ss[k - 1], moves[k - 1], ss[k]);
    }
  }

  predicate StrictlyIncreasing(bundles: seq<Bundle>) {
    forall i, j | 0 <= i < j < |bundles| :: bundles[i].index < bundles[j].index
  }

  lemma {:induction false} ChainedIsIncreasing(bundles: seq<Bundle>, i: nat, j: nat)
    requires Chained(bundles) && i < j < |bundles|
    requires forall k | 0 <= k < |bundles| - 1 :: bundles[k].index != U64 - 1
    ensures bundles[i].index < bundles[j].index
    decreases j
  {
    if i < j - 1 {
      ChainedIsIncreasing(bundles, i, j - 1);
    }
  }

  /**
    Across reloads and switches, whatever playlists arrive, the indices pushed by one worker
    strictly increase, unless the counter wraps: exactly when no index but the last is 2^64 - 1.
   */
  lemma PushedIncreaseIffNoWrap(c: Config, ss: seq<State>, moves: seq<Move>, k: nat)
    requires IsRun(c, ss, moves) && k < |ss|
    ensures StrictlyIncreasing(ss[k].pushed)
       <==> forall j | 0 <= j < |ss[k].pushed| - 1 :: ss[k].pushed[j].index != U64 - 1
  {
    RunIndicesAdvance(c, ss, moves, k);
    var p := ss[k].pushed;
    if forall j | 0 <= j < |p| - 1 :: p[j].index != U64 - 1 {
      forall i, j | 0 <= i < j < |p| ensures p[i].index < p[j].index {
        ChainedIsIncreasing(p, i, j);
      }
    } else {
      var j :| 0 <= j < |p| - 1 && p[j].index == U64 - 1;
      assert p[j + 1].index < U64;
    }
  }

  predicate NeverMax(s: State) {
    forall j | 0 <= j < |s.pushed| :: s.pushed[j].index != U64 - 1
  }

  /**
    So what one consumer receives also has strictly increasing indices, and a segment cleared by
    a switch is lost for good: no bundle with its index is ever delivered in the same run.
   */
  lemma DeliveredIncreaseClearedStayLost(c: Config, ss: seq<State>, moves: seq<Move>, k: nat, i: nat, j: nat)
    requires IsRun(c, ss, moves) && k < |ss| && NeverMax(ss[k])
    requires i < j < |ss[k].gone|
    ensures ss[k].gone[i].item.index < ss[k].gone[j].item.index
  {
    PushedIncreaseIffNoWrap(c, ss, moves, k);
    BundlesAccountedFor(c, ss, moves, k);
    var s := ss[k];
    assert s.pushed[i] == s.gone[i].item && s.pushed[j] == s.gone[j].item;
  }

  // ---------- Which segments of a list are pushed ----------

  /** The segments a pass over the list picks when it starts from index next. */
  function Wanted(segments: seq<Segment>, next: nat): seq<Segment> {
    if segments == [] then []
    else if segments[0].sequenceIndex < next then Wanted(segments[1..], next)
    else [segments[0]] + Wanted(segments[1..], (segments[0].sequenceIndex + 1) % U64)
  }

  /** What next has become after such a pass. */
  function NextAfter(segments: seq<Segment>, next: nat): nat {
    if segments == [] then next
    else NextAfter(segments[1..],
                   if segments[0].sequenceIndex < next then next else (segments[0].sequenceIndex + 1) % U64)
  }

  lemma {:induction false} WantedOneMore(segments: seq<Segment>, last: Segment, next: nat)
    ensures NextAfter(segments + [last], next)
         == if last.sequenceIndex < NextAfter(segments, next) then NextAfter(segments, next)
            else (last.sequenceIndex + 1) % U64
    ensures Wanted(segments + [last], next)
         == Wanted(segments, next) + if last.sequenceIndex < NextAfter(segments, next) then [] else [last]
  {
    if segments != [] {
      assert (segments + [last])[1..] == segments[1..] + [last];
      var next' := if segments[0].sequenceIndex < next then next else (segments[0].sequenceIndex + 1) % U64;
      WantedOneMore(segments[1..], last, next');
    }
  }

  /** bundle is the download of segment. */
  predicate Downloads(c: Config, bundle: Bundle, segment: Segment) {
    && bundle.index == segment.sequenceIndex
    && bundle.segmentUri == c.resolve(bundle.variantUri, segment.uri)
  }

  /** The bundles are the downloads of the segments, one by one. */
  predicate DownloadsOf(c: Config, bundles: seq<Bundle>, segments: seq<Segment>) {
    |bundles| == |segments| && forall k | 0 <= k < |bundles| :: Downloads(c, bundles[k], segments[k])
  }

  /** Bundles of the current list, including one about to be pushed. */
  function Produced(s: State): seq<Bundle>
    requires AtWork(s.phase) && s.phase.work.since <= |s.pushed|
  {
    s.pushed[s.phase.work.since..] + if s.phase.Enqueue? then [s.phase.bundle] else []
  }

  predicate PassSoFar(c: Config, s: State) {
    AtWork(s.phase) ==>
      var w := s.phase.work;
      && w.since <= |s.pushed| && w.i <= |w.list.segments|
      && DownloadsOf(c, Produced(s), Wanted(w.list.segments[..w.i], w.from))
      && s.nextIndex == NextAfter(w.list.segments[..w.i], w.from)
      && (s.phase.AwaitSegment? ==>
            w.i < |w.list.segments| && s.nextIndex <= w.list.segments[w.i].sequenceIndex)
  }

  lemma PassKeptBySegment(c: Config, s: State, move: Move, s': State)
    requires PassSoFar(c, s) && Next(c, s, move, s')
    requires (s.phase.AtSegment? || s.phase.AwaitSegment?)
    requires s.phase.work.i < |s.phase.work.list.segments|
    requires move.VisitSegment? || move.GotSegment?
    ensures PassSoFar(c, s')
  {
    var w := s.phase.work;
    WantedOneMore(w.list.segments[..w.i], w.list.segments[w.i], w.from);
    assert w.list.segments[..w.i + 1] == w.list.segments[..w.i] + [w.list.segments[w.i]];
  }

  /** Moves that neither work on a segment nor start a list. */
  predicate LeavesList(move: Move) {
    !move.VisitSegment? && !move.GotSegment? && !move.PushBundle? && !move.GotPlaylist?
  }

  lemma ListLeftAlone(c: Config, s: State, move: Move, s': State)
    requires Next(c, s, move, s') && LeavesList(move) && AtWork(s'.phase)
    ensures AtWork(s.phase) && s'.phase.work == s.phase.work
    ensures s'.pushed == s.pushed && s'.nextIndex == s.nextIndex
    ensures s'.phase == s.phase || !(s.phase.Enqueue? || s'.phase.Enqueue? || s'.phase.AwaitSegment?)
  {
  }

  lemma PassKeptByPush(c: Config, s: State, s': State)
    requires PassSoFar(c, s) && Next(c, s, PushBundle, s')
    ensures PassSoFar(c, s')
  {
    assert Produced(s') == Produced(s);
  }

  lemma PassStarts(c: Config, s: State, move: Move, s': State)
    requires move.GotPlaylist? && Next(c, s, move, s')
    ensures PassSoFar(c, s')
  {
  }

  lemma NextKeepsPass(c: Config, s: State, move: Move, s': State)
    requires PassSoFar(c, s) && Next(c, s, move, s')
    ensures PassSoFar(c, s')
  {
    if move.VisitSegment? || move.GotSegment? {
      PassKeptBySegment(c, s, move, s');
    } else if move.PushBundle? {
      PassKeptByPush(c, s, s');
    } else if move.GotPlaylist? {
      PassStarts(c, s, move, s');
    } else if AtWork(s'.phase) {
      ListLeftAlone(c, s, move, s');
      assert Produced(s') == Produced(s);
    }
  }

  lemma {:induction false} RunPassSoFar(c: Config, ss: seq<State>, moves: seq<Move>, k: nat)
    requires IsRun(c, ss, moves) && k < |ss|
    ensures PassSoFar(c, ss[k])
  {
    if k > 0 {
      RunPassSoFar(c, ss, moves, k - 1);
      assert StepAt(c, ss, moves, k - 1);
      NextKeepsPass(c, ss[k - 1], moves[k - 1], ss[k]);
    }
  }

  /** As the parser delivers them, with room for a successor to every index. */
  predicate Consecutive(segments: seq<Segment>) {
    && (forall k | 0 <= k < |segments| :: segments[k].sequenceIndex + 1 < U64)
    && (forall k | 0 < k < |segments| :: segments[k].sequenceIndex == segments[k - 1].sequenceIndex + 1)
  }

  // ---------- A stop is prompt ----------

  /** Moves of the worker itself, once started. */
  predicate WorkerMove(move: Move) {
    !move.StartWorker? && !move.Consume? && !move.RequestStop? && !move.JoinAndClear?
  }

  /** Bounds the moves the worker can still make when it is to stop. */
  function StepsLeft(phase: Phase): (n: nat)
    ensures n <= 7
  {
    match phase
    case NotStarted => 0
    case AwaitMaster => 2
    case LoopHead => 1
    case AwaitPlaylist => 4
    case AtSegment(_) => 3
    case AwaitSegment(_) => 7
    case Enqueue(_, _) => 6
    case Decide(_) => 5
    case Drain(_, _) => 4
    case Switch(_, _) => 3
    case AfterList(_) => 2
    case EndOfStream(_) => 0
    case Done(_) => 0
  }

  /** How many of the moves in [i, k) the worker made. */
  function WorkerMoves(moves: seq<Move>, i: nat, k: nat): nat
    requires i <= k <= |moves|
  {
    if i == k then 0 else WorkerMoves(moves, i, k - 1) + if WorkerMove(moves[k - 1]) then 1 else 0
  }

  predicate OneWorker(moves: seq<Move>, i: nat, k: nat)
    requires k <= |moves|
  {
    forall j | i <= j < k :: !moves[j].StartWorker? && !moves[j].JoinAndClear?
  }

  lemma StopUsesUpSteps(c: Config, s: State, move: Move, s': State)
    requires Next(c, s, move, s') && s.stopRequested && !move.StartWorker? && !move.JoinAndClear?
    ensures s'.stopRequested
    ensures StepsLeft(s'.phase) + (if WorkerMove(move) then 1 else 0) <= StepsLeft(s.phase)
  {
  }

  /**
    Once a stop is requested, the worker makes at most seven more moves, wherever it is and
    whatever the network answers; it has come to its end when none is left.
   */
  lemma {:induction false} StopIsPrompt(c: Config, ss: seq<State>, moves: seq<Move>, i: nat, k: nat)
    requires IsRun(c, ss, moves) && i <= k < |ss| && ss[i].stopRequested && OneWorker(moves, i, k)
    ensures ss[k].stopRequested
    ensures WorkerMoves(moves, i, k) + StepsLeft(ss[k].phase) <= StepsLeft(ss[i].phase) <= 7
    decreases k
  {
    if i < k {
      StopIsPrompt(c, ss, moves, i, k - 1);
      assert StepAt(c, ss, moves, k - 1);
      StopUsesUpSteps(c, ss[k - 1], moves[k - 1], ss[k]);
    }
  }

  // ---------- No gaps ----------

  predicate NoGaps(bundles: seq<Bundle>) {
    forall k | 0 < k < |bundles| :: bundles[k].index == bundles[k - 1].index + 1
  }

  /** The list being worked on goes on at or before the next index wanted. */
  predicate ListGoesOn(s: State) {
    AtWork(s.phase) ==>
      var w := s.phase.work;
      && Consecutive(w.list.segments)
      && ((s.pushed != [] || s.phase.Enqueue?) && w.i < |w.list.segments| ==>
            w.list.segments[w.i].sequenceIndex <= s.nextIndex)
  }

  predicate PushedWithoutGaps(s: State) {
    && NoGaps(s.pushed)
    && (s.phase.Enqueue? && s.pushed != [] ==> s.phase.bundle.index == LastPushed(s).index + 1)
    && (s.phase.Enqueue? ==> s.phase.bundle.index + 1 < U64)
    && (s.pushed != [] ==> LastPushed(s).index + 1 < U64)
  }

  predicate NothingSkipped(s: State) {
    PushedWithoutGaps(s) && ListGoesOn(s)
  }

  /** A list that arrives is a window of consecutive indices that starts no later than the next
      index wanted (unless nothing has been pushed yet). */
  predicate GaplessArrival(s: State, move: Move) {
    move.GotPlaylist? && move.playlist.Some? ==>
      var segments := move.playlist.value.segments;
      && Consecutive(segments)
      && (segments != [] && s.pushed != [] ==> segments[0].sequenceIndex <= s.nextIndex)
  }

  lemma SegmentKeepsListGoesOn(c: Config, s: State, move: Move, s': State)
    requires ListGoesOn(s) && Next(c, s, move, s') && (move.VisitSegment? || move.GotSegment?)
    ensures ListGoesOn(s')
  {
    var w := s.phase.work;
    assert w.i + 1 < |w.list.segments| ==>
        w.list.segments[w.i + 1].sequenceIndex == w.list.segments[w.i].sequenceIndex + 1;
  }

  lemma NextKeepsListGoesOn(c: Config, s: State, move: Move, s': State)
    requires ListGoesOn(s) && Next(c, s, move, s') && GaplessArrival(s, move)
    ensures ListGoesOn(s')
  {
    if move.VisitSegment? || move.GotSegment? {
      SegmentKeepsListGoesOn(c, s, move, s');
    } else if LeavesList(move) && AtWork(s'.phase) {
      ListLeftAlone(c, s, move, s');
    }
  }

  lemma NextKeepsPushedWithoutGaps(c: Config, s: State, move: Move, s': State)
    requires NothingSkipped(s) && NextIsSuccessor(s) && WorkInRange(s) && Next(c, s, move, s')
    ensures PushedWithoutGaps(s')
  {
    if KeepsPushed(move) {
      PushedLeftAlone(c, s, move, s');
    } else if move.PushBundle? {
      AppendKeepsNoGaps(s.pushed, s.phase.bundle);
    } else if move.GotSegment? {
      SegmentComesNext(c, s, move, s');
    }
  }

  lemma SegmentComesNext(c: Config, s: State, move: Move, s': State)
    requires NothingSkipped(s) && NextIsSuccessor(s) && WorkInRange(s) && move.GotSegment? && Next(c, s, move, s')
    ensures PushedWithoutGaps(s')
  {
  }

  lemma AppendKeepsNoGaps(bundles: seq<Bundle>, b: Bundle)
    requires NoGaps(bundles) && (bundles != [] ==> b.index == bundles[|bundles| - 1].index + 1)
    ensures NoGaps(bundles + [b])
  {
  }

  ghost predicate GaplessLists(ss: seq<State>, moves: seq<Move>)
    requires |ss| == |moves| + 1
  {
    forall k | 0 <= k < |moves| :: GaplessArrival(ss[k], moves[k])
  }

  /** Then the indices pushed by one worker have no gap after the first, across any switches. */
  lemma {:induction false} GaplessListsLeaveNoGaps(c: Config, ss: seq<State>, moves: seq<Move>, k: nat)
    requires IsRun(c, ss, moves) && GaplessLists(ss, moves) && k < |ss|
    ensures NothingSkipped(ss[k]) && NoGaps(ss[k].pushed)
  {
    if k > 0 {
      GaplessListsLeaveNoGaps(c, ss, moves, k - 1);
      RunIndicesAdvance(c, ss, moves, k - 1);
      assert StepAt(c, ss, moves, k - 1);
      NextKeepsListGoesOn(c, ss[k - 1], moves[k - 1], ss[k]);
      NextKeepsPushedWithoutGaps(c, ss[k - 1], moves[k - 1], ss[k]);
    }
  }

  // ---------- Gaps in what is delivered ----------

  /** The item at j is the next one delivered after the item at i. */
  predicate NextTaken(gone: seq<Q.Gone<Bundle>>, i: int, j: int) {
    && 0 <= i < j < |gone| && gone[i].fate.Taken? && gone[j].fate.Taken?
    && forall m | i < m < j :: gone[m].fate.Cleared?
  }

  ghost predicate DeliveredWithoutGaps(gone: seq<Q.Gone<Bundle>>) {
    forall i, j | NextTaken(gone, i, j) :: gone[j].item.index == gone[i].item.index + 1
  }

  /** Something was cleared after one delivery and before a later one. */
  predicate ClearedInBetween(gone: seq<Q.Gone<Bundle>>, i: int, m: int, j: int) {
    0 <= i < m < j < |gone| && gone[i].fate.Taken? && gone[m].fate.Cleared? && gone[j].fate.Taken?
  }

  lemma {:induction false} GoneIndices(c: Config, ss: seq<State>, moves: seq<Move>, k: nat, i: nat, j: nat)
    requires IsRun(c, ss, moves) && GaplessLists(ss, moves) && k < |ss| && i <= j < |ss[k].gone|
    ensures ss[k].gone[j].item.index == ss[k].gone[i].item.index + (j - i)
    decreases j
  {
    if i < j {
      GoneIndices(c, ss, moves, k, i, j - 1);
      GaplessListsLeaveNoGaps(c, ss, moves, k);
      BundlesAccountedFor(c, ss, moves, k);
      assert ss[k].pushed[j] == ss[k].gone[j].item && ss[k].pushed[j - 1] == ss[k].gone[j - 1].item;
    }
  }

  /** Around something cleared between two deliveries there are two deliveries next to each other. */
  lemma {:induction false} DeliveriesAround(gone: seq<Q.Gone<Bundle>>, i: int, m: int, j: int) returns (p: int, q: int)
    requires ClearedInBetween(gone, i, m, j)
    ensures NextTaken(gone, p, q) && p < m < q
    decreases j - i
  {
    if n :| i < n < m && gone[n].fate.Taken? {
      p, q := DeliveriesAround(gone, n, m, j);
    } else if n :| m < n < j && gone[n].fate.Taken? {
      p, q := DeliveriesAround(gone, i, m, n);
    } else {
      p, q := i, j;
    }
  }

  /**
    When lists leave no gaps in what is pushed, what is delivered has none exactly when no bundle
    was cleared between two deliveries.
   */
  lemma DeliveredGaplessIffNothingClearedBetween(c: Config, ss: seq<State>, moves: seq<Move>, k: nat)
    requires IsRun(c, ss, moves) && GaplessLists(ss, moves) && k < |ss|
    ensures DeliveredWithoutGaps(ss[k].gone) <==> forall i, m, j :: !ClearedInBetween(ss[k].gone, i, m, j)
  {
    var gone := ss[k].gone;
    if i, m, j :| ClearedInBetween(gone, i, m, j) {
      var p, q := DeliveriesAround(gone, i, m, j);
      GoneIndices(c, ss, moves, k, p, q);
    } else {
      forall i, j | NextTaken(gone, i, j) ensures gone[j].item.index == gone[i].item.index + 1 {
        GoneIndices(c, ss, moves, k, i, j);
        assert i + 1 < j ==> ClearedInBetween(gone, i, i + 1, j);
      }
    }
  }
}
