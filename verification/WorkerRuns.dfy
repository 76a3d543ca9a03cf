/**
  Runs of the worker, built step by step: they show that a final list can be cut short and
  cleared, that a switch can leave a gap in what is delivered, and that the index counter can wrap.
 */
module WorkerRuns {
  import opened Wrappers
  import opened Machine
  import opened Playlist
  import opened Orchestrator
  import opened StreamEnd
  import Abr
  import Q = ConcurrentQueue

  datatype Trace = Trace(states: seq<State>, moves: seq<Move>)

  /** The trace is a run that ends in s, and the lists in it leave no gaps if asked. */
  ghost predicate RunsTo(c: Config, r: Trace, s: State, gapless: bool) {
    && IsRun(c, r.states, r.moves) && r.states[|r.moves|] == s
    && (gapless ==> GaplessLists(r.states, r.moves))
  }

  lemma Extend(c: Config, r: Trace, s: State, move: Move, s': State, gapless: bool) returns (r': Trace)
    requires RunsTo(c, r, s, gapless) && Next(c, s, move, s') && (gapless ==> GaplessArrival(s, move))
    ensures RunsTo(c, r', s', gapless)
  {
    r' := Trace(r.states + [s'], r.moves + [move]);
    var n := |r.moves|;
    forall k | 0 <= k < n + 1 ensures StepAt(c, r'.states, r'.moves, k) {
      assert k < n ==> StepAt(c, r.states, r.moves, k);
    }
    if gapless {
      forall k | 0 <= k < n + 1 ensures GaplessArrival(r'.states[k], r'.moves[k]) {
        assert k < n ==> GaplessArrival(r.states[k], r.moves[k]);
      }
    }
  }

  // ---------- Stretches of runs ----------

  /** The choice before any sample: the ideal for no throughput at all. */
  function Unsampled(vs: seq<Variant>): Abr.State {
    Abr.State(0.0, 0, Abr.Ideal(vs, 0.0))
  }

  function MasterOf(vs: seq<Variant>): Playlist {
    EMPTY_PLAYLIST.(playlistType := Master, variants := vs)
  }

  /** At the head of the loop over lists, with the first variant chosen. */
  function Ready(c: Config, vs: seq<Variant>): State
    requires vs != []
  {
    INITIAL.(phase := LoopHead, abr := Unsampled(vs), variants := vs, currentUri := SelectUri(c, Unsampled(vs), vs))
  }

  lemma ReachReady(c: Config, vs: seq<Variant>, gapless: bool) returns (r: Trace)
    requires vs != []
    ensures RunsTo(c, r, Ready(c, vs), gapless)
  {
    var start := Trace([INITIAL], []);
    var awaiting := INITIAL.(phase := AwaitMaster);
    var r1 := Extend(c, start, INITIAL, StartWorker, awaiting, gapless);
    assert Abr.Select(c.alpha, Abr.INITIAL, vs, 0.0) == Unsampled(vs);
    r := Extend(c, r1, awaiting, GotMaster(Some(MasterOf(vs))), Ready(c, vs), gapless);
  }

  function Arrived(s: State, list: Playlist): State {
    s.(phase := AtSegment(Work(list, 0, |s.pushed|, s.nextIndex, s.currentUri, s.abr)))
  }

  lemma ReachArrived(c: Config, r: Trace, s: State, list: Playlist, gapless: bool) returns (r': Trace)
    requires RunsTo(c, r, s, gapless) && s.phase.LoopHead? && !s.stopRequested && FitsU64(list)
    requires gapless ==> GaplessArrival(s, GotPlaylist(Some(list)))
    ensures RunsTo(c, r', Arrived(s, list), gapless)
  {
    var asked := s.(phase := AwaitPlaylist);
    var r1 := Extend(c, r, s, CheckStop, asked, gapless);
    r' := Extend(c, r1, asked, GotPlaylist(Some(list)), Arrived(s, list), gapless);
  }

  predicate AtWanted(s: State) {
    && s.phase.AtSegment? && !s.stopRequested && s.variants != []
    && s.phase.work.i < |s.phase.work.list.segments|
    && s.nextIndex <= s.phase.work.list.segments[s.phase.work.i].sequenceIndex
  }

  function BundleFor(c: Config, s: State, t: real): Bundle
    requires AtWanted(s)
  {
    var segment := s.phase.work.list.segments[s.phase.work.i];
    Bundle(s.currentUri, c.resolve(s.currentUri, segment.uri), segment.sequenceIndex, t, s.switches)
  }

  /** A wanted segment has been downloaded with throughput t and queued. */
  function Queued(c: Config, s: State, t: real): State
    requires AtWanted(s)
  {
    var w, b := s.phase.work, BundleFor(c, s, t);
    s.(throughput := t, nextIndex := (b.index + 1) % U64, queue := s.queue + [b], pushed := s.pushed + [b],
       phase := Decide(w.(i := w.i + 1)))
  }

  lemma ReachQueued(c: Config, r: Trace, s: State, t: real, gapless: bool) returns (r': Trace)
    requires RunsTo(c, r, s, gapless) && AtWanted(s)
    ensures RunsTo(c, r', Queued(c, s, t), gapless)
  {
    var w, b := s.phase.work, BundleFor(c, s, t);
    var asked := s.(phase := AwaitSegment(w));
    var got := s.(throughput := t, nextIndex := (b.index + 1) % U64, phase := Enqueue(w.(i := w.i + 1), b));
    var r1 := Extend(c, r, s, VisitSegment, asked, gapless);
    var r2 := Extend(c, r1, asked, GotSegment(Some(t)), got, gapless);
    r' := Extend(c, r2, got, PushBundle, Queued(c, s, t), gapless);
  }

  /** The sample leaves the variant as it is. */
  lemma ReachStayed(c: Config, r: Trace, s: State, abr: Abr.State, gapless: bool) returns (r': Trace)
    requires RunsTo(c, r, s, gapless) && s.phase.Decide? && s.variants != [] && abr.current < |s.variants|
    requires Abr.Select(c.alpha, s.abr, s.variants, s.throughput) == abr
    requires SelectUri(c, abr, s.variants) == s.currentUri
    ensures RunsTo(c, r', s.(abr := abr, phase := AtSegment(s.phase.work)), gapless)
  {
    r' := Extend(c, r, s, DecideVariant, s.(abr := abr, phase := AtSegment(s.phase.work)), gapless);
  }

  /** The sample makes the worker switch: the queue is cleared and the pass is over. */
  function SwitchedTo(c: Config, s: State, abr: Abr.State): State
    requires s.phase.Decide? && abr.current < |s.variants|
  {
    Cleared(s).(abr := abr, currentUri := SelectUri(c, abr, s.variants), switches := s.switches + 1,
                phase := AfterList(s.phase.work))
  }

  lemma ReachSwitched(c: Config, r: Trace, s: State, abr: Abr.State, gapless: bool) returns (r': Trace)
    requires RunsTo(c, r, s, gapless) && s.phase.Decide? && s.variants != [] && abr.current < |s.variants|
    requires Abr.Select(c.alpha, s.abr, s.variants, s.throughput) == abr
    requires SelectUri(c, abr, s.variants) != s.currentUri
    ensures RunsTo(c, r', SwitchedTo(c, s, abr), gapless)
  {
    var uri := SelectUri(c, abr, s.variants);
    var decided := s.(abr := abr, phase := Drain(s.phase.work, uri));
    var drained := Cleared(decided).(phase := Switch(s.phase.work, uri));
    var r1 := Extend(c, r, s, DecideVariant, decided, gapless);
    var r2 := Extend(c, r1, decided, DrainQueue, drained, gapless);
    r' := Extend(c, r2, drained, SetVariant, SwitchedTo(c, s, abr), gapless);
  }

  lemma ReachListDone(c: Config, r: Trace, s: State, gapless: bool) returns (r': Trace)
    requires RunsTo(c, r, s, gapless) && s.phase.AfterList?
    ensures
      var after := if s.phase.work.list.hasEndlist then EndOfStream(s.phase.work) else LoopHead;
      RunsTo(c, r', s.(phase := after), gapless)
  {
    r' := Extend(c, r, s, FinishList,
                 s.(phase := if s.phase.work.list.hasEndlist then EndOfStream(s.phase.work) else LoopHead), gapless);
  }

  /** The consumer takes the only bundle in the queue. */
  lemma ReachTaken(c: Config, r: Trace, s: State, b: Bundle, gapless: bool) returns (r': Trace)
    requires RunsTo(c, r, s, gapless) && s.queue == [b]
    ensures RunsTo(c, r', s.(queue := [], gone := s.gone + [Q.Gone(b, Q.Taken)]), gapless)
  {
    assert s.queue[1..] == [];
    r' := Extend(c, r, s, Consume, s.(queue := [], gone := s.gone + [Q.Gone(b, Q.Taken)]), gapless);
  }

  // ---------- A final list that is lost ----------

  /** The choice after a first sample t. */
  function FirstChoice(vs: seq<Variant>, t: real): Abr.State {
    Abr.State(t, 0, Abr.Ideal(vs, Abr.Budget(t)))
  }

  /** The first sample makes the choice leave the variant chosen without one. */
  predicate SwitchesAtOnce(c: Config, vs: seq<Variant>, t: real) {
    vs != [] && SelectUri(c, FirstChoice(vs, t), vs) != SelectUri(c, Unsampled(vs), vs)
  }

  lemma FirstSample(c: Config, vs: seq<Variant>, t: real)
    ensures Abr.Select(c.alpha, Unsampled(vs), vs, t) == FirstChoice(vs, t)
    ensures FirstChoice(vs, 0.0) == Unsampled(vs)
  {
  }

  /**
    Whatever final list the worker starts on, a first sample that makes it switch ends the stream
    there: the first segment is cleared, the others are never fetched, and the consumer gets nothing.
   */
  lemma FinalListCanBeLost(c: Config, vs: seq<Variant>, list: Playlist, t: real) returns (r: Trace, s: State)
    requires SwitchesAtOnce(c, vs, t) && FitsU64(list) && list.segments != [] && list.hasEndlist
    ensures RunsTo(c, r, s, false) && s.phase.EndOfStream? && s.phase.work.list == list && s.phase.work.i == 1
    ensures |s.pushed| == 1 && s.gone == [Q.Gone(s.pushed[0], Q.Cleared)] && s.queue == []
    ensures s.phase.work.since == 0 && !PassIntact(s)
    ensures PassComplete(c, s) ==> |Wanted(list.segments, 0)| == 1
  {
    var r0 := ReachReady(c, vs, false);
    var arrived := Arrived(Ready(c, vs), list);
    var r1 := ReachArrived(c, r0, Ready(c, vs), list, false);
    var queued := Queued(c, arrived, t);
    var r2 := ReachQueued(c, r1, arrived, t, false);
    FirstSample(c, vs, t);
    var switched := SwitchedTo(c, queued, FirstChoice(vs, t));
    var r3 := ReachSwitched(c, r2, queued, FirstChoice(vs, t), false);
    assert switched.gone == [Q.Gone(BundleFor(c, arrived, t), Q.Cleared)];
    r := ReachListDone(c, r3, switched, false);
    s := switched.(phase := EndOfStream(switched.phase.work));
    assert !s.gone[0].fate.Taken?;
    assert s.pushed[0..] == s.pushed;
  }

  /** Two variants of 0.5 and 4 Mbit/s and a first segment at 10 Mbit/s will do. */
  lemma TwoVariantsSwitchAtOnce(alpha: real, masterUrl: string, low: Variant, high: Variant)
    requires low.bandwidth == 500_000 && high.bandwidth == 4_000_000 && low.uri != high.uri
    ensures SwitchesAtOnce(Config((base, uri) => uri, alpha, masterUrl), [low, high], 10.0)
  {
    var vs := [low, high];
    assert vs[1..] == [high] && [high][1..] == [];
    assert Abr.FittingPrefix([high], 8.0) == 1 && Abr.FittingPrefix(vs, 8.0) == 2;
    assert Abr.FittingPrefix(vs, 0.0) == 0;
  }

  // ---------- A gap in what is delivered ----------

  /** A segment that is no longer wanted is passed over. */
  lemma ReachSkipped(c: Config, r: Trace, s: State, gapless: bool) returns (r': Trace)
    requires RunsTo(c, r, s, gapless) && s.phase.AtSegment? && !s.stopRequested
    requires s.phase.work.i < |s.phase.work.list.segments|
    requires s.phase.work.list.segments[s.phase.work.i].sequenceIndex < s.nextIndex
    ensures RunsTo(c, r', s.(phase := AtSegment(s.phase.work.(i := s.phase.work.i + 1))), gapless)
  {
    r' := Extend(c, r, s, VisitSegment, s.(phase := AtSegment(s.phase.work.(i := s.phase.work.i + 1))), gapless);
  }

  predicate ThreeInARow(list: Playlist) {
    |list.segments| >= 3 && Consecutive(list.segments) && !list.hasEndlist
  }

  /** The first segment downloaded with nothing to show for it, and delivered. */
  function FirstDelivered(c: Config, vs: seq<Variant>, list: Playlist): State
    requires vs != [] && ThreeInARow(list)
  {
    var s := Arrived(Ready(c, vs), list);
    var b := BundleFor(c, s, 0.0);
    Queued(c, s, 0.0).(abr := Unsampled(vs), phase := AtSegment(s.phase.work.(i := 1)),
                       queue := [], gone := [Q.Gone(b, Q.Taken)])
  }

  lemma ReachFirstDelivered(c: Config, vs: seq<Variant>, list: Playlist) returns (r: Trace)
    requires vs != [] && ThreeInARow(list)
    ensures RunsTo(c, r, FirstDelivered(c, vs, list), true)
  {
    var r0 := ReachReady(c, vs, true);
    var s := Arrived(Ready(c, vs), list);
    var r1 := ReachArrived(c, r0, Ready(c, vs), list, true);
    var r2 := ReachQueued(c, r1, s, 0.0, true);
    FirstSample(c, vs, 0.0);
    var stayed := Queued(c, s, 0.0).(abr := Unsampled(vs), phase := AtSegment(s.phase.work.(i := 1)));
    var r3 := ReachStayed(c, r2, Queued(c, s, 0.0), Unsampled(vs), true);
    r := ReachTaken(c, r3, stayed, BundleFor(c, s, 0.0), true);
    assert [] + [Q.Gone(BundleFor(c, s, 0.0), Q.Taken)] == [Q.Gone(BundleFor(c, s, 0.0), Q.Taken)];
  }

  /** The second segment makes the worker switch, which clears it; the worker asks for the list again. */
  lemma ReachSecondCleared(c: Config, vs: seq<Variant>, list: Playlist, t: real) returns (r: Trace, s: State)
    requires SwitchesAtOnce(c, vs, t) && ThreeInARow(list)
    ensures RunsTo(c, r, s, true) && s.phase.LoopHead? && !s.stopRequested && s.queue == []
    ensures s.abr == FirstChoice(vs, t) && s.variants == vs && s.currentUri == SelectUri(c, s.abr, vs)
    ensures s.nextIndex == list.segments[1].sequenceIndex + 1 && |s.pushed| == |s.gone| == 2
    ensures s.gone[0].fate.Taken? && s.gone[1].fate.Cleared?
  {
    var first := FirstDelivered(c, vs, list);
    var r0 := ReachFirstDelivered(c, vs, list);
    var queued := Queued(c, first, t);
    var r1 := ReachQueued(c, r0, first, t, true);
    FirstSample(c, vs, t);
    var switched := SwitchedTo(c, queued, FirstChoice(vs, t));
    var r2 := ReachSwitched(c, r1, queued, FirstChoice(vs, t), true);
    assert queued.queue == [BundleFor(c, first, t)];
    r := ReachListDone(c, r2, switched, true);
    s := switched.(phase := LoopHead);
  }

  /** Back on the list, past the two segments that are no longer wanted. */
  lemma ReachThird(c: Config, r: Trace, s: State, list: Playlist) returns (r': Trace, s': State)
    requires RunsTo(c, r, s, true) && s.phase.LoopHead? && !s.stopRequested && ThreeInARow(list)
    requires s.nextIndex == list.segments[1].sequenceIndex + 1
    ensures s' == s.(phase := s'.phase) && RunsTo(c, r', s', true)
    ensures s'.phase.AtSegment? && s'.phase.work.list == list && s'.phase.work.i == 2
  {
    assert list.segments[1].sequenceIndex == list.segments[0].sequenceIndex + 1;
    var arrived := Arrived(s, list);
    var w := arrived.phase.work;
    var r1 := ReachArrived(c, r, s, list, true);
    var r2 := ReachSkipped(c, r1, arrived, true);
    r' := ReachSkipped(c, r2, arrived.(phase := AtSegment(w.(i := 1))), true);
    s' := arrived.(phase := AtSegment(w.(i := 2)));
  }

  /**
    Over any three consecutive segments, and though no list leaves a gap, a switch can: the consumer
    gets the first and the third, and never the second, which was pushed and cleared.
   */
  lemma SwitchCanLeaveGap(c: Config, vs: seq<Variant>, list: Playlist, t: real) returns (r: Trace, s: State)
    requires SwitchesAtOnce(c, vs, t) && ThreeInARow(list)
    ensures RunsTo(c, r, s, true) && |s.gone| == 3 && s.queue == []
    ensures s.gone[0].fate.Taken? && s.gone[1].fate.Cleared? && s.gone[2].fate.Taken?
    ensures !DeliveredWithoutGaps(s.gone)
  {
    var r0, second := ReachSecondCleared(c, vs, list, t);
    var r1, third := ReachThird(c, r0, second, list);
    assert list.segments[2].sequenceIndex == list.segments[1].sequenceIndex + 1;
    var b := BundleFor(c, third, t);
    var r2 := ReachQueued(c, r1, third, t, true);
    assert Queued(c, third, t).queue == [b];
    r := ReachTaken(c, r2, Queued(c, third, t), b, true);
    s := Queued(c, third, t).(queue := [], gone := second.gone + [Q.Gone(b, Q.Taken)]);
    DeliveredGaplessIffNothingClearedBetween(c, r.states, r.moves, |r.moves|);
    assert ClearedInBetween(s.gone, 0, 1, 2);
  }

  // ---------- A wrapped counter ----------

  /** After index 2^64 - 1 any segment is wanted again: indices then stop increasing. */
  lemma CounterCanWrap(c: Config, vs: seq<Variant>, list: Playlist) returns (r: Trace, s: State)
    requires vs != [] && FitsU64(list) && |list.segments| >= 2 && list.segments[0].sequenceIndex == U64 - 1
    ensures RunsTo(c, r, s, false) && |s.pushed| == 2
    ensures s.pushed[0].index == U64 - 1 && s.pushed[1].index == list.segments[1].sequenceIndex
    ensures !StrictlyIncreasing(s.pushed)
  {
    var r0 := ReachReady(c, vs, false);
    var arrived := Arrived(Ready(c, vs), list);
    var r1 := ReachArrived(c, r0, Ready(c, vs), list, false);
    var r2 := ReachQueued(c, r1, arrived, 0.0, false);
    FirstSample(c, vs, 0.0);
    var stayed := Queued(c, arrived, 0.0).(abr := Unsampled(vs), phase := AtSegment(arrived.phase.work.(i := 1)));
    var r3 := ReachStayed(c, r2, Queued(c, arrived, 0.0), Unsampled(vs), false);
    s := Queued(c, stayed, 0.0);
    r := ReachQueued(c, r3, stayed, 0.0, false);
  }
}
