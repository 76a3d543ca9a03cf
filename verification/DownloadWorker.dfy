/**
  The download worker as it runs: loops that update the playback context, the variant choice and
  the segment queue in place. Every method is proved to take steps of the orchestrator's step
  system, with the consumer and the owner acting in between, so what is proved of all runs there
  holds for this code.
 */
module DownloadWorker {
  import opened Wrappers
  import opened Machine
  import opened Playlist
  import opened Orchestrator
  import Abr
  import Q = ConcurrentQueue
  import StreamEnd

  /**
    What the worker does not decide, by the number of the step at which it is asked: what the
    network answers, whether a consumer takes a bundle, and when the owner asks to stop (so many
    steps after the start as the horizon says, at the latest).
   */
  datatype AnyEnvironment = Environment(
    playlists: nat -> Option<Playlist>, segments: nat -> Option<real>,
    takes: nat -> bool, stops: nat -> bool, horizon: nat)

  /** Indices are 64-bit numbers. */
  ghost predicate DeliversU64(env: AnyEnvironment) {
    forall k: nat :: env.playlists(k).Some? ==> FitsU64(env.playlists(k).value)
  }

  type Environment = env: AnyEnvironment | DeliversU64(env)
    ghost witness Environment(_ => None, _ => None, _ => false, _ => false, 0)

  /**
    Why a move was made: what the environment said when asked at a step, or that the time of the
    worker launched by an earlier move had run out, or the owner's own decision.
   */
  datatype Cause = Asked(time: nat) | OutOfTime(time: nat, launch: nat) | ByOwner

  /** Every answer is the environment's, and nobody consumes or stops without cause. */
  ghost predicate Explained(env: Environment, moves: seq<Move>, causes: seq<Cause>, k: nat)
    requires k < |moves| == |causes|
  {
    match moves[k]
    case StartWorker => causes[k].Asked?
    case GotMaster(answer) => causes[k].Asked? && answer == env.playlists(causes[k].time)
    case GotPlaylist(answer) => causes[k].Asked? && answer == env.playlists(causes[k].time)
    case GotSegment(answer) => causes[k].Asked? && answer == env.segments(causes[k].time)
    case Consume => causes[k].Asked? && env.takes(causes[k].time)
    case RequestStop =>
      (match causes[k]
       case Asked(time) => env.stops(time)
       case OutOfTime(time, launch) => launch < k && DeadlineOf(env, moves, causes, launch) == Some(time)
       case ByOwner => true)
    case _ => true
  }

  /** Until when the worker launched by the move has. */
  ghost function DeadlineOf(env: Environment, moves: seq<Move>, causes: seq<Cause>, launch: nat): Option<nat>
    requires |moves| == |causes|
  {
    if launch < |moves| && moves[launch].StartWorker? && causes[launch].Asked? then
      Some(causes[launch].time + env.horizon)
    else None
  }

  /** What has happened to a worker: a run of the step system in which every move has its cause. */
  datatype AnyRun = Run(config: Config, env: Environment, states: seq<State>, moves: seq<Move>, causes: seq<Cause>)

  ghost predicate Sound(r: AnyRun) {
    && IsRun(r.config, r.states, r.moves) && |r.causes| == |r.moves|
    && forall k | 0 <= k < |r.moves| :: Explained(r.env, r.moves, r.causes, k)
  }

  type Run = r: AnyRun | Sound(r)
    ghost witness Run(Config((base, uri) => uri, 0.5, ""),
                      Environment(_ => None, _ => None, _ => false, _ => false, 0), [INITIAL], [], [])

  ghost function Last(r: Run): State {
    r.states[|r.moves|]
  }

  /** The later run goes on from the earlier one. */
  ghost predicate Continues(r: Run, r': Run) {
    r.moves <= r'.moves && r.states <= r'.states
  }

  /** One more move. */
  ghost function Extended(r: Run, move: Move, cause: Cause, s: State): (r': Run)
    requires Next(r.config, Last(r), move, s)
    requires Explained(r.env, r.moves + [move], r.causes + [cause], |r.moves|)
    ensures r'.config == r.config && r'.env == r.env && Last(r') == s
    ensures r'.moves == r.moves + [move] && r'.states == r.states + [s] && r'.causes == r.causes + [cause]
  {
    var longer, moves, causes := r.states + [s], r.moves + [move], r.causes + [cause];
    assert forall k | 0 <= k < |moves| :: StepAt(r.config, longer, moves, k) by {
      forall k | 0 <= k < |moves| ensures StepAt(r.config, longer, moves, k) {
        assert k < |r.moves| ==> StepAt(r.config, r.states, r.moves, k);
      }
    }
    assert forall k | 0 <= k < |moves| :: Explained(r.env, moves, causes, k) by {
      forall k | 0 <= k < |moves| ensures Explained(r.env, moves, causes, k) {
        assert k < |r.moves| ==> Explained(r.env, r.moves, r.causes, k);
      }
    }
    Run(r.config, r.env, longer, moves, causes)
  }

  /** From move number from on, the queue was drained and after that the variant changed. */
  ghost predicate DrainedThenSwitched(moves: seq<Move>, from: nat) {
    exists i, j | from <= i < j < |moves| :: moves[i].DrainQueue? && moves[j].SetVariant?
  }

  /** From move number from on, a segment was received and after that a bundle was queued. */
  ghost predicate GotThenPushed(moves: seq<Move>, from: nat) {
    exists i, j | from <= i < j < |moves| :: moves[i].GotSegment? && moves[j].PushBundle?
  }

  /** What became of a segment: the loop goes on, gives up, or leaves because the variant changed. */
  datatype Outcome = GoOn | GiveUp | Switched

  class DownloadWorker {
    const config: Config
    const env: Environment
    const queue: Q.ConcurrentQueue<Bundle>
    const abrManager: Abr.AbrManager
    var variants: seq<Variant>
    var currentVariantUri: string
    var nextSequenceIndex: nat
    var currentThroughput: real
    var stopRequested: bool
    var switches: nat
    var clock: nat
    var deadline: nat
    // Where the worker is, and what it has pushed.
    var phase: Phase
    var pushed: seq<Bundle>
    // The run so far.
    ghost var gone: seq<Q.Gone<Bundle>>
    ghost var run: Run
    ghost var launch: nat

    ghost function Now(): State
      reads this, queue, abrManager
    {
      State(phase, stopRequested, abrManager.Value(), variants, currentVariantUri, nextSequenceIndex,
            currentThroughput, switches, queue.queue, pushed, gone)
    }

    /** The run so far ends in the present state. */
    ghost predicate Valid()
      reads this, queue, abrManager
    {
      && run.config == config && run.env == env && abrManager.alpha == config.alpha && Last(run) == Now()
      && (stopRequested || clock <= deadline)
      && (!phase.NotStarted? ==> DeadlineOf(env, run.moves, run.causes, launch) == Some(deadline))
    }

    /** There is a worker, under way or at its end. */
    predicate Joinable()
      reads this
    {
      !phase.NotStarted?
    }

    /** No worker is under way: none was started, or it has come to its end. */
    predicate Idle()
      reads this
    {
      phase.NotStarted? || phase.Done? || phase.EndOfStream?
    }

    constructor (config: Config, env: Environment)
      ensures Valid() && Now() == INITIAL && this.config == config && this.env == env
      ensures fresh(queue) && fresh(abrManager)
    {
      this.config := config;
      this.env := env;
      queue := new Q.ConcurrentQueue<Bundle>();
      abrManager := new Abr.AbrManager(config.alpha);
      variants, currentVariantUri, nextSequenceIndex, currentThroughput := [], "", 0, 0.0;
      stopRequested, switches, clock, deadline := false, 0, 0, 0;
      phase, pushed, gone := NotStarted, [], [];
      run := Run(config, env, [INITIAL], [], []);
    }

    /** A step has been taken. */
    ghost method Record(before: State, move: Move, cause: Cause)
      requires run.config == config && run.env == env && abrManager.alpha == config.alpha
      requires Last(run) == before && Next(config, before, move, Now()) && (stopRequested || clock <= deadline)
      requires Explained(env, run.moves + [move], run.causes + [cause], |run.moves|)
      requires
        !phase.NotStarted? ==> DeadlineOf(env, run.moves + [move], run.causes + [cause], launch) == Some(deadline)
      modifies this`run
      ensures Valid() && Now() == old(Now())
      ensures run.moves == old(run.moves) + [move] && run.states == old(run.states) + [Now()]
    {
      run := Extended(run, move, cause, Now());
    }

    /** A consumer may take a bundle. */
    method MaybeConsume()
      requires Valid()
      modifies this`gone, this`run, queue
      ensures Valid() && |queue.queue| <= |old(queue.queue)|
      ensures run.moves == old(run.moves) + (if env.takes(clock) && old(queue.queue) != [] then [Consume] else [])
      ensures Continues(old(run), run)
    {
      ghost var before := Now();
      if env.takes(clock) {
        var taken := queue.TryPop();
        if taken.Some? {
          gone := gone + [Q.Gone(taken.value, Q.Taken)];
          Record(before, Consume, Asked(clock));
        }
      }
    }

    /** The owner may ask the worker to stop, and does when its time has run out. */
    method MaybeStop()
      requires Valid() && !phase.NotStarted?
      modifies this`stopRequested, this`run
      ensures Valid() && (clock == deadline ==> stopRequested)
      ensures stopRequested <==> old(stopRequested) || env.stops(clock) || clock == deadline
      ensures Continues(old(run), run)
    {
      if env.stops(clock) {
        RequestStopNow(Asked(clock));
      } else if clock == deadline {
        RequestStopNow(OutOfTime(clock, launch));
      }
    }

    /** What happens between two steps of the worker. */
    method Others()
      requires Valid() && !phase.NotStarted?
      modifies this`stopRequested, this`clock, this`gone, this`run, queue
      ensures Valid() && clock == old(clock) + 1
      ensures stopRequested <==> old(stopRequested) || env.stops(old(clock)) || old(clock) == deadline
      ensures |queue.queue| <= |old(queue.queue)|
      ensures Continues(old(run), run)
    {
      MaybeConsume();
      MaybeStop();
      clock := clock + 1;
    }

    // ---------- Choosing a variant ----------

    /** Asks for a variant, and says where it is. */
    method ChooseVariant() returns (nextUri: string)
      requires Valid() && phase.Decide? && variants != []
      modifies this`phase, this`run, abrManager
      ensures Valid()
      ensures phase == if nextUri != currentVariantUri then Drain(old(phase).work, nextUri)
                       else AtSegment(old(phase).work)
      ensures run.moves == old(run.moves) + [DecideVariant] && Continues(old(run), run)
    {
      ghost var before := Now();
      var chosen := abrManager.SelectVariant(variants, currentThroughput);
      nextUri := config.resolve(config.masterUrl, chosen.value.uri);
      phase := if nextUri != currentVariantUri then Drain(phase.work, nextUri) else AtSegment(phase.work);
      Record(before, DecideVariant, Asked(clock));
    }

    method ClearQueue()
      requires Valid() && phase.Drain?
      modifies this`phase, this`gone, this`run, queue
      ensures Valid() && phase == Switch(old(phase).work, old(phase).nextUri) && queue.queue == []
      ensures run.moves == old(run.moves) + [DrainQueue] && Continues(old(run), run)
    {
      ghost var before := Now();
      gone := gone + Q.AllCleared(queue.queue);
      queue.Clear();
      phase := Switch(phase.work, phase.nextUri);
      Record(before, DrainQueue, Asked(clock));
    }

    method SetVariantUri(nextUri: string)
      requires Valid() && phase.Switch? && phase.nextUri == nextUri
      modifies this`phase, this`currentVariantUri, this`switches, this`run
      ensures Valid() && phase == AfterList(old(phase).work) && currentVariantUri == nextUri
      ensures run.moves == old(run.moves) + [SetVariant] && Continues(old(run), run)
    {
      ghost var before := Now();
      currentVariantUri := nextUri;
      switches := switches + 1;
      phase := AfterList(phase.work);
      Record(before, SetVariant, Asked(clock));
    }

    method DrainFirst()
      requires Valid() && phase.Drain?
      modifies this`phase, this`stopRequested, this`clock, this`gone, this`run, queue
      ensures Valid() && clock > old(clock) && (old(stopRequested) ==> stopRequested)
      ensures phase == Switch(old(phase).work, old(phase).nextUri) && queue.queue == []
      ensures old(run.moves) + [DrainQueue] <= run.moves && Continues(old(run), run)
    {
      ClearQueue();
      Others();
    }

    /** Drains the queue, and only then changes the variant. */
    method SwitchTo(nextUri: string)
      requires Valid() && phase.Drain? && phase.nextUri == nextUri
      modifies this`phase, this`currentVariantUri, this`switches
      modifies this`stopRequested, this`clock, this`gone, this`run, queue
      ensures Valid() && clock > old(clock) && (old(stopRequested) ==> stopRequested)
      ensures phase == AfterList(old(phase).work)
      ensures Continues(old(run), run)
      ensures currentVariantUri == nextUri && queue.queue == []
      ensures DrainedThenSwitched(run.moves, |old(run.moves)|)
    {
      ghost var drained := |run.moves|;
      DrainFirst();
      ghost var switched := |run.moves|;
      SetVariantUri(nextUri);
      Others();
      assert run.moves[drained].DrainQueue? && run.moves[switched].SetVariant?;
    }

    /** Lets the others act between the choice and what follows from it. */
    method DecideNext() returns (nextUri: string)
      requires Valid() && phase.Decide? && variants != []
      modifies this`phase, abrManager
      modifies this`stopRequested, this`clock, this`gone, this`run, queue
      ensures Valid() && clock > old(clock) && (old(stopRequested) ==> stopRequested)
      ensures phase == if nextUri != currentVariantUri then Drain(old(phase).work, nextUri)
                       else AtSegment(old(phase).work)
      ensures Continues(old(run), run)
    {
      nextUri := ChooseVariant();
      Others();
    }

    method EvaluateAbrSwitch() returns (switched: bool)
      requires Valid() && phase.Decide? && variants != []
      modifies this`phase, this`currentVariantUri, this`switches, abrManager
      modifies this`stopRequested, this`clock, this`gone, this`run, queue
      ensures Valid() && clock > old(clock) && (old(stopRequested) ==> stopRequested)
      ensures phase == if switched then AfterList(old(phase).work) else AtSegment(old(phase).work)
      ensures Continues(old(run), run)
      ensures switched ==> queue.queue == [] && DrainedThenSwitched(run.moves, |old(run.moves)|)
      ensures switched <==> currentVariantUri != old(currentVariantUri)
    {
      var nextUri := DecideNext();
      switched := nextUri != currentVariantUri;
      if switched {
        SwitchTo(nextUri);
      }
    }

    // ---------- Fetching segments ----------

    /** Downloads segment i of the list, which is wanted. */
    method DownloadSegment(list: Playlist, i: nat) returns (bundle: Option<Bundle>)
      requires Valid() && phase.AwaitSegment? && i == phase.work.i < |list.segments| && list == phase.work.list
      modifies this`phase, this`nextSequenceIndex, this`currentThroughput, this`run
      ensures Valid()
      ensures phase == if bundle.Some? then Enqueue(old(phase).work.(i := i + 1), bundle.value) else Done(NoSegment)
      ensures run.moves == old(run.moves) + [GotSegment(env.segments(clock))] && Continues(old(run), run)
      ensures bundle.Some? <==> env.segments(clock).Some?
      ensures bundle.Some? ==> currentThroughput == bundle.value.throughput == env.segments(clock).value
      ensures bundle.Some? ==> nextSequenceIndex == (list.segments[i].sequenceIndex + 1) % U64
    {
      var throughput := env.segments(clock);
      if throughput.None? {
        RefuseSegment();
        return None;
      }
      var taken := TakeSegment(list, i, throughput.value);
      bundle := Some(taken);
    }

    method RefuseSegment()
      requires Valid() && phase.AwaitSegment? && phase.work.i < |phase.work.list.segments|
      requires env.segments(clock) == None
      modifies this`phase, this`run
      ensures Valid() && phase == Done(NoSegment)
      ensures run.moves == old(run.moves) + [GotSegment(None)] && Continues(old(run), run)
    {
      ghost var before := Now();
      phase := Done(NoSegment);
      Record(before, GotSegment(None), Asked(clock));
    }

    method TakeSegment(list: Playlist, i: nat, throughput: real) returns (bundle: Bundle)
      requires Valid() && phase.AwaitSegment? && i == phase.work.i < |list.segments| && list == phase.work.list
      requires env.segments(clock) == Some(throughput)
      modifies this`phase, this`nextSequenceIndex, this`currentThroughput, this`run
      ensures Valid() && phase == Enqueue(old(phase).work.(i := i + 1), bundle)
      ensures run.moves == old(run.moves) + [GotSegment(Some(throughput))] && Continues(old(run), run)
      ensures currentThroughput == bundle.throughput == throughput
      ensures nextSequenceIndex == (list.segments[i].sequenceIndex + 1) % U64
    {
      ghost var before := Now();
      var segment := list.segments[i];
      var absoluteUri := config.resolve(currentVariantUri, segment.uri);
      bundle := Bundle(currentVariantUri, absoluteUri, segment.sequenceIndex, throughput, switches);
      currentThroughput := throughput;
      nextSequenceIndex := (segment.sequenceIndex + 1) % U64;
      phase := Enqueue(phase.work.(i := i + 1), bundle);
      Record(before, GotSegment(Some(throughput)), Asked(clock));
    }

    method PushSegment(bundle: Bundle)
      requires Valid() && phase.Enqueue? && phase.bundle == bundle
      modifies this`phase, this`pushed, this`run, queue
      ensures Valid() && phase == Decide(old(phase).work)
      ensures run.moves == old(run.moves) + [PushBundle] && Continues(old(run), run)
      ensures |pushed| == |old(pushed)| + 1
    {
      ghost var before := Now();
      queue.Push(bundle);
      pushed := pushed + [bundle];
      phase := Decide(phase.work);
      Record(before, PushBundle, Asked(clock));
    }

    /** Queues a bundle while the others act. */
    method QueueSegment(bundle: Bundle)
      requires Valid() && phase.Enqueue? && phase.bundle == bundle
      modifies this`phase, this`pushed
      modifies this`stopRequested, this`clock, this`gone, this`run, queue
      ensures Valid() && clock > old(clock) && (old(stopRequested) ==> stopRequested)
      ensures phase == Decide(old(phase).work)
      ensures Continues(old(run), run)
      ensures |pushed| == |old(pushed)| + 1
      ensures exists j | |old(run.moves)| <= j < |run.moves| :: run.moves[j].PushBundle?
    {
      Others();
      ghost var queued := |run.moves|;
      PushSegment(bundle);
      assert run.moves[queued].PushBundle?;
      Others();
    }

    /** Fetches a segment and queues it; false if it cannot be had. */
    method FetchSegment(list: Playlist, i: nat) returns (fetched: bool)
      requires Valid() && phase.AwaitSegment? && i == phase.work.i < |list.segments| && list == phase.work.list
      modifies this`phase, this`nextSequenceIndex, this`currentThroughput, this`pushed
      modifies this`stopRequested, this`clock, this`gone, this`run, queue
      ensures Valid() && clock >= old(clock) && (old(stopRequested) ==> stopRequested)
      ensures phase == if fetched then Decide(old(phase).work.(i := i + 1)) else Done(NoSegment)
      ensures Continues(old(run), run)
      ensures fetched ==> nextSequenceIndex == (list.segments[i].sequenceIndex + 1) % U64
      ensures fetched ==> |pushed| == |old(pushed)| + 1 && GotThenPushed(run.moves, |old(run.moves)|)
      ensures fetched <==> env.segments(old(clock)).Some?
      ensures old(run.moves) + [GotSegment(env.segments(old(clock)))] <= run.moves
    {
      ghost var got := |run.moves|;
      var bundle := DownloadSegment(list, i);
      fetched := bundle.Some?;
      if fetched {
        QueueSegment(bundle.value);
        assert run.moves[got].GotSegment?;
      }
    }

    /** Looks at segment i: stop, pass over it, or ask for it. */
    method VisitSegmentAt(list: Playlist, i: nat)
      requires Valid() && phase.AtSegment? && i == phase.work.i < |list.segments| && list == phase.work.list
      modifies this`phase, this`run
      ensures Valid()
      ensures phase == if stopRequested then Done(Stopped)
                       else if list.segments[i].sequenceIndex < nextSequenceIndex then
                         AtSegment(old(phase).work.(i := i + 1))
                       else AwaitSegment(old(phase).work)
      ensures run.moves == old(run.moves) + [VisitSegment] && Continues(old(run), run)
    {
      ghost var before := Now();
      phase := if stopRequested then Done(Stopped)
               else if list.segments[i].sequenceIndex < nextSequenceIndex then AtSegment(phase.work.(i := i + 1))
               else AwaitSegment(phase.work);
      Record(before, VisitSegment, Asked(clock));
    }

    method EndList()
      requires Valid() && (phase.AtSegment? ==> phase.work.i == |phase.work.list.segments|)
      requires phase.AtSegment? || phase.AfterList?
      modifies this`phase, this`run
      ensures Valid()
      ensures phase == if old(phase).AtSegment? then AfterList(old(phase).work)
                       else if old(phase).work.list.hasEndlist then EndOfStream(old(phase).work) else LoopHead
      ensures run.moves == old(run.moves) + [FinishList] && Continues(old(run), run)
    {
      ghost var before := Now();
      phase := if phase.AtSegment? then AfterList(phase.work)
               else if phase.work.list.hasEndlist then EndOfStream(phase.work) else LoopHead;
      Record(before, FinishList, Asked(clock));
    }

    /** One round of the loop over segments. */
    method HandleSegment(list: Playlist, i: nat) returns (outcome: Outcome)
      requires Valid() && phase.AtSegment? && i == phase.work.i < |list.segments| && list == phase.work.list
      requires variants != []
      modifies this`phase, this`nextSequenceIndex, this`currentThroughput, this`pushed
      modifies this`currentVariantUri, this`switches, abrManager
      modifies this`stopRequested, this`clock, this`gone, this`run, queue
      ensures Valid() && clock >= old(clock) && (old(stopRequested) ==> stopRequested)
      ensures match outcome
              case GoOn => phase == AtSegment(old(phase).work.(i := i + 1))
              case GiveUp => phase == Done(Stopped) || phase == Done(NoSegment)
              case Switched => phase == AfterList(old(phase).work.(i := i + 1))
      ensures Continues(old(run), run)
    {
      VisitSegmentAt(list, i);
      if stopRequested {
        return GiveUp;
      }
      var unwanted := list.segments[i].sequenceIndex < nextSequenceIndex;
      Others();
      if unwanted {
        return GoOn;
      }
      outcome := FetchAndDecide(list, i);
    }

    method FetchAndDecide(list: Playlist, i: nat) returns (outcome: Outcome)
      requires Valid() && phase.AwaitSegment? && i == phase.work.i < |list.segments| && list == phase.work.list
      requires variants != []
      modifies this`phase, this`nextSequenceIndex, this`currentThroughput, this`pushed
      modifies this`currentVariantUri, this`switches, abrManager
      modifies this`stopRequested, this`clock, this`gone, this`run, queue
      ensures Valid() && clock >= old(clock) && (old(stopRequested) ==> stopRequested)
      ensures phase == match outcome
                       case GoOn => AtSegment(old(phase).work.(i := i + 1))
                       case GiveUp => Done(NoSegment)
                       case Switched => AfterList(old(phase).work.(i := i + 1))
      ensures Continues(old(run), run)
    {
      var fetched := FetchSegment(list, i);
      if !fetched {
        return GiveUp;
      }
      var switched := EvaluateAbrSwitch();
      outcome := if switched then Switched else GoOn;
    }

    method EndSegments()
      requires Valid() && phase.AtSegment? && phase.work.i == |phase.work.list.segments|
      modifies this`phase, this`stopRequested, this`clock, this`gone, this`run, queue
      ensures Valid() && clock > old(clock) && (old(stopRequested) ==> stopRequested)
      ensures phase == AfterList(old(phase).work)
      ensures Continues(old(run), run)
    {
      EndList();
      Others();
    }

    /** Visits the segments of a list; true if the loop over lists may go on. */
    method DownloadSegments(list: Playlist) returns (goOn: bool)
      requires Valid() && phase.AtSegment? && phase.work.i == 0 && phase.work.list == list && variants != []
      modifies this`phase, this`nextSequenceIndex, this`currentThroughput, this`pushed
      modifies this`currentVariantUri, this`switches, abrManager
      modifies this`stopRequested, this`clock, this`gone, this`run, queue
      ensures Valid() && clock >= old(clock) && (old(stopRequested) ==> stopRequested)
      ensures if goOn then phase.AfterList? && phase.work.list == list
              else phase == Done(Stopped) || phase == Done(NoSegment)
      ensures Continues(old(run), run)
    {
      var i := 0;
      while i < |list.segments|
        invariant i <= |list.segments|
        invariant Valid() && phase.AtSegment? && phase.work.i == i && phase.work.list == list
        invariant clock >= old(clock) && (old(stopRequested) ==> stopRequested)
        invariant Continues(old(run), run)
      {
        var outcome := HandleSegment(list, i);
        if !outcome.GoOn? {
          return outcome.Switched?;
        }
        i := i + 1;
      }
      EndSegments();
      goOn := true;
    }

    // ---------- Lists ----------

    method CheckForStop()
      requires Valid() && phase.LoopHead?
      modifies this`phase, this`run
      ensures Valid() && phase == if stopRequested then Done(Stopped) else AwaitPlaylist
      ensures run.moves == old(run.moves) + [CheckStop] && Continues(old(run), run)
    {
      ghost var before := Now();
      phase := if stopRequested then Done(Stopped) else AwaitPlaylist;
      Record(before, CheckStop, Asked(clock));
    }

    method DownloadPlaylist() returns (playlist: Option<Playlist>)
      requires Valid() && phase.AwaitPlaylist?
      modifies this`phase, this`run
      ensures Valid()
      ensures phase == if playlist.None? then Done(NoPlaylist)
                       else AtSegment(Work(playlist.value, 0, |pushed|, nextSequenceIndex, currentVariantUri,
                                           abrManager.Value()))
      ensures run.moves == old(run.moves) + [GotPlaylist(playlist)] && Continues(old(run), run)
      ensures playlist == env.playlists(clock)
    {
      ghost var before := Now();
      playlist := env.playlists(clock);
      phase := if playlist.None? then Done(NoPlaylist)
               else AtSegment(Work(playlist.value, 0, |pushed|, nextSequenceIndex, currentVariantUri,
                                   abrManager.Value()));
      Record(before, GotPlaylist(playlist), Asked(clock));
    }

    /** Works through a list just received; true if another is to be fetched. */
    method WorkThrough(list: Playlist) returns (goOn: bool)
      requires Valid() && phase.AtSegment? && phase.work.i == 0 && phase.work.list == list && variants != []
      modifies this`phase, this`nextSequenceIndex, this`currentThroughput, this`pushed
      modifies this`currentVariantUri, this`switches, abrManager
      modifies this`stopRequested, this`clock, this`gone, this`run, queue
      ensures Valid() && clock >= old(clock) && (old(stopRequested) ==> stopRequested)
      ensures if goOn then phase.LoopHead? else phase.Done? || phase.EndOfStream?
      ensures Continues(old(run), run)
    {
      goOn := DownloadSegments(list);
      if goOn {
        EndList();
        goOn := !list.hasEndlist;
      }
    }

    /** Nobody has asked to stop: on to the next list. */
    method GoAhead()
      requires Valid() && phase.LoopHead? && !stopRequested
      modifies this`phase, this`stopRequested, this`clock, this`gone, this`run, queue
      ensures Valid() && clock == old(clock) + 1 && phase.AwaitPlaylist?
      ensures Continues(old(run), run)
    {
      CheckForStop();
      Others();
    }

    /** Asks for the list of the current variant. */
    method FetchList() returns (playlist: Option<Playlist>)
      requires Valid() && phase.LoopHead? && !stopRequested
      modifies this`phase, this`stopRequested, this`clock, this`gone, this`run, queue
      ensures Valid() && clock > old(clock)
      ensures if playlist.None? then phase == Done(NoPlaylist)
              else phase.AtSegment? && phase.work.i == 0 && phase.work.list == playlist.value
      ensures Continues(old(run), run)
      ensures playlist == env.playlists(old(clock) + 1)
    {
      GoAhead();
      playlist := DownloadPlaylist();
    }

    /** One round of the loop over lists. */
    method HandleList() returns (goOn: bool)
      requires Valid() && phase.LoopHead? && !stopRequested && variants != []
      modifies this`phase, this`nextSequenceIndex, this`currentThroughput, this`pushed
      modifies this`currentVariantUri, this`switches, abrManager
      modifies this`stopRequested, this`clock, this`gone, this`run, queue
      ensures Valid() && clock > old(clock)
      ensures if goOn then phase.LoopHead? else phase.Done? || phase.EndOfStream?
      ensures Continues(old(run), run)
    {
      var playlist := FetchList();
      goOn := playlist.Some?;
      if goOn {
        Others();
        goOn := WorkThrough(playlist.value);
      }
    }

    /** Fetches the list of the current variant again and again, until stopped, refused or at its end. */
    method ProcessVariantLoop()
      requires Valid() && phase.LoopHead? && variants != []
      modifies this`phase, this`nextSequenceIndex, this`currentThroughput, this`pushed
      modifies this`currentVariantUri, this`switches, abrManager
      modifies this`stopRequested, this`clock, this`gone, this`run, queue
      ensures Valid() && (phase.Done? || phase.EndOfStream?)
      ensures Continues(old(run), run)
    {
      while !stopRequested
        invariant Valid() && phase.LoopHead?
        invariant Continues(old(run), run)
        decreases deadline - clock
      {
        var goOn := HandleList();
        if !goOn {
          return;
        }
        Others();
      }
      CheckForStop();
    }

    /** The master list is there: the first variant is chosen without a sample. */
    method TakeMaster(master: Playlist)
      requires Valid() && phase.AwaitMaster? && env.playlists(clock) == Some(master)
      requires master.playlistType.Master? && master.variants != []
      modifies this`phase, this`variants, this`currentVariantUri, this`run, abrManager
      ensures Valid() && phase == LoopHead && variants == master.variants
      ensures
        && abrManager.currentVariantIndex < |variants|
        && abrManager.Value() == Abr.Select(config.alpha, old(abrManager.Value()), variants, 0.0)
        && currentVariantUri == config.resolve(config.masterUrl, variants[abrManager.currentVariantIndex].uri)
      ensures run.moves == old(run.moves) + [GotMaster(Some(master))] && Continues(old(run), run)
    {
      ghost var before := Now();
      variants := master.variants;
      var chosen := abrManager.SelectVariant(variants, 0.0);
      currentVariantUri := config.resolve(config.masterUrl, chosen.value.uri);
      phase := LoopHead;
      Record(before, GotMaster(Some(master)), Asked(clock));
    }

    method FetchMasterPlaylist() returns (found: bool)
      requires Valid() && phase.AwaitMaster?
      modifies this`phase, this`variants, this`currentVariantUri, this`run, abrManager
      ensures Valid() && phase == (if found then LoopHead else Done(NoMaster))
      ensures
        var master := env.playlists(clock);
        && (found <==> master.Some? && master.value.playlistType.Master? && master.value.variants != [])
        && (found ==> variants == master.value.variants)
      ensures found ==>
                && abrManager.currentVariantIndex < |variants|
                && abrManager.Value() == Abr.Select(config.alpha, old(abrManager.Value()), variants, 0.0)
                && currentVariantUri ==
                     config.resolve(config.masterUrl, variants[abrManager.currentVariantIndex].uri)
      ensures run.moves == old(run.moves) + [GotMaster(env.playlists(clock))] && Continues(old(run), run)
    {
      ghost var before := Now();
      var master := env.playlists(clock);
      found := master.Some? && master.value.playlistType.Master? && master.value.variants != [];
      if found {
        TakeMaster(master.value);
      } else {
        phase := Done(NoMaster);
        Record(before, GotMaster(master), Asked(clock));
      }
    }

    method ResetContext()
      modifies this`variants, this`currentVariantUri, this`nextSequenceIndex, this`currentThroughput
      modifies this`switches, this`pushed, this`gone
      ensures variants == [] && currentVariantUri == "" && nextSequenceIndex == 0 && currentThroughput == 0.0
      ensures switches == 0 && pushed == [] && gone == []
    {
      variants, currentVariantUri, nextSequenceIndex, currentThroughput := [], "", 0, 0.0;
      switches, pushed, gone := 0, [], [];
    }

    /** A new worker: everything but the ABR state starts afresh. */
    method Launch()
      requires Valid() && phase.NotStarted? && queue.queue == []
      modifies this
      ensures Valid() && Now() == INITIAL.(phase := AwaitMaster, abr := abrManager.Value())
      ensures run.moves == old(run.moves) + [StartWorker] && Continues(old(run), run)
    {
      ghost var before := Now();
      ResetContext();
      stopRequested, deadline := false, clock + env.horizon;
      launch := |run.moves|;
      phase := AwaitMaster;
      assert Now() == INITIAL.(phase := AwaitMaster, abr := before.abr);
      Record(before, StartWorker, Asked(clock));
    }

    /** The body of the worker thread. */
    method DownloadLoop()
      requires Valid() && phase.AwaitMaster?
      modifies this, queue, abrManager
      ensures Valid() && (phase.Done? || phase.EndOfStream?)
      ensures Continues(old(run), run)
    {
      var found := FetchMasterPlaylist();
      if !found {
        return;
      }
      Others();
      ProcessVariantLoop();
    }

    /**
      Stops the worker there is, wherever it is, and runs a new one for its whole life. Whatever the
      environment did, the queue then holds only bundles of the current variant, every bundle pushed
      was delivered, cleared or is queued, and indices increase unless the counter wrapped.
     */
    method Start()
      requires Valid()
      modifies this, queue, abrManager
      ensures Valid() && (phase.Done? || phase.EndOfStream?)
      ensures forall k | 0 <= k < |queue.queue| :: queue.queue[k].variantUri == currentVariantUri
      ensures Q.ItemsOf(gone) + queue.queue == pushed
      ensures StrictlyIncreasing(pushed) <==> forall j | 0 <= j < |pushed| - 1 :: pushed[j].index != U64 - 1
      ensures Continues(old(run), run)
    {
      Stop();
      Launch();
      Others();
      DownloadLoop();
      RunHomogeneous(config, run.states, run.moves, |run.moves|);
      BundlesAccountedFor(config, run.states, run.moves, |run.moves|);
      PushedIncreaseIffNoWrap(config, run.states, run.moves, |run.moves|);
      assert forall k | 0 <= k < |queue.queue| :: OfCurrentVariant(Now(), Now().queue[k]);
    }

    method RequestStopNow(ghost cause: Cause)
      requires Valid() && !phase.NotStarted?
      requires Explained(env, run.moves + [RequestStop], run.causes + [cause], |run.moves|)
      modifies this`stopRequested, this`run
      ensures Valid() && stopRequested
      ensures run.moves == old(run.moves) + [RequestStop] && Continues(old(run), run)
    {
      ghost var before := Now();
      stopRequested := true;
      Record(before, RequestStop, cause);
    }

    /** The worker has ended and is joined; what it left in the queue goes. */
    method Join()
      requires Valid() && stopRequested && (phase.Done? || phase.EndOfStream?)
      modifies this`phase, this`gone, this`run, queue
      ensures Valid() && phase.NotStarted? && queue.queue == []
      ensures run.moves == old(run.moves) + [JoinAndClear] && Continues(old(run), run)
    {
      ghost var before := Now();
      gone := gone + Q.AllCleared(queue.queue);
      queue.Clear();
      phase := NotStarted;
      Record(before, JoinAndClear, Asked(clock));
    }

    lemma WorkIsInRange()
      requires Valid() && (phase.AtSegment? || phase.AwaitSegment?)
      ensures phase.work.i <= |phase.work.list.segments|
      ensures phase.AwaitSegment? ==> phase.work.i < |phase.work.list.segments|
    {
      RunIndicesAdvance(config, run.states, run.moves, |run.moves|);
      assert WorkInRange(Now());
    }

    /** One move of a worker that has a segment to visit or to wait for, if any is left. */
    method MoveAtSegment()
      requires Valid() && stopRequested && (phase.AtSegment? || phase.AwaitSegment?)
      modifies this`phase, this`nextSequenceIndex, this`currentThroughput, this`run
      ensures Valid() && !phase.NotStarted? && StepsLeft(phase) < StepsLeft(old(phase))
      ensures Continues(old(run), run)
    {
      WorkIsInRange();
      if phase.AwaitSegment? {
        var bundle := DownloadSegment(phase.work.list, phase.work.i);
      } else if phase.work.i < |phase.work.list.segments| {
        VisitSegmentAt(phase.work.list, phase.work.i);
      } else {
        EndList();
      }
    }

    /** One move of a worker that is between two segments of a list. */
    method MoveInList()
      requires Valid() && stopRequested && variants != []
      requires phase.AtSegment? || phase.AwaitSegment? || phase.Enqueue? || phase.Decide?
      modifies this`phase, this`nextSequenceIndex, this`currentThroughput, this`pushed, this`run
      modifies abrManager, queue
      ensures Valid() && !phase.NotStarted? && StepsLeft(phase) < StepsLeft(old(phase))
      ensures Continues(old(run), run)
    {
      if phase.AtSegment? || phase.AwaitSegment? {
        MoveAtSegment();
      } else if phase.Enqueue? {
        PushSegment(phase.bundle);
      } else {
        var nextUri := ChooseVariant();
      }
    }

    /** One move of a worker anywhere else. */
    method MoveOutsideList()
      requires Valid() && stopRequested && !Idle()
      requires !phase.AtSegment? && !phase.AwaitSegment? && !phase.Enqueue? && !phase.Decide?
      modifies this`phase, this`variants, this`currentVariantUri, this`switches, this`gone
      modifies this`run, abrManager, queue
      ensures Valid() && !phase.NotStarted? && StepsLeft(phase) < StepsLeft(old(phase))
      ensures Continues(old(run), run)
    {
      if phase.AwaitMaster? {
        var found := FetchMasterPlaylist();
      } else if phase.LoopHead? {
        CheckForStop();
      } else if phase.AwaitPlaylist? {
        var playlist := DownloadPlaylist();
      } else if phase.Drain? {
        ClearQueue();
      } else if phase.Switch? {
        SetVariantUri(phase.nextUri);
      } else {
        EndList();
      }
    }

    /** One move of a worker that is to stop, wherever it is. */
    method MoveOn()
      requires Valid() && stopRequested && !Idle()
      modifies this, abrManager, queue
      ensures Valid() && stopRequested && !phase.NotStarted? && StepsLeft(phase) < StepsLeft(old(phase))
      ensures Continues(old(run), run)
    {
      if phase.AtSegment? || phase.AwaitSegment? || phase.Enqueue? || phase.Decide? {
        StreamEnd.RunPassChoice(config, run.states, run.moves, |run.moves|);
        assert StreamEnd.HasVariants(Now().phase);
        MoveInList();
      } else {
        MoveOutsideList();
      }
    }

    /** The owner stops the worker, if there is one, waits for it to come to its end and empties the queue. */
    method Stop()
      requires Valid()
      modifies this, abrManager, queue
      ensures Valid() && phase.NotStarted? && queue.queue == []
      ensures Continues(old(run), run)
    {
      if Joinable() {
        RequestStopNow(ByOwner);
        while !Idle()
          invariant Valid() && stopRequested && !phase.NotStarted?
          invariant Continues(old(run), run)
          decreases StepsLeft(phase)
        {
          MoveOn();
          Others();
        }
        Join();
      } else {
        RunHomogeneous(config, run.states, run.moves, |run.moves|);
        assert Now().queue == [];
        queue.Clear();
      }
    }
  }
}
