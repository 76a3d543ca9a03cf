/**
  The worker told from what it is answered: which calls of selectVariant it makes, which variant it
  is on, and for what reason it ends.
 */
module WorkerInputs {
  import opened Wrappers
  import opened Playlist
  import opened Orchestrator
  import opened StreamEnd
  import Abr

  // ---------- What the moves say ----------

  /** An answer the worker accepts as its master list. */
  predicate AcceptableMaster(master: Option<Playlist>) {
    master.Some? && master.value.playlistType == Master && master.value.variants != []
  }

  /** The variants of the last master list, since the worker was started. */
  function VariantsReceived(moves: seq<Move>, k: nat): seq<Variant>
    requires k <= |moves|
  {
    if k == 0 then []
    else
      match moves[k - 1]
      case StartWorker => []
      case GotMaster(master) =>
        if AcceptableMaster(master) then master.value.variants else VariantsReceived(moves, k - 1)
      case _ => VariantsReceived(moves, k - 1)
  }

  /** The throughput of the last segment delivered since the worker was started, or 0. */
  function LastAnswer(moves: seq<Move>, k: nat): real
    requires k <= |moves|
  {
    if k == 0 then 0.0
    else
      match moves[k - 1]
      case StartWorker => 0.0
      case GotSegment(answer) => if answer.Some? then answer.value else LastAnswer(moves, k - 1)
      case _ => LastAnswer(moves, k - 1)
  }

  /** The calls of selectVariant: one without a sample for each master list, one for each segment queued. */
  function Calls(moves: seq<Move>, k: nat): seq<Abr.Call>
    requires k <= |moves|
  {
    if k == 0 then []
    else
      Calls(moves, k - 1)
      + match moves[k - 1]
        case GotMaster(master) => if AcceptableMaster(master) then [Abr.Call(master.value.variants, 0.0)] else []
        case DecideVariant => [Abr.Call(VariantsReceived(moves, k - 1), LastAnswer(moves, k - 1))]
        case _ => []
  }

  // ---------- The worker's memory ----------

  /** What the worker remembers of the answers. */
  predicate Remembers(s: State, variants: seq<Variant>, sample: real) {
    && (s.phase.AwaitMaster? || HasVariants(s.phase) ==> s.variants == variants && s.throughput == sample)
    && (HasVariants(s.phase) ==> variants != [])
  }

  lemma NextRemembers(c: Config, s: State, move: Move, s': State, moves: seq<Move>, k: nat)
    requires k < |moves| && move == moves[k] && Next(c, s, move, s')
    requires Remembers(s, VariantsReceived(moves, k), LastAnswer(moves, k))
    ensures Remembers(s', VariantsReceived(moves, k + 1), LastAnswer(moves, k + 1))
  {
  }

  lemma {:induction false} RunRemembers(c: Config, ss: seq<State>, moves: seq<Move>, k: nat)
    requires IsRun(c, ss, moves) && k < |ss|
    ensures Remembers(ss[k], VariantsReceived(moves, k), LastAnswer(moves, k))
  {
    if k > 0 {
      RunRemembers(c, ss, moves, k - 1);
      assert StepAt(c, ss, moves, k - 1);
      NextRemembers(c, ss[k - 1], moves[k - 1], ss[k], moves, k - 1);
    }
  }

  // ---------- The calls of selectVariant ----------

  predicate AnswersNotNegative(moves: seq<Move>, k: nat)
    requires k <= |moves|
  {
    forall j | 0 <= j < k && moves[j].GotSegment? && moves[j].throughput.Some? :: moves[j].throughput.value >= 0.0
  }

  lemma {:induction false} LastAnswerNotNegative(moves: seq<Move>, k: nat)
    requires k <= |moves| && AnswersNotNegative(moves, k)
    ensures LastAnswer(moves, k) >= 0.0
  {
    if k > 0 {
      LastAnswerNotNegative(moves, k - 1);
    }
  }

  lemma ExtendHistory(alpha: real, states: seq<Abr.State>, calls: seq<Abr.Call>, call: Abr.Call)
    requires Abr.IsHistory(alpha, states, calls) && call.variants != [] && call.sample >= 0.0
    ensures
      var next := Abr.Select(alpha, states[|calls|], call.variants, call.sample);
      Abr.IsHistory(alpha, states + [next], calls + [call])
  {
  }

  /** One move makes the calls that the moves say, and no others. */
  lemma StepCalls(c: Config, s: State, move: Move, s': State, moves: seq<Move>, k: nat)
    requires k < |moves| && move == moves[k] && Next(c, s, move, s')
    requires Remembers(s, VariantsReceived(moves, k), LastAnswer(moves, k))
    ensures
      var calls := Calls(moves, k + 1)[|Calls(moves, k)|..];
      && Calls(moves, k + 1) == Calls(moves, k) + calls
      && if calls == [] then s'.abr == s.abr
         else
           && |calls| == 1 && calls[0].variants != []
           && (calls[0].sample == 0.0 || calls[0].sample == LastAnswer(moves, k))
           && s'.abr == Abr.Select(c.alpha, s.abr, calls[0].variants, calls[0].sample)
  {
  }

  /**
    The calls told from the moves are a history of the AbrManager that ends in the worker's own
    state: whatever is proved of such histories holds for the worker, over restarts too.
   */
  lemma {:induction false} WorkerCallsAreHistory(c: Config, ss: seq<State>, moves: seq<Move>, k: nat)
      returns (states: seq<Abr.State>)
    requires IsRun(c, ss, moves) && k < |ss| && AnswersNotNegative(moves, k)
    ensures Abr.IsHistory(c.alpha, states, Calls(moves, k)) && states[|Calls(moves, k)|] == ss[k].abr
  {
    if k == 0 {
      states := [Abr.INITIAL];
    } else {
      states := WorkerCallsAreHistory(c, ss, moves, k - 1);
      RunRemembers(c, ss, moves, k - 1);
      LastAnswerNotNegative(moves, k - 1);
      assert StepAt(c, ss, moves, k - 1);
      StepCalls(c, ss[k - 1], moves[k - 1], ss[k], moves, k - 1);
      var calls := Calls(moves, k)[|Calls(moves, k - 1)|..];
      if calls != [] {
        ExtendHistory(c.alpha, states, Calls(moves, k - 1), calls[0]);
        assert calls == [calls[0]];
        states := states + [ss[k].abr];
      }
    }
  }

  // ---------- Which variant is current ----------

  /** The URI the worker is on, or about to switch to. */
  function Heading(s: State): string {
    if s.phase.Drain? || s.phase.Switch? then s.phase.nextUri else s.currentUri
  }

  predicate OnSelected(c: Config, s: State) {
    HasVariants(s.phase) ==>
      s.abr.current < |s.variants| && Heading(s) == c.resolve(c.masterUrl, s.variants[s.abr.current].uri)
  }

  lemma NextKeepsSelected(c: Config, s: State, move: Move, s': State)
    requires OnSelected(c, s) && Next(c, s, move, s')
    ensures OnSelected(c, s')
  {
    if move.DecideVariant? {
      SelectInRange(c.alpha, s.abr, s.variants, s.throughput);
    }
  }

  /** The worker is on the variant of the master list that the AbrManager selected last. */
  lemma {:induction false} CurrentIsSelected(c: Config, ss: seq<State>, moves: seq<Move>, k: nat)
    requires IsRun(c, ss, moves) && k < |ss| && HasVariants(ss[k].phase)
    ensures
      var s, vs := ss[k], VariantsReceived(moves, k);
      s.abr.current < |vs| && Heading(s) == c.resolve(c.masterUrl, vs[s.abr.current].uri)
  {
    RunRemembers(c, ss, moves, k);
    RunOnSelected(c, ss, moves, k);
  }

  lemma {:induction false} RunOnSelected(c: Config, ss: seq<State>, moves: seq<Move>, k: nat)
    requires IsRun(c, ss, moves) && k < |ss|
    ensures OnSelected(c, ss[k])
  {
    if k > 0 {
      RunOnSelected(c, ss, moves, k - 1);
      assert StepAt(c, ss, moves, k - 1);
      NextKeepsSelected(c, ss[k - 1], moves[k - 1], ss[k]);
    }
  }

  // ---------- Why the worker ends ----------

  /** Move j explains why the worker came to its end. */
  predicate Explains(ss: seq<State>, moves: seq<Move>, j: nat, phase: Phase)
    requires j < |moves| && |ss| == |moves| + 1
  {
    match phase
    case Done(NoMaster) => moves[j].GotMaster? && !AcceptableMaster(moves[j].master)
    case Done(NoPlaylist) => moves[j] == GotPlaylist(None)
    case Done(NoSegment) => moves[j] == GotSegment(None)
    case Done(Stopped) => (moves[j].CheckStop? || moves[j].VisitSegment?) && ss[j].stopRequested
    case EndOfStream(work) => moves[j].FinishList? && work.list.hasEndlist
    case _ => false
  }

  predicate AtEnd(phase: Phase) {
    phase.Done? || phase.EndOfStream?
  }

  lemma StepToEnd(c: Config, s: State, move: Move, s': State)
    requires Next(c, s, move, s')
    ensures AtEnd(s'.phase) <==> (AtEnd(s.phase) && !move.JoinAndClear?) || EndsWorker(s, move)
    ensures AtEnd(s.phase) ==> !WorkerMove(move) && (s'.phase == s.phase || move.JoinAndClear?)
  {
  }

  /** The answer or the state of affairs that makes the worker give up or finish, told move by move. */
  predicate EndsWorker(s: State, move: Move) {
    match move
    case GotMaster(master) => !AcceptableMaster(master)
    case GotPlaylist(playlist) => playlist.None?
    case GotSegment(answer) => answer.None?
    case CheckStop => s.stopRequested
    case VisitSegment => s.stopRequested
    case FinishList => s.phase.AfterList? && s.phase.work.list.hasEndlist
    case _ => false
  }

  /** A worker is at its end exactly when it was brought there since it was last joined. */
  lemma {:induction false} EndsExactlyWhen(c: Config, ss: seq<State>, moves: seq<Move>, k: nat)
    requires IsRun(c, ss, moves) && k < |ss|
    ensures AtEnd(ss[k].phase) <==>
              exists j | 0 <= j < k :: EndsWorker(ss[j], moves[j]) && NotJoined(moves, j, k)
  {
    if k > 0 {
      EndsExactlyWhen(c, ss, moves, k - 1);
      assert StepAt(c, ss, moves, k - 1);
      StepToEnd(c, ss[k - 1], moves[k - 1], ss[k]);
      NotJoinedOneMore(moves, k - 1);
    }
  }

  /** Move j brought the worker to its end, explains it, and is the worker's last. */
  ghost predicate LastMove(ss: seq<State>, moves: seq<Move>, j: nat, k: nat)
    requires j < k < |ss| == |moves| + 1
  {
    Explains(ss, moves, j, ss[k].phase) && forall i | j < i < k :: !WorkerMove(moves[i])
  }

  /** The worker ends for the reason it says: a refusal, a stop it noticed, or a final list it finished. */
  lemma {:induction false} EndsForAReason(c: Config, ss: seq<State>, moves: seq<Move>, k: nat) returns (j: nat)
    requires IsRun(c, ss, moves) && k < |ss| && AtEnd(ss[k].phase)
    ensures j < k && LastMove(ss, moves, j, k)
  {
    assert StepAt(c, ss, moves, k - 1);
    StepToEnd(c, ss[k - 1], moves[k - 1], ss[k]);
    if EndsWorker(ss[k - 1], moves[k - 1]) {
      j := k - 1;
      EndIsExplained(c, ss, moves, k - 1);
    } else {
      j := EndsForAReason(c, ss, moves, k - 1);
    }
  }

  ghost predicate NotJoined(moves: seq<Move>, j: nat, k: nat)
    requires k <= |moves|
  {
    forall i | j < i < k :: !moves[i].JoinAndClear?
  }

  lemma NotJoinedOneMore(moves: seq<Move>, k: nat)
    requires k < |moves|
    ensures forall j: nat | j < k :: NotJoined(moves, j, k + 1) <==> NotJoined(moves, j, k) && !moves[k].JoinAndClear?
  {
  }

  lemma EndIsExplained(c: Config, ss: seq<State>, moves: seq<Move>, k: nat)
    requires k < |moves| && |ss| == |moves| + 1 && StepAt(c, ss, moves, k) && EndsWorker(ss[k], moves[k])
    ensures Explains(ss, moves, k, ss[k + 1].phase)
  {
  }

  /** A final list is the last one: no list is asked for after it by the same worker. */
  lemma {:induction false} FinalListIsLast(c: Config, ss: seq<State>, moves: seq<Move>, a: nat, k: nat)
    requires IsRun(c, ss, moves) && a < k < |ss| && moves[a].GotPlaylist? && moves[a].playlist.Some?
    requires moves[a].playlist.value.hasEndlist && OneWorker(moves, a, k)
    ensures SamePass(moves, a, k)
    ensures AtWork(ss[k].phase) || ss[k].phase == Done(Stopped) || ss[k].phase == Done(NoSegment)
    ensures AtWork(ss[k].phase) ==> ss[k].phase.work.list == moves[a].playlist.value
    decreases k
  {
    assert StepAt(c, ss, moves, k - 1);
    if a < k - 1 {
      FinalListIsLast(c, ss, moves, a, k - 1);
      FinalListStep(c, ss[k - 1], moves[k - 1], ss[k], moves[a].playlist.value);
      PassGoesOn(moves, a, k - 1);
    }
  }

  lemma FinalListStep(c: Config, s: State, move: Move, s': State, list: Playlist)
    requires Next(c, s, move, s') && list.hasEndlist && !move.StartWorker? && !move.JoinAndClear?
    requires AtWork(s.phase) || s.phase == Done(Stopped) || s.phase == Done(NoSegment)
    requires AtWork(s.phase) ==> s.phase.work.list == list
    ensures !move.GotPlaylist?
    ensures AtWork(s'.phase) || s'.phase == Done(Stopped) || s'.phase == Done(NoSegment)
    ensures AtWork(s'.phase) ==> s'.phase.work.list == list
  {
  }
}
