/**
  What is left of a list when the worker is done with it. A pass over a list may be cut short by a
  switch, and a switch drains the queue; the worker ends on the end-of-list tag all the same. When
  is the final list nevertheless pushed in full, and when does none of it get cleared? The answer
  is told from what goes in: the throughput the network would show for each segment.
 */
module StreamEnd {
  import opened Wrappers
  import opened Playlist
  import opened Orchestrator
  import Abr
  import Q = ConcurrentQueue

  // ---------- Passes within a run ----------

  /** No list has arrived after move j and before state k. */
  ghost predicate SamePass(moves: seq<Move>, j: nat, k: nat) {
    forall i | j < i < k && i < |moves| :: !moves[i].GotPlaylist?
  }

  /** The worker has switched variants since the list it is working on arrived. */
  ghost predicate SwitchedInPass(moves: seq<Move>, k: nat) {
    exists j | 0 <= j < k && j < |moves| :: moves[j].SetVariant? && SamePass(moves, j, k)
  }

  /** Every drain since the list arrived found the queue empty. */
  ghost predicate DrainsFoundNothing(ss: seq<State>, moves: seq<Move>, k: nat)
    requires |ss| == |moves| + 1
  {
    forall j | 0 <= j < k && j < |moves| :: moves[j].DrainQueue? && SamePass(moves, j, k) ==> ss[j].queue == []
  }

  lemma PassGoesOn(moves: seq<Move>, j: nat, k: nat)
    requires j < k < |moves| && !moves[k].GotPlaylist?
    ensures SamePass(moves, j, k + 1) <==> SamePass(moves, j, k)
  {
  }

  lemma ArrivalEndsPass(moves: seq<Move>, j: nat, k: nat)
    requires j < k < |moves| && moves[k].GotPlaylist?
    ensures !SamePass(moves, j, k + 1)
  {
  }

  lemma SwitchedOneMore(moves: seq<Move>, k: nat)
    requires k < |moves|
    ensures moves[k].GotPlaylist? ==> !SwitchedInPass(moves, k + 1)
    ensures moves[k].SetVariant? ==> SwitchedInPass(moves, k + 1)
    ensures !moves[k].GotPlaylist? && !moves[k].SetVariant? ==>
              (SwitchedInPass(moves, k + 1) <==> SwitchedInPass(moves, k))
  {
    if moves[k].SetVariant? {
      assert SamePass(moves, k, k + 1);
    } else if !moves[k].GotPlaylist? {
      forall j | 0 <= j < k ensures SamePass(moves, j, k + 1) <==> SamePass(moves, j, k) {
        PassGoesOn(moves, j, k);
      }
    } else {
      forall j | 0 <= j < k && moves[j].SetVariant? ensures !SamePass(moves, j, k + 1) {
        ArrivalEndsPass(moves, j, k);
      }
    }
  }

  lemma DrainsOneMore(ss: seq<State>, moves: seq<Move>, k: nat)
    requires |ss| == |moves| + 1 && k < |moves|
    ensures moves[k].GotPlaylist? ==> DrainsFoundNothing(ss, moves, k + 1)
    ensures !moves[k].GotPlaylist? ==>
              (DrainsFoundNothing(ss, moves, k + 1) <==>
                 DrainsFoundNothing(ss, moves, k) && (moves[k].DrainQueue? ==> ss[k].queue == []))
  {
    if moves[k].GotPlaylist? {
      forall j | 0 <= j < k && moves[j].DrainQueue? ensures !SamePass(moves, j, k + 1) {
        ArrivalEndsPass(moves, j, k);
      }
    } else {
      assert SamePass(moves, k, k + 1);
      forall j | 0 <= j < k ensures SamePass(moves, j, k + 1) <==> SamePass(moves, j, k) {
        PassGoesOn(moves, j, k);
      }
    }
  }

  // ---------- The choice, folded over samples ----------

  function Samples(bundles: seq<Bundle>): seq<real> {
    seq(|bundles|, k requires 0 <= k < |bundles| => bundles[k].throughput)
  }

  function AbrAfter(alpha: real, abr: Abr.State, vs: seq<Variant>, samples: seq<real>): Abr.State
    decreases |samples|
  {
    if samples == [] then abr
    else
      var n := |samples| - 1;
      Abr.Select(alpha, AbrAfter(alpha, abr, vs, samples[..n]), vs, samples[n])
  }

  /** The URI of the variant chosen after the last sample. */
  function Chosen(c: Config, abr: Abr.State, vs: seq<Variant>, samples: seq<real>): string
    requires vs != [] && samples != []
  {
    var n := |samples| - 1;
    SelectInRange(c.alpha, AbrAfter(c.alpha, abr, vs, samples[..n]), vs, samples[n]);
    SelectUri(c, AbrAfter(c.alpha, abr, vs, samples), vs)
  }

  /** No sample makes the choice leave uri. */
  predicate ChoiceStays(c: Config, abr: Abr.State, vs: seq<Variant>, uri: string, samples: seq<real>)
    requires vs != []
  {
    forall n | 0 < n <= |samples| :: Chosen(c, abr, vs, samples[..n]) == uri
  }

  lemma StaysOneMore(c: Config, abr: Abr.State, vs: seq<Variant>, uri: string, samples: seq<real>, t: real)
    requires vs != []
    ensures ChoiceStays(c, abr, vs, uri, samples + [t]) <==>
              ChoiceStays(c, abr, vs, uri, samples) && Chosen(c, abr, vs, samples + [t]) == uri
  {
    var more := samples + [t];
    assert more[..|more|] == more;
    forall n | 0 < n <= |samples| ensures more[..n] == samples[..n] {
    }
    if ChoiceStays(c, abr, vs, uri, more) {
      forall n | 0 < n <= |samples| ensures Chosen(c, abr, vs, samples[..n]) == uri {
        assert Chosen(c, abr, vs, more[..n]) == uri;
      }
      assert Chosen(c, abr, vs, more[..|more|]) == uri;
    }
  }

  lemma StaysOnPrefix(c: Config, abr: Abr.State, vs: seq<Variant>, uri: string, samples: seq<real>, n: nat)
    requires vs != [] && n <= |samples| && ChoiceStays(c, abr, vs, uri, samples)
    ensures ChoiceStays(c, abr, vs, uri, samples[..n])
  {
    forall m | 0 < m <= n ensures Chosen(c, abr, vs, samples[..n][..m]) == uri {
      assert samples[..n][..m] == samples[..m];
    }
  }

  // ---------- What a pass does to the choice ----------

  /** The samples of the current list. */
  function PassSamples(s: State): seq<real>
    requires AtWork(s.phase) && s.phase.work.since <= |s.pushed|
  {
    Samples(s.pushed[s.phase.work.since..])
  }

  predicate Staying(c: Config, s: State, w: Work, samples: seq<real>)
    requires s.variants != []
  {
    && s.currentUri == w.uri
    && s.abr == AbrAfter(c.alpha, w.abr, s.variants, samples)
    && ChoiceStays(c, w.abr, s.variants, w.uri, samples)
  }

  /** The last sample, and none before it, made the choice leave the variant, for uri. */
  predicate Leaving(c: Config, s: State, w: Work, samples: seq<real>, uri: string)
    requires s.variants != []
  {
    && samples != []
    && ChoiceStays(c, w.abr, s.variants, w.uri, samples[..|samples| - 1])
    && s.abr == AbrAfter(c.alpha, w.abr, s.variants, samples)
    && Chosen(c, w.abr, s.variants, samples) == uri != w.uri
  }

  /** How far the choice has got, place by place. */
  predicate ChoiceAt(c: Config, s: State, samples: seq<real>)
    requires AtWork(s.phase) && s.variants != []
  {
    match s.phase
    case AtSegment(w) => Staying(c, s, w, samples)
    case AwaitSegment(w) => Staying(c, s, w, samples)
    case Enqueue(w, b) => Staying(c, s, w, samples) && s.throughput == b.throughput
    case Decide(w) =>
      && samples != [] && s.throughput == samples[|samples| - 1]
      && Staying(c, s, w, samples[..|samples| - 1])
    case Drain(w, uri) => s.currentUri == w.uri && Leaving(c, s, w, samples, uri)
    case Switch(w, uri) => s.currentUri == w.uri && Leaving(c, s, w, samples, uri)
    case AfterList(w) => EndedAt(c, s, w, samples)
    case EndOfStream(w) => EndedAt(c, s, w, samples)
  }

  /** The pass went to the end of the list, or the choice has left its variant. */
  predicate EndedAt(c: Config, s: State, w: Work, samples: seq<real>)
    requires s.variants != []
  {
    || (w.i == |w.list.segments| && Staying(c, s, w, samples))
    || Leaving(c, s, w, samples, s.currentUri)
  }

  predicate HasVariants(phase: Phase) {
    phase.LoopHead? || phase.AwaitPlaylist? || AtWork(phase)
  }

  predicate PassChoice(c: Config, s: State) {
    && (HasVariants(s.phase) ==> s.variants != [])
    && (AtWork(s.phase) ==> s.phase.work.since <= |s.pushed| && ChoiceAt(c, s, PassSamples(s)))
  }

  lemma PushAddsSample(c: Config, s: State, s': State)
    requires PassChoice(c, s) && Next(c, s, PushBundle, s')
    ensures PassChoice(c, s')
  {
    var w, b := s.phase.work, s.phase.bundle;
    assert s'.pushed[w.since..] == s.pushed[w.since..] + [b];
    assert PassSamples(s') == PassSamples(s) + [b.throughput];
    assert PassSamples(s')[..|PassSamples(s)|] == PassSamples(s);
  }

  lemma DecisionTakesSample(c: Config, s: State, s': State)
    requires PassChoice(c, s) && Next(c, s, DecideVariant, s')
    ensures PassChoice(c, s')
  {
    var samples := PassSamples(s);
    var before, t := samples[..|samples| - 1], samples[|samples| - 1];
    assert samples == before + [t];
    StaysOneMore(c, s.phase.work.abr, s.variants, s.phase.work.uri, before, t);
  }

  lemma ArrivalStartsPass(c: Config, s: State, move: Move, s': State)
    requires PassChoice(c, s) && move.GotPlaylist? && Next(c, s, move, s')
    ensures PassChoice(c, s')
  {
    if s'.phase.AtSegment? {
      assert PassSamples(s') == [];
    }
  }

  /** Moves that leave the bundles pushed, the choice and the place in the list's pass alone. */
  predicate KeepsPass(move: Move) {
    !move.PushBundle? && !move.DecideVariant? && !move.GotPlaylist?
  }

  lemma KeepingPassKeepsSamples(c: Config, s: State, move: Move, s': State)
    requires KeepsPass(move) && Next(c, s, move, s') && AtWork(s'.phase)
    ensures AtWork(s.phase) && s'.pushed == s.pushed && s'.variants == s.variants && s'.abr == s.abr
    ensures s'.phase.work == s.phase.work.(i := s'.phase.work.i)
  {
  }

  lemma KeepingPassKeepsChoice(c: Config, s: State, move: Move, s': State)
    requires PassChoice(c, s) && KeepsPass(move) && Next(c, s, move, s') && AtWork(s'.phase)
    ensures PassChoice(c, s')
  {
    KeepingPassKeepsSamples(c, s, move, s');
    assert PassSamples(s') == PassSamples(s);
  }

  lemma NextKeepsChoice(c: Config, s: State, move: Move, s': State)
    requires PassChoice(c, s) && Next(c, s, move, s')
    ensures PassChoice(c, s')
  {
    if move.PushBundle? {
      PushAddsSample(c, s, s');
    } else if move.DecideVariant? {
      DecisionTakesSample(c, s, s');
    } else if move.GotPlaylist? {
      ArrivalStartsPass(c, s, move, s');
    } else if AtWork(s'.phase) {
      KeepingPassKeepsChoice(c, s, move, s');
    } else {
      VariantsKept(c, s, move, s');
    }
  }

  lemma VariantsKept(c: Config, s: State, move: Move, s': State)
    requires PassChoice(c, s) && Next(c, s, move, s') && !AtWork(s'.phase)
    ensures PassChoice(c, s')
  {
  }

  /** In every state of every run the choice is the fold of selectVariant over the samples of the pass. */
  lemma {:induction false} RunPassChoice(c: Config, ss: seq<State>, moves: seq<Move>, k: nat)
    requires IsRun(c, ss, moves) && k < |ss|
    ensures PassChoice(c, ss[k])
  {
    if k > 0 {
      RunPassChoice(c, ss, moves, k - 1);
      assert StepAt(c, ss, moves, k - 1);
      NextKeepsChoice(c, ss[k - 1], moves[k - 1], ss[k]);
    }
  }

  // ---------- The samples are what the network answered ----------

  /** The throughputs of the segments delivered since the last list, told from the moves alone. */
  function Answers(moves: seq<Move>, k: nat): seq<real>
    requires k <= |moves|
  {
    if k == 0 then []
    else
      match moves[k - 1]
      case GotPlaylist(_) => []
      case GotSegment(answer) => Answers(moves, k - 1) + if answer.Some? then [answer.value] else []
      case _ => Answers(moves, k - 1)
  }

  /** The sample of a bundle that is about to be pushed. */
  function PendingSample(s: State): seq<real> {
    if s.phase.Enqueue? then [s.phase.bundle.throughput] else []
  }

  lemma StepTakesAnswer(c: Config, s: State, move: Move, s': State)
    requires PassChoice(c, s) && PassChoice(c, s') && Next(c, s, move, s') && AtWork(s'.phase)
    ensures move.GotPlaylist? ==> PassSamples(s') + PendingSample(s') == []
    ensures !move.GotPlaylist? ==>
              && AtWork(s.phase)
              && PassSamples(s') + PendingSample(s') == PassSamples(s) + PendingSample(s)
                 + if move.GotSegment? && move.throughput.Some? then [move.throughput.value] else []
  {
    if move.PushBundle? {
      assert s'.pushed[s.phase.work.since..] == s.pushed[s.phase.work.since..] + [s.phase.bundle];
    } else if !move.GotPlaylist? {
      SamplesLeftAlone(c, s, move, s');
    }
  }

  lemma SamplesLeftAlone(c: Config, s: State, move: Move, s': State)
    requires PassChoice(c, s) && Next(c, s, move, s') && AtWork(s'.phase) && !move.PushBundle? && !move.GotPlaylist?
    ensures AtWork(s.phase) && s'.pushed == s.pushed && s'.phase.work.since == s.phase.work.since
    ensures PendingSample(s') == PendingSample(s)
              + if move.GotSegment? && move.throughput.Some? then [move.throughput.value] else []
  {
  }

  /** In every run the samples of a pass are, in order, the answers received since its list arrived. */
  lemma {:induction false} SamplesAreAnswers(c: Config, ss: seq<State>, moves: seq<Move>, k: nat)
    requires IsRun(c, ss, moves) && k < |ss| && AtWork(ss[k].phase)
    ensures ss[k].phase.work.since <= |ss[k].pushed|
    ensures Answers(moves, k) == PassSamples(ss[k]) + PendingSample(ss[k])
  {
    RunPassChoice(c, ss, moves, k);
    if k > 0 {
      RunPassChoice(c, ss, moves, k - 1);
      assert StepAt(c, ss, moves, k - 1);
      StepTakesAnswer(c, ss[k - 1], moves[k - 1], ss[k]);
      if !moves[k - 1].GotPlaylist? {
        SamplesAreAnswers(c, ss, moves, k - 1);
      }
    }
  }

  /** The pass at hand is over the list that arrived at move a, and remembers how things stood then. */
  ghost predicate ArrivedAt(ss: seq<State>, moves: seq<Move>, a: nat, k: nat)
    requires a < k < |ss| == |moves| + 1 && AtWork(ss[k].phase)
  {
    var w, s := ss[k].phase.work, ss[a];
    && moves[a] == GotPlaylist(Some(w.list)) && SamePass(moves, a, k)
    && w.since == |s.pushed| && w.from == s.nextIndex && w.uri == s.currentUri && w.abr == s.abr
  }

  lemma StepKeepsWork(c: Config, s: State, move: Move, s': State)
    requires Next(c, s, move, s') && AtWork(s'.phase) && !move.GotPlaylist?
    ensures AtWork(s.phase) && s'.phase.work == s.phase.work.(i := s'.phase.work.i)
  {
  }

  /** Every pass is over the last list that arrived. */
  lemma {:induction false} PassHasArrived(c: Config, ss: seq<State>, moves: seq<Move>, k: nat) returns (a: nat)
    requires IsRun(c, ss, moves) && k < |ss| && AtWork(ss[k].phase)
    ensures a < k && ArrivedAt(ss, moves, a, k)
  {
    assert StepAt(c, ss, moves, k - 1);
    if moves[k - 1].GotPlaylist? {
      a := k - 1;
    } else {
      StepKeepsWork(c, ss[k - 1], moves[k - 1], ss[k]);
      a := PassHasArrived(c, ss, moves, k - 1);
      PassGoesOn(moves, a, k - 1);
    }
  }

  // ---------- Switches of the pass ----------

  /** The pass has moved the current variant away exactly when it has switched. */
  lemma {:induction false} SwitchMovesVariant(c: Config, ss: seq<State>, moves: seq<Move>, k: nat)
    requires IsRun(c, ss, moves) && k < |ss| && AtWork(ss[k].phase)
    ensures SwitchedInPass(moves, k) <==> ss[k].currentUri != ss[k].phase.work.uri
  {
    if k > 0 {
      SwitchedOneMore(moves, k - 1);
      RunPassChoice(c, ss, moves, k - 1);
      assert StepAt(c, ss, moves, k - 1);
      StepMovesVariant(c, ss[k - 1], moves[k - 1], ss[k]);
      if !moves[k - 1].GotPlaylist? {
        SwitchMovesVariant(c, ss, moves, k - 1);
      }
    }
  }

  lemma StepMovesVariant(c: Config, s: State, move: Move, s': State)
    requires PassChoice(c, s) && Next(c, s, move, s') && AtWork(s'.phase)
    ensures move.GotPlaylist? ==> s'.currentUri == s'.phase.work.uri
    ensures move.SetVariant? ==> s'.currentUri != s'.phase.work.uri
    ensures !move.GotPlaylist? ==> AtWork(s.phase)
    ensures !move.GotPlaylist? && !move.SetVariant? ==>
              s'.currentUri == s.currentUri && s'.phase.work.uri == s.phase.work.uri
  {
  }

  /** A pass that is over, but did not reach the end of its list, was left by a switch of its own. */
  lemma {:induction false} OnlySwitchCutsShort(c: Config, ss: seq<State>, moves: seq<Move>, k: nat)
    requires IsRun(c, ss, moves) && k < |ss|
    requires ss[k].phase.AfterList? || ss[k].phase.EndOfStream?
    requires ss[k].phase.work.i < |ss[k].phase.work.list.segments|
    ensures exists j | 0 <= j < k ::
              && moves[j].SetVariant? && SamePass(moves, j, k)
              && ss[j].phase.Switch? && ss[j].phase.work == ss[k].phase.work
  {
    var s, s' := ss[k - 1], ss[k];
    assert StepAt(c, ss, moves, k - 1);
    if moves[k - 1].SetVariant? {
      assert SamePass(moves, k - 1, k);
    } else {
      OnlySwitchCutsShort(c, ss, moves, k - 1);
      var j :| 0 <= j < k - 1 && moves[j].SetVariant? && SamePass(moves, j, k - 1)
               && ss[j].phase.Switch? && ss[j].phase.work == s.phase.work;
      PassGoesOn(moves, j, k - 1);
    }
  }

  // ---------- Bundles of the pass that were cleared ----------

  /** None of the current list's bundles has been cleared: each was taken or is still queued. */
  predicate PassIntact(s: State)
    requires AtWork(s.phase)
  {
    forall j | s.phase.work.since <= j < |s.gone| :: s.gone[j].fate.Taken?
  }

  lemma StepKeepsIntact(c: Config, s: State, move: Move, s': State)
    requires PassChoice(c, s) && Q.ItemsOf(s.gone) + s.queue == s.pushed
    requires Next(c, s, move, s') && AtWork(s'.phase)
    ensures move.GotPlaylist? ==> PassIntact(s')
    ensures !move.GotPlaylist? ==>
              AtWork(s.phase) && (PassIntact(s') <==> PassIntact(s) && (move.DrainQueue? ==> s.queue == []))
  {
    if move.DrainQueue? {
      DrainClears(c, s, s');
    } else if move.Consume? {
      ConsumeKeepsIntact(c, s, s');
    } else if move.GotPlaylist? {
      NothingClearedYet(c, s, move, s');
    } else {
      GoneUnchanged(c, s, move, s');
    }
  }

  lemma ConsumeKeepsIntact(c: Config, s: State, s': State)
    requires AtWork(s.phase) && Next(c, s, Consume, s')
    ensures AtWork(s'.phase) && (PassIntact(s') <==> PassIntact(s))
  {
    assert s'.gone == s.gone + [Q.Gone(s.queue[0], Q.Taken)];
    assert forall j | 0 <= j < |s.gone| :: s'.gone[j] == s.gone[j];
  }

  lemma NothingClearedYet(c: Config, s: State, move: Move, s': State)
    requires Q.ItemsOf(s.gone) + s.queue == s.pushed
    requires move.GotPlaylist? && Next(c, s, move, s') && AtWork(s'.phase)
    ensures PassIntact(s')
  {
    assert |s.gone| <= |s.pushed|;
  }

  lemma GoneUnchanged(c: Config, s: State, move: Move, s': State)
    requires Next(c, s, move, s') && AtWork(s'.phase)
    requires !move.DrainQueue? && !move.Consume? && !move.GotPlaylist?
    ensures AtWork(s.phase) && s'.gone == s.gone && s'.phase.work.since == s.phase.work.since
  {
  }

  lemma DrainClears(c: Config, s: State, s': State)
    requires PassChoice(c, s) && Q.ItemsOf(s.gone) + s.queue == s.pushed && Next(c, s, DrainQueue, s')
    ensures PassIntact(s') <==> PassIntact(s) && s.queue == []
  {
    var since := s.phase.work.since;
    assert |s.gone| + |s.queue| == |s.pushed| > since;
    assert forall j | 0 <= j < |s.gone| :: s'.gone[j] == s.gone[j];
    if s.queue != [] {
      assert !s'.gone[|s'.gone| - 1].fate.Taken?;
    }
  }

  /** No bundle of the list is cleared exactly when the drains of its pass found nothing. */
  lemma {:induction false} IntactIffDrainsFoundNothing(c: Config, ss: seq<State>, moves: seq<Move>, k: nat)
    requires IsRun(c, ss, moves) && k < |ss| && AtWork(ss[k].phase)
    ensures PassIntact(ss[k]) <==> DrainsFoundNothing(ss, moves, k)
  {
    if k > 0 {
      DrainsOneMore(ss, moves, k - 1);
      RunPassChoice(c, ss, moves, k - 1);
      BundlesAccountedFor(c, ss, moves, k - 1);
      assert StepAt(c, ss, moves, k - 1);
      StepKeepsIntact(c, ss[k - 1], moves[k - 1], ss[k]);
      if !moves[k - 1].GotPlaylist? {
        IntactIffDrainsFoundNothing(c, ss, moves, k - 1);
      }
    }
  }

  // ---------- Completeness ----------

  /** Part of a list wants the first of the segments that all of it wants. */
  lemma {:induction false} WantedPrefix(segments: seq<Segment>, i: nat, next: nat)
    requires i <= |segments|
    ensures Wanted(segments[..i], next) <= Wanted(segments, next)
    decreases |segments|
  {
    if i < |segments| {
      var init, last := segments[..|segments| - 1], segments[|segments| - 1];
      WantedPrefix(init, i, next);
      assert init[..i] == segments[..i] && segments == init + [last];
      WantedOneMore(init, last, next);
    } else {
      assert segments[..i] == segments;
    }
  }

  /** Everything the list wanted when it arrived has been pushed. */
  predicate PassComplete(c: Config, s: State)
    requires AtWork(s.phase) && s.phase.work.since <= |s.pushed|
  {
    var w := s.phase.work;
    DownloadsOf(c, s.pushed[w.since..], Wanted(w.list.segments, w.from))
  }

  lemma CompleteIffAllSampled(c: Config, s: State)
    requires AtWork(s.phase) && !s.phase.Enqueue? && PassSoFar(c, s)
    ensures
      var w := s.phase.work;
      && |PassSamples(s)| <= |Wanted(w.list.segments, w.from)|
      && (PassComplete(c, s) <==> |PassSamples(s)| == |Wanted(w.list.segments, w.from)|)
      && (w.i == |w.list.segments| ==> PassComplete(c, s))
  {
    var w := s.phase.work;
    assert Produced(s) == s.pushed[w.since..];
    WantedPrefix(w.list.segments, w.i, w.from);
    assert w.list.segments[..|w.list.segments|] == w.list.segments;
    var part, all := Wanted(w.list.segments[..w.i], w.from), Wanted(w.list.segments, w.from);
    if |part| == |all| {
      assert part == all;
    }
  }

  /** The network would answer with throughput offered[k] for the k-th segment that the list wants. */
  predicate Offers(w: Work, answers: seq<real>, offered: seq<real>) {
    |offered| == |Wanted(w.list.segments, w.from)| && answers <= offered
  }

  /** All of the samples but the last. */
  function ButLast(samples: seq<real>): seq<real> {
    if samples == [] then [] else samples[..|samples| - 1]
  }

  lemma EndedChoice(c: Config, s: State, offered: seq<real>)
    requires s.phase.EndOfStream? && PassChoice(c, s) && PassSoFar(c, s)
    requires Offers(s.phase.work, PassSamples(s), offered)
    ensures
      var w := s.phase.work;
      && (PassComplete(c, s) <==> ChoiceStays(c, w.abr, s.variants, w.uri, ButLast(offered)))
      && (PassComplete(c, s) && s.currentUri == w.uri <==> ChoiceStays(c, w.abr, s.variants, w.uri, offered))
  {
    var w, samples := s.phase.work, PassSamples(s);
    CompleteIffAllSampled(c, s);
    if |samples| == |offered| {
      assert samples == offered;
      CompleteChoice(c, s, samples);
    } else {
      CutShortChoice(c, s, samples, offered);
    }
  }

  lemma CompleteChoice(c: Config, s: State, samples: seq<real>)
    requires s.phase.EndOfStream? && s.variants != [] && EndedAt(c, s, s.phase.work, samples)
    ensures
      var w := s.phase.work;
      && ChoiceStays(c, w.abr, s.variants, w.uri, ButLast(samples))
      && (s.currentUri == w.uri <==> ChoiceStays(c, w.abr, s.variants, w.uri, samples))
  {
    var w := s.phase.work;
    if samples != [] {
      if ChoiceStays(c, w.abr, s.variants, w.uri, samples) {
        StaysOnPrefix(c, w.abr, s.variants, w.uri, samples, |samples| - 1);
        assert samples[..|samples|] == samples;
      }
    }
  }

  lemma CutShortChoice(c: Config, s: State, samples: seq<real>, offered: seq<real>)
    requires s.phase.EndOfStream? && s.variants != [] && Leaving(c, s, s.phase.work, samples, s.currentUri)
    requires |samples| < |offered| && samples <= offered
    ensures
      var w := s.phase.work;
      && !ChoiceStays(c, w.abr, s.variants, w.uri, ButLast(offered))
      && !ChoiceStays(c, w.abr, s.variants, w.uri, offered)
  {
    var n := |samples|;
    assert offered[..n] == samples && ButLast(offered)[..n] == samples;
  }

  /**
    The end of the stream, told from what goes in. Let the network answer with throughput offered[k]
    for the k-th segment that the final list still wants, as it has for those asked for. Then:
    - all of them are pushed exactly when no sample but the last makes the choice leave the variant;
    - the pass has also not switched exactly when no sample does;
    - none of them is cleared exactly when the drains of the pass found the queue empty;
    - so the list surely gets through in full when no sample makes the choice leave, and otherwise
      only if the last one is the first to do so and a consumer emptied the queue before the drain.
   */
  lemma FinalListGetsThroughIff(c: Config, ss: seq<State>, moves: seq<Move>, k: nat, offered: seq<real>)
    requires IsRun(c, ss, moves) && k < |ss| && ss[k].phase.EndOfStream?
    requires Offers(ss[k].phase.work, Answers(moves, k), offered)
    ensures ss[k].variants != [] && ss[k].phase.work.since <= |ss[k].pushed|
    ensures
      var s := ss[k];
      var w := s.phase.work;
      && (PassComplete(c, s) <==> ChoiceStays(c, w.abr, s.variants, w.uri, ButLast(offered)))
      && (PassComplete(c, s) && !SwitchedInPass(moves, k) <==> ChoiceStays(c, w.abr, s.variants, w.uri, offered))
      && (PassIntact(s) <==> DrainsFoundNothing(ss, moves, k))
      && (PassComplete(c, s) && PassIntact(s) <==>
            || ChoiceStays(c, w.abr, s.variants, w.uri, offered)
            || (ChoiceStays(c, w.abr, s.variants, w.uri, ButLast(offered)) && DrainsFoundNothing(ss, moves, k)))
  {
    RunPassChoice(c, ss, moves, k);
    RunPassSoFar(c, ss, moves, k);
    SamplesAreAnswers(c, ss, moves, k);
    SwitchMovesVariant(c, ss, moves, k);
    IntactIffDrainsFoundNothing(c, ss, moves, k);
    EndedChoice(c, ss[k], offered);
    if !SwitchedInPass(moves, k) {
      NoSwitchNoDrain(c, ss, moves, k);
    }
  }

  /** A pass that is over and has not switched has not drained either. */
  lemma {:induction false} NoSwitchNoDrain(c: Config, ss: seq<State>, moves: seq<Move>, k: nat)
    requires IsRun(c, ss, moves) && k < |ss| && AtWork(ss[k].phase)
    requires !SwitchedInPass(moves, k) && !ss[k].phase.Switch?
    ensures DrainsFoundNothing(ss, moves, k)
  {
    if k > 0 {
      assert StepAt(c, ss, moves, k - 1);
      DrainsOneMore(ss, moves, k - 1);
      SwitchedOneMore(moves, k - 1);
      if !moves[k - 1].GotPlaylist? {
        NoDrainStep(c, ss[k - 1], moves[k - 1], ss[k]);
        NoSwitchNoDrain(c, ss, moves, k - 1);
      }
    }
  }

  lemma NoDrainStep(c: Config, s: State, move: Move, s': State)
    requires Next(c, s, move, s') && AtWork(s'.phase) && !s'.phase.Switch?
    requires !move.GotPlaylist? && !move.SetVariant?
    ensures AtWork(s.phase) && !s.phase.Switch? && !move.DrainQueue?
  {
  }
}
