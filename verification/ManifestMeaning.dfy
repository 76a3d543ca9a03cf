/**
  What a manifest means, told from its lines alone, and the proof that the parser's one pass with
  two builders arrives at that meaning: for every list of lines, which of them become segments,
  with which duration, index and flag, and which line is reported when one is rejected.
 */
module ManifestMeaning {
  import opened Wrappers
  import opened Machine
  import opened Text
  import opened Playlist
  import opened Numbers
  import opened AttributeScanner
  import opened ManifestParser

  /** A line as the parser understands it, with its number. */
  datatype Line = Line(token: Token, number: nat)

  type Manifest = seq<Line>

  function LinesOf(entries: seq<Entry>): Manifest {
    seq(|entries|, k requires 0 <= k < |entries| => Line(Lex(entries[k].text), entries[k].number))
  }

  datatype Mark = DurationMark | EndMark | DiscontinuityMark

  predicate Marked(token: Token, mark: Mark) {
    match mark
    case DurationMark => token.DurationToken?
    case EndMark => token.EndToken?
    case DiscontinuityMark => token.DiscontinuityToken?
  }

  /** The last line in [from, n) with the mark, or -1. */
  function Latest(m: Manifest, from: nat, n: nat, mark: Mark): (j: int)
    requires n <= |m|
    ensures j == -1 || (from <= j < n && Marked(m[j].token, mark))
    ensures forall i | from <= i < n && i > j :: !Marked(m[i].token, mark)
  {
    if n <= from then -1
    else if Marked(m[n - 1].token, mark) then n - 1
    else Latest(m, from, n - 1, mark)
  }

  /** Some line before n announces a variant, and no URI line has come since. */
  ghost predicate VariantAnnounced(m: Manifest, n: nat)
    requires n <= |m|
  {
    exists j | 0 <= j < n :: m[j].token.VariantToken? && NoUriBetween(m, j, n)
  }

  ghost predicate NoUriBetween(m: Manifest, j: nat, n: nat)
    requires n <= |m|
  {
    forall i | j < i < n :: !m[i].token.UriToken?
  }

  /** A URI line names a variant if one has been announced, and a segment otherwise. */
  ghost predicate VariantLine(m: Manifest, k: nat)
    requires k < |m|
  {
    m[k].token.UriToken? && VariantAnnounced(m, k)
  }

  ghost predicate SegmentLine(m: Manifest, k: nat)
    requires k < |m|
  {
    m[k].token.UriToken? && !VariantAnnounced(m, k)
  }

  /** Just after the last segment line before n, or 0. */
  ghost function SegmentStart(m: Manifest, n: nat): (from: nat)
    requires n <= |m|
    ensures from <= n && (from > 0 ==> SegmentLine(m, from - 1))
    ensures forall k | from <= k < n :: !SegmentLine(m, k)
  {
    if n == 0 || SegmentLine(m, n - 1) then n else SegmentStart(m, n - 1)
  }

  /** How many segment lines, and how many variant lines, there are before n. */
  ghost function SegmentCount(m: Manifest, n: nat): nat
    requires n <= |m|
  {
    if n == 0 then 0 else SegmentCount(m, n - 1) + if SegmentLine(m, n - 1) then 1 else 0
  }

  ghost function VariantCount(m: Manifest, n: nat): nat
    requires n <= |m|
  {
    if n == 0 then 0 else VariantCount(m, n - 1) + if VariantLine(m, n - 1) then 1 else 0
  }

  function UriCount(m: Manifest, n: nat): nat
    requires n <= |m|
  {
    if n == 0 then 0 else UriCount(m, n - 1) + if m[n - 1].token.UriToken? then 1 else 0
  }

  /** The last readable media sequence number before n, or 0. */
  function MediaSequenceAt(m: Manifest, n: nat): nat
    requires n <= |m|
  {
    if n == 0 then 0
    else
      var token := m[n - 1].token;
      if token.SequenceToken? && token.first.Some? then token.first.value else MediaSequenceAt(m, n - 1)
  }

  /** The last readable target duration before n, or 0. */
  function TargetDurationAt(m: Manifest, n: nat): nat
    requires n <= |m|
  {
    if n == 0 then 0
    else
      var token := m[n - 1].token;
      if token.TargetToken? && token.seconds.Some? then token.seconds.value else TargetDurationAt(m, n - 1)
  }

  /** The attributes announced since the last URI line. */
  function AttributesAt(m: Manifest, n: nat): Variant
    requires n <= |m|
  {
    if n == 0 || m[n - 1].token.UriToken? then NO_VARIANT
    else if m[n - 1].token.VariantToken? then
      ApplyAttributes(AttributesAt(m, n - 1), m[n - 1].token.attributes)
    else AttributesAt(m, n - 1)
  }

  /** The duration line that governs the segment line at, or to come at, n. */
  ghost function DurationLine(m: Manifest, n: nat): int
    requires n <= |m|
  {
    Latest(m, SegmentStart(m, n), n, DurationMark)
  }

  /** A discontinuity line stands between the previous segment line and n. */
  ghost predicate Discontinuous(m: Manifest, n: nat)
    requires n <= |m|
  {
    Latest(m, SegmentStart(m, n), n, DiscontinuityMark) != -1
  }

  /** A duration line governs the segment at, or to come at, n, and it could be read. */
  ghost predicate HasDuration(m: Manifest, n: nat)
    requires n <= |m|
  {
    DurationLine(m, n) != -1 && m[DurationLine(m, n)].token.duration.Some?
  }

  /** The segment the line at k names. */
  ghost function SegmentNamed(m: Manifest, k: nat): Segment
    requires k < |m| && m[k].token.UriToken? && HasDuration(m, k)
  {
    Segment(m[k].token.uri,
            m[DurationLine(m, k)].token.duration.value,
            SequenceIndex(MediaSequenceAt(m, k), SegmentCount(m, k)),
            Discontinuous(m, k))
  }

  /** The variant the line at k names. */
  function VariantNamed(m: Manifest, k: nat): Variant
    requires k < |m| && m[k].token.UriToken?
  {
    AttributesAt(m, k).(uri := m[k].token.uri)
  }

  /** The segment line at k has its segment at its place in the list. */
  ghost predicate SegmentListed(m: Manifest, k: nat, segments: seq<Segment>)
    requires k < |m|
  {
    && SegmentLine(m, k) && HasDuration(m, k)
    && SegmentCount(m, k) < |segments| && segments[SegmentCount(m, k)] == SegmentNamed(m, k)
  }

  ghost predicate VariantListed(m: Manifest, k: nat, variants: seq<Variant>)
    requires k < |m|
  {
    && VariantLine(m, k)
    && VariantCount(m, k) < |variants| && variants[VariantCount(m, k)] == VariantNamed(m, k)
  }

  /** The list holds the segments named before n, in the order of their lines, and no others. */
  ghost predicate SegmentsOf(m: Manifest, n: nat, segments: seq<Segment>)
    requires n <= |m|
  {
    && |segments| == SegmentCount(m, n)
    && forall k | 0 <= k < n && SegmentLine(m, k) :: SegmentListed(m, k, segments)
  }

  ghost predicate VariantsOf(m: Manifest, n: nat, variants: seq<Variant>)
    requires n <= |m|
  {
    && |variants| == VariantCount(m, n)
    && forall k | 0 <= k < n && VariantLine(m, k) :: VariantListed(m, k, variants)
  }

  ghost predicate SegmentBuilderAt(m: Manifest, n: nat, st: State)
    requires n <= |m|
  {
    && (st.segment.active <==> DurationLine(m, n) != -1)
    && (st.segment.active ==>
          HasDuration(m, n) && m[DurationLine(m, n)].token.duration.value == st.segment.duration)
    && st.segment.discontinuity == Discontinuous(m, n)
  }

  ghost predicate VariantBuilderAt(m: Manifest, n: nat, st: State)
    requires n <= |m|
  {
    && (st.pending.active <==> VariantAnnounced(m, n))
    && st.pending.variant == AttributesAt(m, n)
    && (!st.pending.active ==> st.pending.variant == NO_VARIANT)
  }

  ghost predicate BuildersAt(m: Manifest, n: nat, st: State)
    requires n <= |m|
  {
    SegmentBuilderAt(m, n, st) && VariantBuilderAt(m, n, st)
  }

  /** What the playlist's own fields say. */
  ghost predicate FieldsAt(m: Manifest, n: nat, st: State)
    requires n <= |m|
  {
    && st.playlist.mediaSequence == MediaSequenceAt(m, n)
    && st.playlist.targetDuration == TargetDurationAt(m, n)
    && (st.playlist.hasEndlist <==> Latest(m, 0, n, EndMark) != -1)
    && st.playlist.playlistType == MediaVOD
  }

  /** The state after n lines is what the lines say. */
  ghost predicate StateAt(m: Manifest, n: nat, st: State)
    requires n <= |m|
  {
    && BuildersAt(m, n, st)
    && FieldsAt(m, n, st)
    && SegmentsOf(m, n, st.playlist.segments)
    && VariantsOf(m, n, st.playlist.variants)
  }

  /** A line is accepted unless its duration cannot be read or it is a segment without one. */
  ghost predicate LineAccepted(m: Manifest, k: nat)
    requires k < |m|
  {
    && (m[k].token.DurationToken? ==> m[k].token.duration.Some?)
    && (SegmentLine(m, k) ==> DurationLine(m, k) != -1)
  }

  /** The line at k is rejected and none before it is. */
  ghost predicate RejectedFirst(m: Manifest, k: nat) {
    k < |m| && !LineAccepted(m, k) && forall j | 0 <= j < k :: LineAccepted(m, j)
  }

  function ErrorAt(m: Manifest, k: nat): ParseError
    requires k < |m|
  {
    if m[k].token.DurationToken? then ParseError(InvalidFormat, m[k].number, "Malformed #EXTINF duration")
    else ParseError(MissingMandatoryTags, m[k].number, "Segment URI without preceding #EXTINF")
  }

  // ---------- One line ----------

  lemma AnnouncedOneMore(m: Manifest, n: nat)
    requires n < |m|
    ensures VariantAnnounced(m, n + 1) <==>
              m[n].token.VariantToken? || (!m[n].token.UriToken? && VariantAnnounced(m, n))
  {
    if m[n].token.VariantToken? {
      assert NoUriBetween(m, n, n + 1);
    } else if !m[n].token.UriToken? && VariantAnnounced(m, n) {
      var j :| 0 <= j < n && m[j].token.VariantToken? && NoUriBetween(m, j, n);
      assert NoUriBetween(m, j, n + 1);
    } else {
      assert forall j | 0 <= j < n && NoUriBetween(m, j, n + 1) :: NoUriBetween(m, j, n);
    }
  }

  lemma SegmentBuilderOneMore(m: Manifest, n: nat, st: State, st': State)
    requires n < |m| && BuildersAt(m, n, st) && LineAccepted(m, n)
    requires Apply(st, m[n].token, m[n].number) == Ok(st')
    ensures SegmentBuilderAt(m, n + 1, st')
  {
  }

  lemma VariantBuilderOneMore(m: Manifest, n: nat, st: State, st': State)
    requires n < |m| && VariantBuilderAt(m, n, st)
    requires Apply(st, m[n].token, m[n].number) == Ok(st')
    ensures VariantBuilderAt(m, n + 1, st')
  {
    AnnouncedOneMore(m, n);
  }

  lemma BuildersOneMore(m: Manifest, n: nat, st: State, st': State)
    requires n < |m| && BuildersAt(m, n, st) && LineAccepted(m, n)
    requires Apply(st, m[n].token, m[n].number) == Ok(st')
    ensures BuildersAt(m, n + 1, st')
  {
    SegmentBuilderOneMore(m, n, st, st');
    VariantBuilderOneMore(m, n, st, st');
  }

  lemma SegmentStaysListed(m: Manifest, k: nat, segments: seq<Segment>, more: Segment)
    requires k < |m| && SegmentListed(m, k, segments)
    ensures SegmentListed(m, k, segments + [more])
  {
  }

  lemma NewSegmentListed(m: Manifest, n: nat, segments: seq<Segment>)
    requires n < |m| && SegmentLine(m, n) && HasDuration(m, n) && |segments| == SegmentCount(m, n)
    ensures SegmentListed(m, n, segments + [SegmentNamed(m, n)])
  {
  }

  lemma SegmentListedOneMore(m: Manifest, n: nat, segments: seq<Segment>, k: nat)
    requires k <= n < |m| && SegmentsOf(m, n, segments) && SegmentLine(m, n) && HasDuration(m, n) && SegmentLine(m, k)
    ensures SegmentListed(m, k, segments + [SegmentNamed(m, n)])
  {
    if k < n {
      SegmentStaysListed(m, k, segments, SegmentNamed(m, n));
    } else {
      NewSegmentListed(m, n, segments);
    }
  }

  lemma CountOneMore(m: Manifest, n: nat)
    requires n < |m|
    ensures SegmentCount(m, n + 1) == SegmentCount(m, n) + if SegmentLine(m, n) then 1 else 0
  {
  }

  lemma NewSegmentsOf(m: Manifest, n: nat, segments: seq<Segment>)
    requires n < |m| && SegmentsOf(m, n, segments) && SegmentLine(m, n) && HasDuration(m, n)
    ensures SegmentsOf(m, n + 1, segments + [SegmentNamed(m, n)])
  {
    var segments' := segments + [SegmentNamed(m, n)];
    CountOneMore(m, n);
    forall k | 0 <= k < n + 1 && SegmentLine(m, k) ensures SegmentListed(m, k, segments') {
      SegmentListedOneMore(m, n, segments, k);
    }
  }

  lemma SameSegmentsOf(m: Manifest, n: nat, segments: seq<Segment>)
    requires n < |m| && SegmentsOf(m, n, segments) && !SegmentLine(m, n)
    ensures SegmentsOf(m, n + 1, segments)
  {
    CountOneMore(m, n);
    forall k | 0 <= k < n + 1 && SegmentLine(m, k) ensures SegmentListed(m, k, segments) {
      assert k < n;
    }
  }

  lemma SegmentsOneMore(m: Manifest, n: nat, segments: seq<Segment>)
    requires n < |m| && SegmentsOf(m, n, segments)
    requires SegmentLine(m, n) ==> HasDuration(m, n)
    ensures SegmentsOf(m, n + 1, if SegmentLine(m, n) then segments + [SegmentNamed(m, n)] else segments)
  {
    if SegmentLine(m, n) {
      NewSegmentsOf(m, n, segments);
    } else {
      SameSegmentsOf(m, n, segments);
    }
  }

  lemma VariantsOneMore(m: Manifest, n: nat, variants: seq<Variant>)
    requires n < |m| && VariantsOf(m, n, variants)
    ensures VariantsOf(m, n + 1, if VariantLine(m, n) then variants + [VariantNamed(m, n)] else variants)
  {
    if VariantLine(m, n) {
      var variants' := variants + [VariantNamed(m, n)];
      forall k | 0 <= k < n && VariantLine(m, k) ensures VariantListed(m, k, variants') {
        assert VariantListed(m, k, variants);
      }
    }
  }

  lemma CommitAddsSegment(m: Manifest, n: nat, st: State)
    requires n < |m| && SegmentLine(m, n) && HasDuration(m, n) && BuildersAt(m, n, st)
    requires |st.playlist.segments| == SegmentCount(m, n)
    requires st.playlist.mediaSequence == MediaSequenceAt(m, n)
    ensures
      var r := CommitUri(st, m[n].token.uri, m[n].number);
      && r.Ok? && r.value.playlist.variants == st.playlist.variants
      && r.value.playlist.segments == st.playlist.segments + [SegmentNamed(m, n)]
  {
  }

  lemma CommitAddsVariant(m: Manifest, n: nat, st: State)
    requires n < |m| && VariantLine(m, n) && BuildersAt(m, n, st)
    ensures
      var r := CommitUri(st, m[n].token.uri, m[n].number);
      && r.Ok? && r.value.playlist.segments == st.playlist.segments
      && r.value.playlist.variants == st.playlist.variants + [VariantNamed(m, n)]
  {
  }

  lemma TagAddsNothing(st: State, token: Token, number: nat)
    requires !token.UriToken?
    ensures
      var r := Apply(st, token, number);
      r.Ok? ==> r.value.playlist.segments == st.playlist.segments && r.value.playlist.variants == st.playlist.variants
  {
  }

  lemma AcceptedSegmentHasDuration(m: Manifest, n: nat, st: State)
    requires n < |m| && BuildersAt(m, n, st) && SegmentLine(m, n) && LineAccepted(m, n)
    ensures HasDuration(m, n)
  {
  }

  lemma ListsOneMore(m: Manifest, n: nat, st: State, st': State)
    requires n < |m| && StateAt(m, n, st) && LineAccepted(m, n)
    requires Apply(st, m[n].token, m[n].number) == Ok(st')
    ensures SegmentsOf(m, n + 1, st'.playlist.segments)
    ensures VariantsOf(m, n + 1, st'.playlist.variants)
  {
    if SegmentLine(m, n) {
      AcceptedSegmentHasDuration(m, n, st);
      CommitAddsSegment(m, n, st);
    } else if VariantLine(m, n) {
      CommitAddsVariant(m, n, st);
    } else {
      TagAddsNothing(st, m[n].token, m[n].number);
    }
    SegmentsOneMore(m, n, st.playlist.segments);
    VariantsOneMore(m, n, st.playlist.variants);
  }

  lemma RejectedIsReported(m: Manifest, n: nat, st: State)
    requires n < |m| && BuildersAt(m, n, st) && !LineAccepted(m, n)
    ensures Apply(st, m[n].token, m[n].number) == Err(ErrorAt(m, n))
  {
  }

  lemma AcceptedIsApplied(m: Manifest, n: nat, st: State)
    requires n < |m| && BuildersAt(m, n, st) && LineAccepted(m, n)
    ensures Apply(st, m[n].token, m[n].number).Ok?
  {
  }

  lemma FieldsOneMore(m: Manifest, n: nat, st: State, st': State)
    requires n < |m| && FieldsAt(m, n, st) && Apply(st, m[n].token, m[n].number) == Ok(st')
    ensures FieldsAt(m, n + 1, st')
  {
  }

  lemma StepOneMore(m: Manifest, n: nat, st: State)
    requires n < |m| && StateAt(m, n, st)
    ensures
      var r := Apply(st, m[n].token, m[n].number);
      if LineAccepted(m, n) then r.Ok? && StateAt(m, n + 1, r.value) else r == Err(ErrorAt(m, n))
  {
    if LineAccepted(m, n) {
      AcceptedIsApplied(m, n, st);
      var st' := Apply(st, m[n].token, m[n].number).value;
      BuildersOneMore(m, n, st, st');
      FieldsOneMore(m, n, st, st');
      ListsOneMore(m, n, st, st');
    } else {
      RejectedIsReported(m, n, st);
    }
  }

  // ---------- All lines ----------

  /** The parser's pass, over lines already understood. */
  function FoldLines(st: State, m: Manifest): Result<State, ParseError> {
    if m == [] then Ok(st)
    else
      var r := FoldLines(st, m[..|m| - 1]);
      if r.Err? then r else Apply(r.value, m[|m| - 1].token, m[|m| - 1].number)
  }

  lemma FoldOneMore(st: State, m: Manifest, n: nat)
    requires n < |m|
    ensures
      var r := FoldLines(st, m[..n]);
      FoldLines(st, m[..n + 1]) == if r.Err? then r else Apply(r.value, m[n].token, m[n].number)
  {
    assert m[..n + 1][..n] == m[..n];
  }

  /** The first n lines are all accepted and have been read. */
  ghost predicate ReadUpTo(m: Manifest, n: nat, r: Result<State, ParseError>)
    requires n <= |m|
  {
    r.Ok? && StateAt(m, n, r.value)
  }

  ghost predicate PrefixRead(m: Manifest, n: nat)
    requires n <= |m|
  {
    ReadUpTo(m, n, FoldLines(START, m[..n]))
  }

  ghost predicate AllAccepted(m: Manifest, n: nat)
    requires n <= |m|
  {
    forall k | 0 <= k < n :: LineAccepted(m, k)
  }

  lemma PrefixMeaning(m: Manifest, n: nat)
    requires n <= |m| && AllAccepted(m, n)
    ensures PrefixRead(m, n)
  {
    ShorterPrefixMeaning(m, n, n);
  }

  lemma {:induction false} ShorterPrefixMeaning(m: Manifest, accepted: nat, n: nat)
    requires n <= accepted <= |m| && AllAccepted(m, accepted)
    ensures PrefixRead(m, n)
  {
    if n == 0 {
      NothingRead(m);
    } else {
      ShorterPrefixMeaning(m, accepted, n - 1);
      NextAcceptedRead(m, accepted, n);
    }
  }

  lemma NextAcceptedRead(m: Manifest, accepted: nat, n: nat)
    requires 0 < n <= accepted <= |m| && PrefixRead(m, n - 1) && AllAccepted(m, accepted)
    ensures PrefixRead(m, n)
  {
    AcceptedLineRead(m, n - 1);
  }

  lemma NothingRead(m: Manifest)
    ensures PrefixRead(m, 0)
  {
  }

  lemma AcceptedLineRead(m: Manifest, n: nat)
    requires n < |m| && PrefixRead(m, n) && LineAccepted(m, n)
    ensures PrefixRead(m, n + 1)
  {
    StepOneMore(m, n, FoldLines(START, m[..n]).value);
    FoldOneMore(START, m, n);
  }

  lemma RejectedLineReported(m: Manifest, n: nat)
    requires n < |m| && PrefixRead(m, n) && !LineAccepted(m, n)
    ensures FoldLines(START, m[..n + 1]) == Err(ErrorAt(m, n))
  {
    StepOneMore(m, n, FoldLines(START, m[..n]).value);
    FoldOneMore(START, m, n);
  }

  lemma {:induction false} ErrorStays(m: Manifest, n: nat, k: nat)
    requires k <= n <= |m| && FoldLines(START, m[..k]).Err?
    ensures FoldLines(START, m[..n]) == FoldLines(START, m[..k])
    decreases n
  {
    if k < n {
      ErrorStays(m, n - 1, k);
      FoldOneMore(START, m, n - 1);
    }
  }

  /** Some line is rejected and none before it: that line is the one reported. */
  lemma FirstRejectedIsReported(m: Manifest, k: nat)
    requires RejectedFirst(m, k)
    ensures FoldLines(START, m) == Err(ErrorAt(m, k)) && ErrorAt(m, k).lineNumber == m[k].number
  {
    PrefixMeaning(m, k);
    RejectedLineReported(m, k);
    ErrorStays(m, |m|, k + 1);
    assert m[..|m|] == m;
  }

  lemma {:induction false} FirstRejected(m: Manifest, n: nat) returns (k: nat)
    requires n <= |m| && exists j | 0 <= j < n :: !LineAccepted(m, j)
    ensures k < n && !LineAccepted(m, k) && forall j | 0 <= j < k :: LineAccepted(m, j)
  {
    if j :| 0 <= j < n - 1 && !LineAccepted(m, j) {
      k := FirstRejected(m, n - 1);
    } else {
      k := n - 1;
    }
  }

  /**
    Parsing succeeds exactly when every line is accepted; then the segments and variants are
    those the lines name, and there are as many of them together as URI lines.
   */
  lemma ParseMeaning(m: Manifest)
    ensures FoldLines(START, m).Ok? <==> forall k | 0 <= k < |m| :: LineAccepted(m, k)
    ensures FoldLines(START, m).Ok? ==>
              var st := FoldLines(START, m).value;
              && StateAt(m, |m|, st)
              && |st.playlist.segments| + |st.playlist.variants| == UriCount(m, |m|)
  {
    assert m[..|m|] == m;
    if forall k | 0 <= k < |m| :: LineAccepted(m, k) {
      PrefixMeaning(m, |m|);
      UrisAreSegmentsOrVariants(m, |m|);
    } else {
      var k := FirstRejected(m, |m|);
      FirstRejectedIsReported(m, k);
    }
  }

  lemma {:induction false} UrisAreSegmentsOrVariants(m: Manifest, n: nat)
    requires n <= |m|
    ensures SegmentCount(m, n) + VariantCount(m, n) == UriCount(m, n)
  {
    if n > 0 {
      UrisAreSegmentsOrVariants(m, n - 1);
    }
  }

  // ---------- Attributes ----------

  lemma SplitAtX(before: string, behind: string)
    requires Lacks(before, 'x')
    ensures
      var text := before + ("x" + behind);
      var x := FindFrom(text, 'x', 0);
      x == |before| < |text| && text[..x] == before && text[x + 1..] == behind
  {
    var text := before + ("x" + behind);
    assert text[|before|] == 'x' && forall k | 0 <= k < |before| :: text[k] == before[k];
  }

  lemma ResolutionOfParts(before: string, behind: string)
    requires Lacks(before, 'x')
    ensures ParseResolution(before + ("x" + behind)) ==
            match (ParseUint(before, U32_MAX), ParseUint(behind, U32_MAX))
            case (Some(width), Some(height)) => Some(Resolution(width, height))
            case _ => None
  {
    SplitAtX(before, behind);
  }

  lemma NoXBefore(digits: string, text: string)
    requires AllDigits(digits) && Lacks(text, 'x')
    ensures Lacks(digits + text, 'x')
  {
  }

  /** Digits, an x and digits: what follows either number is ignored, as from_chars does. */
  lemma ResolutionIsRead(width: string, a: string, height: string, b: string)
    requires AllDigits(width) && width != "" && EndsNumber(a) && Lacks(a, 'x')
    requires AllDigits(height) && height != "" && EndsNumber(b)
    ensures ParseResolution((width + a) + ("x" + (height + b))) ==
            if Value(width) <= 0xFFFF_FFFF && Value(height) <= 0xFFFF_FFFF then
              Some(Resolution(Value(width), Value(height)))
            else None
  {
    NoXBefore(width, a);
    ResolutionOfParts(width + a, height + b);
    DigitsAreRead(width, a, U32_MAX);
    DigitsAreRead(height, b, U32_MAX);
  }

  /** Without an x between them there is no resolution. */
  lemma NoResolution(text: string)
    requires Lacks(text, 'x')
    ensures ParseResolution(text) == None
  {
  }

  /** An attribute the parser can use. */
  predicate Usable(a: Attribute) {
    || a.key == "CODECS"
    || (a.key == "BANDWIDTH" && ParseUint(a.value, 0xFFFF_FFFF).Some?)
    || (a.key == "RESOLUTION" && ParseResolution(a.value).Some?)
    || (a.key == "FRAME-RATE" && ParseFloat(a.value).Some?)
  }

  /** The last usable attribute with the key, if any. */
  function LastUsable(list: seq<Attribute>, key: string): Option<string> {
    if list == [] then None
    else
      var last := list[|list| - 1];
      if last.key == key && Usable(last) then Some(last.value) else LastUsable(list[..|list| - 1], key)
  }

  lemma {:induction false} AttributesOneMore(v: Variant, list: seq<Attribute>, last: Attribute)
    ensures ApplyAttributes(v, list + [last]) == ApplyAttribute(ApplyAttributes(v, list), last)
    decreases |list|
  {
    if list == [] {
      assert list + [last] == [last] && [last][1..] == [];
    } else {
      assert (list + [last])[1..] == list[1..] + [last];
      AttributesOneMore(ApplyAttribute(v, list[0]), list[1..], last);
    }
  }

  lemma OneAttribute(v: Variant, a: Attribute)
    ensures
      var r := ApplyAttribute(v, a);
      && r.uri == v.uri
      && (if a.key == "BANDWIDTH" && Usable(a) then ParseUint(a.value, 0xFFFF_FFFF) == Some(r.bandwidth)
          else r.bandwidth == v.bandwidth)
      && (if a.key == "RESOLUTION" && Usable(a) then ParseResolution(a.value) == Some(r.resolution)
          else r.resolution == v.resolution)
      && (if a.key == "FRAME-RATE" && Usable(a) then ParseFloat(a.value) == Some(r.frameRate)
          else r.frameRate == v.frameRate)
      && (if a.key == "CODECS" && Usable(a) then r.codecs == a.value else r.codecs == v.codecs)
  {
  }

  lemma LastUsableOneMore(list: seq<Attribute>, last: Attribute, key: string)
    ensures LastUsable(list + [last], key) ==
            if last.key == key && Usable(last) then Some(last.value) else LastUsable(list, key)
  {
    assert (list + [last])[..|list|] == list;
  }

  /**
    The last usable attribute of each kind decides, unusable ones and all others change nothing,
    and no attribute touches the URI.
   */
  lemma {:induction false} AttributesMeaning(v: Variant, list: seq<Attribute>)
    ensures
      var r := ApplyAttributes(v, list);
      && r.uri == v.uri
      && (match LastUsable(list, "BANDWIDTH")
          case None => r.bandwidth == v.bandwidth
          case Some(text) => ParseUint(text, 0xFFFF_FFFF) == Some(r.bandwidth))
      && (match LastUsable(list, "RESOLUTION")
          case None => r.resolution == v.resolution
          case Some(text) => ParseResolution(text) == Some(r.resolution))
      && (match LastUsable(list, "FRAME-RATE")
          case None => r.frameRate == v.frameRate
          case Some(text) => ParseFloat(text) == Some(r.frameRate))
      && (match LastUsable(list, "CODECS")
          case None => r.codecs == v.codecs
          case Some(text) => r.codecs == text)
    decreases |list|
  {
    if list != [] {
      var init, last := list[..|list| - 1], list[|list| - 1];
      assert list == init + [last];
      AttributesMeaning(v, init);
      AttributesOneMore(v, init, last);
      OneAttribute(ApplyAttributes(v, init), last);
      LastUsableOneMore(init, last, "BANDWIDTH");
      LastUsableOneMore(init, last, "RESOLUTION");
      LastUsableOneMore(init, last, "FRAME-RATE");
      LastUsableOneMore(init, last, "CODECS");
    }
  }

  // ---------- Sequence indices ----------

  /** The line with number i among the segment lines. */
  lemma {:induction false} SegmentLineOf(m: Manifest, n: nat, i: nat) returns (k: nat)
    requires n <= |m| && i < SegmentCount(m, n)
    ensures k < n && SegmentLine(m, k) && SegmentCount(m, k) == i
  {
    if SegmentCount(m, n - 1) > i {
      k := SegmentLineOf(m, n - 1, i);
    } else {
      k := n - 1;
    }
  }

  /**
    When the media sequence number stands before the first segment line and is not changed
    after it, segment i has index number + i (in 64 bits): consecutive, as RFC 8216 section
    4.3.3.2 asks.
   */
  lemma IndicesCountUp(m: Manifest, segments: seq<Segment>, number: nat, i: nat)
    requires SegmentsOf(m, |m|, segments) && i < |segments|
    requires forall k | 0 <= k < |m| && SegmentLine(m, k) :: MediaSequenceAt(m, k) == number
    ensures segments[i].sequenceIndex == (number + i) % U64
  {
    var k := SegmentLineOf(m, |m|, i);
    assert SegmentListed(m, k, segments);
  }

  // ---------- The finished playlist ----------

  predicate AtLeast(bandwidth: nat, vs: seq<Variant>) {
    forall k | 0 <= k < |vs| :: bandwidth <= vs[k].bandwidth
  }

  lemma {:induction false} InsertSorted(v: Variant, vs: seq<Variant>, low: nat)
    requires SortedByBandwidth(vs) && AtLeast(low, vs) && low <= v.bandwidth
    ensures SortedByBandwidth(Insert(v, vs)) && AtLeast(low, Insert(v, vs))
  {
    if vs != [] && v.bandwidth >= vs[0].bandwidth {
      InsertSorted(v, vs[1..], vs[0].bandwidth);
    }
  }

  lemma {:induction false} InsertPermutes(v: Variant, vs: seq<Variant>)
    ensures multiset(Insert(v, vs)) == multiset(vs) + multiset{v} && |Insert(v, vs)| == |vs| + 1
  {
    if vs != [] && v.bandwidth >= vs[0].bandwidth {
      InsertPermutes(v, vs[1..]);
      assert vs == [vs[0]] + vs[1..];
    }
  }

  lemma LastApart(vs: seq<Variant>)
    requires vs != []
    ensures multiset(vs) == multiset(vs[..|vs| - 1]) + multiset{vs[|vs| - 1]}
  {
    assert vs == vs[..|vs| - 1] + [vs[|vs| - 1]];
  }

  /** The variants of a finished playlist are those read, in ascending bandwidth. */
  lemma {:induction false} SortedPermutation(vs: seq<Variant>)
    ensures SortedByBandwidth(Sort(vs)) && multiset(Sort(vs)) == multiset(vs) && |Sort(vs)| == |vs|
    decreases |vs|
  {
    if vs != [] {
      var last, rest := vs[|vs| - 1], vs[..|vs| - 1];
      SortedPermutation(rest);
      InsertSorted(last, Sort(rest), 0);
      InsertPermutes(last, Sort(rest));
      LastApart(vs);
    }
  }

  /** What the whole manifest says about its playlist. */
  ghost predicate PlaylistOf(m: Manifest, p: Playlist) {
    && p.mediaSequence == MediaSequenceAt(m, |m|)
    && p.targetDuration == TargetDurationAt(m, |m|)
    && (p.hasEndlist <==> Latest(m, 0, |m|, EndMark) != -1)
    && p.playlistType == (if VariantCount(m, |m|) > 0 then Master else if p.hasEndlist then MediaVOD else MediaLive)
    && SegmentsOf(m, |m|, p.segments)
    && SortedByBandwidth(p.variants)
    && exists read :: VariantsOf(m, |m|, read) && multiset(p.variants) == multiset(read)
  }

  /**
    The finished playlist is what the manifest says: a master exactly when it lists variants,
    which are a sorted permutation of those the lines name; otherwise complete exactly when an
    end-of-list line was read.
   */
  lemma FinishedPlaylist(m: Manifest)
    requires FoldLines(START, m).Ok?
    ensures
      var p := Finalize(FoldLines(START, m).value.playlist);
      PlaylistOf(m, p) && |p.segments| + |p.variants| == UriCount(m, |m|)
  {
    ParseMeaning(m);
    FinalizedIsPlaylist(m, FoldLines(START, m).value);
  }

  lemma FinalizedIsPlaylist(m: Manifest, st: State)
    requires StateAt(m, |m|, st)
    ensures PlaylistOf(m, Finalize(st.playlist))
    ensures |Finalize(st.playlist).variants| == |st.playlist.variants|
  {
    SortedPermutation(st.playlist.variants);
    assert VariantsOf(m, |m|, st.playlist.variants);
  }
}
