/**
  From text to meaning: the theorems about the parser's pass, which are about lines, carried over
  to whole manifests.
 */
module ManifestText {
  import opened Wrappers
  import opened Text
  import opened Playlist
  import opened ManifestParser
  import M = ManifestMeaning
  import R = LineReader

  // ---------- The pass over texts is the pass over lines ----------

  lemma {:induction false} FoldOfConcat(st: State, a: seq<Entry>, b: seq<Entry>)
    ensures
      var r := Fold(st, a);
      Fold(st, a + b) == if r.Err? then r else Fold(r.value, b)
    decreases a
  {
    if a == [] {
      assert a + b == b;
    } else {
      assert a + b == [a[0]] + (a[1..] + b) && a == [a[0]] + a[1..];
      FoldOfFirst(st, a[0], a[1..] + b);
      var r := Step(st, a[0].text, a[0].number);
      if r.Ok? {
        FoldOfConcat(r.value, a[1..], b);
      }
    }
  }

  lemma FoldOfOne(st: State, e: Entry)
    ensures Fold(st, [e]) == Step(st, e.text, e.number)
  {
    FoldOfFirst(st, e, []);
    assert [e] + [] == [e];
  }

  lemma {:induction false} FoldIsFoldLines(entries: seq<Entry>, n: nat)
    requires n <= |entries|
    ensures Fold(START, entries[..n]) == M.FoldLines(START, M.LinesOf(entries)[..n])
  {
    if n > 0 {
      FoldIsFoldLines(entries, n - 1);
      FoldOneMore(entries, n - 1);
      M.FoldOneMore(START, M.LinesOf(entries), n - 1);
    }
  }

  lemma FoldOneMore(entries: seq<Entry>, n: nat)
    requires n < |entries|
    ensures
      var r := Fold(START, entries[..n]);
      Fold(START, entries[..n + 1]) == if r.Err? then r else Step(r.value, entries[n].text, entries[n].number)
  {
    assert entries[..n + 1] == entries[..n] + [entries[n]];
    FoldOfConcat(START, entries[..n], [entries[n]]);
    var r := Fold(START, entries[..n]);
    if r.Ok? {
      FoldOfOne(r.value, entries[n]);
    }
  }

  /** The numbered lines of a manifest, its byte order mark set aside. */
  function EntriesIn(content: string): seq<Entry> {
    Entries(Lines(StripBom(content)), 1)
  }

  predicate HasHeader(entries: seq<Entry>) {
    entries != [] && "#EXTM3U" <= entries[0].text
  }

  /** The lines after the header. */
  function Body(content: string): M.Manifest
    requires HasHeader(EntriesIn(content))
  {
    M.LinesOf(EntriesIn(content)[1..])
  }

  /**
    A manifest is accepted exactly when it begins with the header and every further line is
    accepted; the playlist is then what those lines say.
   */
  lemma ParseMeansItsLines(content: string)
    ensures Parse(content).Ok? <==>
              && HasHeader(EntriesIn(content))
              && forall k | 0 <= k < |Body(content)| :: M.LineAccepted(Body(content), k)
    ensures Parse(content).Ok? ==>
              var m, p := Body(content), Parse(content).value;
              M.PlaylistOf(m, p) && |p.segments| + |p.variants| == M.UriCount(m, |m|)
  {
    var entries := EntriesIn(content);
    assert StripBom(content) == "" ==> entries == [];
    if HasHeader(entries) {
      var m := Body(content);
      FoldIsFoldLines(entries[1..], |m|);
      assert entries[1..][..|m|] == entries[1..] && m[..|m|] == m;
      M.ParseMeaning(m);
      if M.FoldLines(START, m).Ok? {
        M.FinishedPlaylist(m);
      }
    }
  }

  lemma ParsedSegments(content: string)
    requires Parse(content).Ok?
    ensures HasHeader(EntriesIn(content))
    ensures M.SegmentsOf(Body(content), |Body(content)|, Parse(content).value.segments)
  {
    ParseMeansItsLines(content);
  }

  lemma ParsedVariantsAreSorted(content: string)
    requires Parse(content).Ok?
    ensures SortedByBandwidth(Parse(content).value.variants)
  {
    ParseMeansItsLines(content);
  }

  /** What is reported of a text that is not accepted: it is empty, or has no header, or a line is at fault. */
  lemma ManifestError(content: string)
    ensures StripBom(content) == "" ==>
              Parse(content) == Err(ParseError(EmptyContent, 0, "Manifest content is empty"))
    ensures
      var entries := EntriesIn(content);
      StripBom(content) != "" && !HasHeader(entries) ==>
        Parse(content) ==
          Err(ParseError(InvalidHeader, if entries == [] then 0 else entries[0].number, "Missing #EXTM3U tag"))
    ensures HasHeader(EntriesIn(content)) ==>
              StripBom(content) != "" && forall k | M.RejectedFirst(Body(content), k) ::
                Parse(content) == Err(M.ErrorAt(Body(content), k))
  {
    if HasHeader(EntriesIn(content)) {
      forall k | M.RejectedFirst(Body(content), k) ensures Parse(content) == Err(M.ErrorAt(Body(content), k)) {
        LineErrorIsReported(content, k);
      }
    }
  }

  lemma LineErrorIsReported(content: string, k: nat)
    requires HasHeader(EntriesIn(content)) && M.RejectedFirst(Body(content), k)
    ensures Parse(content) == Err(M.ErrorAt(Body(content), k))
  {
    var entries, m := EntriesIn(content), Body(content);
    FoldIsFoldLines(entries[1..], |m|);
    assert entries[1..][..|m|] == entries[1..] && m[..|m|] == m;
    M.FirstRejectedIsReported(m, k);
  }

  // ---------- Views ----------

  /** The spans, among those of all lines, of the segment lines before n. */
  ghost function SegmentSpans(m: M.Manifest, spans: seq<R.Span>, n: nat): seq<R.Span>
    requires n <= |m| && |spans| == |m|
  {
    if n == 0 then []
    else SegmentSpans(m, spans, n - 1) + if M.SegmentLine(m, n - 1) then [spans[n - 1]] else []
  }

  /** The spans show the URIs of the first segments, go forward and end by limit. */
  predicate ViewsOf(text: string, spans: seq<R.Span>, segments: seq<Segment>, limit: nat) {
    && |spans| <= |segments|
    && (forall i | 0 <= i < |spans| :: R.IsView(text, spans[i], segments[i].uri) && spans[i].hi <= limit)
    && (forall i, j | 0 <= i < j < |spans| :: spans[i].hi <= spans[j].lo)
  }

  lemma AppendView(text: string, spans: seq<R.Span>, segments: seq<Segment>, limit: nat, span: R.Span)
    requires ViewsOf(text, spans, segments, limit) && |spans| < |segments|
    requires R.IsView(text, span, segments[|spans|].uri) && limit <= span.lo
    ensures ViewsOf(text, spans + [span], segments, span.hi)
  {
  }

  /** Where the line before n ends. */
  function Limit(spans: seq<R.Span>, n: nat): nat
    requires n <= |spans|
  {
    if n == 0 then 0 else spans[n - 1].hi
  }

  /** The spans of the lines go forward, and those of URI lines show the URIs. */
  ghost predicate SpansOfLines(text: string, m: M.Manifest, spans: seq<R.Span>) {
    && |spans| == |m|
    && (forall k | 0 <= k < |m| :: spans[k].lo <= spans[k].hi)
    && (forall k | 0 <= k < |m| :: m[k].token.UriToken? ==> R.IsView(text, spans[k], m[k].token.uri))
    && (forall i, j | 0 <= i < j < |m| :: spans[i].hi <= spans[j].lo)
  }

  /** Each segment line has its URI at its place among the segments. */
  ghost predicate UrisListed(m: M.Manifest, segments: seq<Segment>) {
    forall k | 0 <= k < |m| && M.SegmentLine(m, k) :: UriListed(m, k, segments)
  }

  ghost predicate UriListed(m: M.Manifest, k: nat, segments: seq<Segment>)
    requires k < |m|
  {
    && m[k].token.UriToken? && M.SegmentCount(m, k) < |segments|
    && segments[M.SegmentCount(m, k)].uri == m[k].token.uri
  }

  lemma SegmentsHaveUris(m: M.Manifest, segments: seq<Segment>)
    requires M.SegmentsOf(m, |m|, segments)
    ensures UrisListed(m, segments)
  {
    forall k | 0 <= k < |m| && M.SegmentLine(m, k) ensures UriListed(m, k, segments) {
      assert M.SegmentListed(m, k, segments);
    }
  }

  /** The spans so far are as many as the segment lines before n, and show their URIs. */
  ghost predicate SpansShown(text: string, m: M.Manifest, n: nat, shown: seq<R.Span>, segments: seq<Segment>,
                             limit: nat)
    requires n <= |m|
  {
    |shown| == M.SegmentCount(m, n) && ViewsOf(text, shown, segments, limit)
  }

  lemma LaterLimit(text: string, shown: seq<R.Span>, segments: seq<Segment>, limit: nat, limit': nat)
    requires ViewsOf(text, shown, segments, limit) && limit <= limit'
    ensures ViewsOf(text, shown, segments, limit')
  {
  }

  lemma SegmentSpanShown(text: string, m: M.Manifest, n: nat, shown: seq<R.Span>, segments: seq<Segment>,
                         limit: nat, span: R.Span)
    requires n < |m| && SpansShown(text, m, n, shown, segments, limit)
    requires M.SegmentLine(m, n) && UriListed(m, n, segments)
    requires R.IsView(text, span, m[n].token.uri) && limit <= span.lo
    ensures SpansShown(text, m, n + 1, shown + [span], segments, span.hi)
  {
    AppendView(text, shown, segments, limit, span);
  }

  lemma OtherSpanPassed(text: string, m: M.Manifest, n: nat, shown: seq<R.Span>, segments: seq<Segment>,
                        limit: nat, span: R.Span)
    requires n < |m| && SpansShown(text, m, n, shown, segments, limit)
    requires !M.SegmentLine(m, n) && limit <= span.lo <= span.hi
    ensures SpansShown(text, m, n + 1, shown, segments, span.hi)
  {
    LaterLimit(text, shown, segments, limit, span.hi);
  }

  lemma LimitBeforeNext(text: string, m: M.Manifest, spans: seq<R.Span>, n: nat)
    requires SpansOfLines(text, m, spans) && n < |m|
    ensures Limit(spans, n) <= spans[n].lo <= spans[n].hi == Limit(spans, n + 1)
    ensures m[n].token.UriToken? ==> R.IsView(text, spans[n], m[n].token.uri)
  {
  }

  lemma {:induction false} SegmentSpansAreViews(text: string, m: M.Manifest, spans: seq<R.Span>, n: nat,
                                                segments: seq<Segment>)
    requires SpansOfLines(text, m, spans) && UrisListed(m, segments) && n <= |m|
    ensures SpansShown(text, m, n, SegmentSpans(m, spans, n), segments, Limit(spans, n))
  {
    if n > 0 {
      var before := SegmentSpans(m, spans, n - 1);
      SegmentSpansAreViews(text, m, spans, n - 1, segments);
      LimitBeforeNext(text, m, spans, n - 1);
      if M.SegmentLine(m, n - 1) {
        assert UriListed(m, n - 1, segments);
        SegmentSpanShown(text, m, n - 1, before, segments, Limit(spans, n - 1), spans[n - 1]);
      } else {
        OtherSpanPassed(text, m, n - 1, before, segments, Limit(spans, n - 1), spans[n - 1]);
      }
      OneMoreSpan(m, spans, n - 1);
    }
  }

  lemma OneMoreSpan(m: M.Manifest, spans: seq<R.Span>, n: nat)
    requires n < |m| == |spans|
    ensures SegmentSpans(m, spans, n + 1) ==
            if M.SegmentLine(m, n) then SegmentSpans(m, spans, n) + [spans[n]] else SegmentSpans(m, spans, n)
  {
  }

  lemma UriTokenIsLine(line: string)
    ensures Lex(line).UriToken? ==> Lex(line).uri == line
  {
  }

  lemma ViewsAreSpansOfLines(text: string, spans: seq<R.Span>, entries: seq<Entry>)
    requires R.OrderedViews(text, 0, spans, entries)
    ensures SpansOfLines(text, M.LinesOf(entries), spans)
  {
    forall k | 0 <= k < |entries|
      ensures spans[k].lo <= spans[k].hi
      ensures Lex(entries[k].text).UriToken? ==> R.IsView(text, spans[k], Lex(entries[k].text).uri)
    {
      assert R.IsView(text, spans[k], entries[k].text);
      UriTokenIsLine(entries[k].text);
    }
  }

  /** The spans of the lines after the header. */
  lemma LinesHaveSpans(content: string) returns (spans: seq<R.Span>)
    requires HasHeader(EntriesIn(content))
    ensures SpansOfLines(StripBom(content), Body(content), spans)
  {
    var text, entries := StripBom(content), EntriesIn(content);
    R.LinesAreOrderedViews(text, 0, 0);
    assert text[0..] == text;
    var all := R.Spans(text, 0);
    spans := all[1..];
    ViewsWithoutFirst(text, all, entries);
    ViewsAreSpansOfLines(text, spans, entries[1..]);
  }

  lemma ViewsWithoutFirst(text: string, spans: seq<R.Span>, entries: seq<Entry>)
    requires R.OrderedViews(text, 0, spans, entries) && entries != []
    ensures R.OrderedViews(text, 0, spans[1..], entries[1..])
  {
  }

  /**
    Nothing is copied: the segment URIs of a parsed manifest are in-bounds views of its text,
    which go forward and do not overlap.
   */
  lemma SegmentUrisAreViews(content: string) returns (spans: seq<R.Span>)
    requires Parse(content).Ok?
    ensures
      var text, segments := StripBom(content), Parse(content).value.segments;
      && |spans| == |segments|
      && (forall i | 0 <= i < |spans| :: R.IsView(text, spans[i], segments[i].uri))
      && (forall i, j | 0 <= i < j < |spans| :: spans[i].hi <= spans[j].lo)
  {
    var segments := Parse(content).value.segments;
    ParsedSegments(content);
    SegmentsHaveUris(Body(content), segments);
    var all := LinesHaveSpans(content);
    SegmentSpansAreViews(StripBom(content), Body(content), all, |Body(content)|, segments);
    spans := SegmentSpans(Body(content), all, |Body(content)|);
    assert |spans| == |segments|;
  }
}
