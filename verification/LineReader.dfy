/** LineReader: iterating over the lines of a manifest without copying them. */
module LineReader {
  import opened Wrappers
  import opened Text

  /** A view into the content: text == content[start .. start + |text|]. */
  datatype LineEntry = LineEntry(text: string, start: nat, number: nat)

  /** The part of the content that has not been read yet, as numbered lines. */
  function Unread(content: string, cursor: nat, lineNumber: nat): seq<Entry>
    requires cursor <= |content|
  {
    Entries(Lines(content[cursor..]), lineNumber + 1)
  }

  class LineReader {
    const content: string
    var cursor: nat
    var currentLine: nat

    predicate Valid()
      reads this
    {
      cursor <= |content|
    }

    /** What the reader will still yield. */
    function Rest(): seq<Entry>
      reads this
      requires Valid()
    {
      Unread(content, cursor, currentLine)
    }

    constructor (content: string)
      ensures Valid() && this.content == content
      ensures Rest() == Entries(Lines(content), 1)
    {
      this.content := content;
      this.cursor := 0;
      this.currentLine := 0;
      new;
      assert content[0..] == content;
    }

    /** Yields the next line that is not empty, or nothing at the end. */
    method Next() returns (r: Option<LineEntry>)
      requires Valid()
      modifies this
      ensures Valid() && old(cursor) <= cursor
      ensures r.None? ==> old(Rest()) == [] && Rest() == []
      ensures r.Some? ==>
                && old(cursor) < cursor
                && old(Rest()) == [Entry(r.value.text, r.value.number)] + Rest()
                && old(cursor) <= r.value.start
                && r.value.start + |r.value.text| <= cursor
                && content[r.value.start..r.value.start + |r.value.text|] == r.value.text
    {
      while cursor < |content|
        invariant old(cursor) <= cursor <= |content|
        invariant Rest() == old(Rest())
      {
        var lo, hi := TakeLine();
        if lo < hi {
          return Some(LineEntry(content[lo..hi], lo, currentLine));
        }
      }
      assert content[cursor..] == "";
      r := None;
    }

    /** One round of the loop: cut a line, count it, trim it. */
    method TakeLine() returns (lo: nat, hi: nat)
      requires Valid() && cursor < |content|
      modifies this
      ensures Valid() && old(cursor) <= lo <= hi <= cursor && old(cursor) < cursor
      ensures old(Rest()) == (if lo < hi then [Entry(content[lo..hi], currentLine)] else []) + Rest()
    {
      UnreadLine(content, cursor, currentLine);
      var newline := LineEnd(content, cursor);
      lo, hi := TrimView(content, cursor, newline);
      EntryOfView(content, cursor, newline, lo, hi, currentLine + 1);
      ghost var next := NextLine(content, cursor);
      cursor := if newline == |content| then |content| else newline + 1;
      currentLine := currentLine + 1;
      assert cursor == next && Rest() == Unread(content, next, currentLine);
    }

    /** trim: shrinks a view of the content from both ends. */
    static method TrimView(content: string, lo: nat, hi: nat) returns (l: nat, h: nat)
      requires lo <= hi <= |content|
      ensures lo <= l <= h <= hi
      ensures content[l..h] == Trim(content[lo..hi])
    {
      l, h := lo, hi;
      while l < h && IsBack(content[h - 1])
        invariant lo == l <= h <= hi
        invariant TrimBack(content[l..h]) == TrimBack(content[lo..hi])
      {
        assert content[l..h][..h - l - 1] == content[l..h - 1];
        h := h - 1;
      }
      while l < h && IsFront(content[l])
        invariant lo <= l <= h <= hi
        invariant TrimFront(content[l..h]) == Trim(content[lo..hi])
      {
        assert content[l..h][1..] == content[l + 1..h];
        l := l + 1;
      }
    }
  }

  /** Where the line that starts at from ends, and where the one after it starts. */
  function LineEnd(content: string, from: nat): (p: nat)
    requires from <= |content|
    ensures from <= p <= |content|
  {
    FindFrom(content, '\n', from)
  }

  function NextLine(content: string, from: nat): (p: nat)
    requires from < |content|
    ensures from < p <= |content| && LineEnd(content, from) <= p
  {
    var p := LineEnd(content, from);
    if p == |content| then p else p + 1
  }

  lemma LinesFrom(content: string, from: nat)
    requires from < |content|
    ensures Lines(content[from..]) ==
            [content[from..LineEnd(content, from)]] + Lines(content[NextLine(content, from)..])
  {
    var p := LineEnd(content, from);
    var line, rest := content[from..p], content[NextLine(content, from)..];
    if p == |content| {
      assert content[from..] == line && rest == "";
      OnlyLine(line);
    } else {
      assert content[from..] == line + [content[p]] + rest;
      FirstLine(line, rest);
    }
  }

  /** Reading one line takes exactly its entry, if it has one, from what is unread. */
  lemma UnreadLine(content: string, cursor: nat, lineNumber: nat)
    requires cursor < |content|
    ensures Unread(content, cursor, lineNumber) ==
            EntryOf(content[cursor..LineEnd(content, cursor)], lineNumber + 1)
            + Unread(content, NextLine(content, cursor), lineNumber + 1)
  {
    LinesFrom(content, cursor);
    EntriesOfFirst(content[cursor..LineEnd(content, cursor)], Lines(content[NextLine(content, cursor)..]),
                   lineNumber + 1);
  }

  lemma EntryOfView(content: string, from: nat, p: nat, lo: nat, hi: nat, number: nat)
    requires from <= p <= |content| && lo <= hi <= |content| && content[lo..hi] == Trim(content[from..p])
    ensures EntryOf(content[from..p], number) == if lo < hi then [Entry(content[lo..hi], number)] else []
  {
  }

  // ---------- Views ----------

  /** Where in the content a line lies. */
  datatype Span = Span(lo: nat, hi: nat)

  function LeadingBlanks(s: string): (n: nat)
    ensures n + |TrimFront(s)| == |s| && s[n..] == TrimFront(s)
  {
    if s != "" && IsFront(s[0]) then 1 + LeadingBlanks(s[1..]) else 0
  }

  lemma {:induction false} TrimBackIsPrefix(s: string)
    ensures |TrimBack(s)| <= |s| && s[..|TrimBack(s)|] == TrimBack(s)
  {
    if s != "" && IsBack(s[|s| - 1]) {
      TrimBackIsPrefix(s[..|s| - 1]);
    }
  }

  /** The span of what is left of a piece after trimming. */
  function SpanOf(content: string, from: nat, p: nat): Span
    requires from <= p <= |content|
  {
    var lo := from + LeadingBlanks(TrimBack(content[from..p]));
    Span(lo, lo + |Trim(content[from..p])|)
  }

  /** The spans of the lines that are not empty, from position from on. */
  function Spans(content: string, from: nat): seq<Span>
    requires from <= |content|
    decreases |content| - from
  {
    if from == |content| then []
    else
      var p := LineEnd(content, from);
      (if Trim(content[from..p]) == "" then [] else [SpanOf(content, from, p)])
      + Spans(content, NextLine(content, from))
  }

  predicate IsView(content: string, span: Span, text: string) {
    span.lo <= span.hi <= |content| && content[span.lo..span.hi] == text
  }

  lemma SliceOfSlice(s: string, from: nat, to: nat, lo: nat, hi: nat)
    requires from <= to <= |s| && lo <= hi <= to - from
    ensures s[from..to][lo..hi] == s[from + lo..from + hi]
  {
    var a, b := s[from..to][lo..hi], s[from + lo..from + hi];
    assert |a| == |b| && forall k | 0 <= k < |a| :: a[k] == b[k];
  }

  lemma TrimmedPieceIsView(content: string, from: nat, p: nat)
    requires from <= p <= |content|
    ensures
      var span := SpanOf(content, from, p);
      from <= span.lo && span.hi <= p && IsView(content, span, Trim(content[from..p]))
  {
    var piece := content[from..p];
    TrimBackIsPrefix(piece);
    var n, m := LeadingBlanks(TrimBack(piece)), |TrimBack(piece)|;
    assert piece[..m][n..] == piece[n..m];
    SliceOfSlice(content, from, p, n, m);
  }

  /** The spans lie at or after from, in order and without overlap, and show the entries. */
  predicate OrderedViews(content: string, from: nat, spans: seq<Span>, entries: seq<Entry>) {
    && |spans| == |entries|
    && (forall k | 0 <= k < |spans| :: IsView(content, spans[k], entries[k].text) && from <= spans[k].lo)
    && (forall i, j | 0 <= i < j < |spans| :: spans[i].hi <= spans[j].lo)
  }

  lemma PrependView(content: string, from: nat, next: nat, span: Span, entry: Entry, spans: seq<Span>,
                    entries: seq<Entry>)
    requires OrderedViews(content, next, spans, entries)
    requires IsView(content, span, entry.text) && from <= span.lo && span.hi <= next
    ensures OrderedViews(content, from, [span] + spans, [entry] + entries)
  {
    var spans', entries' := [span] + spans, [entry] + entries;
    forall k | 0 <= k < |spans'| ensures IsView(content, spans'[k], entries'[k].text) && from <= spans'[k].lo {
      if k > 0 {
        assert spans'[k] == spans[k - 1] && entries'[k] == entries[k - 1];
      }
    }
  }

  /**
    Reading copies nothing: every line yielded is an in-bounds view of the content, and the views
    go forward without overlap.
   */
  lemma {:induction false} LinesAreOrderedViews(content: string, from: nat, lineNumber: nat)
    requires from <= |content|
    ensures OrderedViews(content, from, Spans(content, from), Unread(content, from, lineNumber))
    decreases |content| - from
  {
    if from == |content| {
      assert content[from..] == "";
    } else {
      var p, next := LineEnd(content, from), NextLine(content, from);
      UnreadLine(content, from, lineNumber);
      LinesAreOrderedViews(content, next, lineNumber + 1);
      OneMoreView(content, from, p, next, lineNumber + 1, Spans(content, next), Unread(content, next, lineNumber + 1));
    }
  }

  lemma NoMoreView(content: string, from: nat, next: nat, spans: seq<Span>, entries: seq<Entry>)
    requires from <= next && OrderedViews(content, next, spans, entries)
    ensures OrderedViews(content, from, [] + spans, [] + entries)
  {
    assert [] + spans == spans && [] + entries == entries;
  }

  /** One line more in front. */
  lemma OneMoreView(content: string, from: nat, p: nat, next: nat, number: nat, spans: seq<Span>, entries: seq<Entry>)
    requires from <= p <= next <= |content| && OrderedViews(content, next, spans, entries)
    ensures OrderedViews(content, from,
                         (if Trim(content[from..p]) == "" then [] else [SpanOf(content, from, p)]) + spans,
                         EntryOf(content[from..p], number) + entries)
  {
    var trimmed := Trim(content[from..p]);
    TrimmedPieceIsView(content, from, p);
    if trimmed == "" {
      NoMoreView(content, from, next, spans, entries);
    } else {
      PrependView(content, from, next, SpanOf(content, from, p), Entry(trimmed, number), spans, entries);
    }
  }
}
