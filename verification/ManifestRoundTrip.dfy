/**
  Printing and reading back: whatever media or master playlist is printed line by line, the
  parser returns it. The two manifest builders of the stress tests are instances.
 */
module ManifestRoundTrip {
  import opened Wrappers
  import opened Machine
  import opened Text
  import opened Numbers
  import opened Playlist
  import opened ManifestParser
  import A = AttributeScanner
  import W = ManifestText
  import opened ManifestMeaning

  // ---------- Lines the parser knows ----------

  /** A line that the reader yields as it is. */
  predicate PlainLine(line: string) {
    line != "" && OneLine(line) && Trimmed(line)
  }

  /** A URI that can stand on a line of its own. */
  predicate PrintableUri(uri: string) {
    PlainLine(uri) && !("#" <= uri)
  }

  lemma {:induction false} FirstMatchFrom(line: string, i: nat, k: nat)
    requires i <= k < |TAG_TABLE| && TAG_TABLE[k].0 <= line
    requires forall j | i <= j < k :: !(TAG_TABLE[j].0 <= line)
    ensures FirstMatch(line, i) == Tagged(TAG_TABLE[k].1)
    decreases k - i
  {
    if i < k {
      FirstMatchFrom(line, i + 1, k);
    }
  }

  /** No table entry but the one at k is a prefix of a line that starts with it. */
  lemma TaggedLine(k: nat, payload: string)
    requires k < |TAG_TABLE|
    ensures KindOf(TAG_TABLE[k].0 + payload) == Tagged(TAG_TABLE[k].1)
    ensures Payload(TAG_TABLE[k].0 + payload, |TAG_TABLE[k].0|) == payload
  {
    var prefix := TAG_TABLE[k].0;
    var line := prefix + payload;
    assert line[0] == prefix[0] == '#' && line[4] == prefix[4] && line[7] == prefix[7];
    forall j | 0 <= j < k ensures !(TAG_TABLE[j].0 <= line) {
      var other := TAG_TABLE[j].0;
      assert other[4] != prefix[4] || other[7] != prefix[7];
    }
    FirstMatchFrom(line, 0, k);
    assert line[|prefix|..] == payload;
  }

  lemma {:induction false} NoMatchFrom(line: string, i: nat)
    requires i <= |TAG_TABLE| && forall j | i <= j < |TAG_TABLE| :: !(TAG_TABLE[j].0 <= line)
    ensures FirstMatch(line, i) == Ignored
    decreases |TAG_TABLE| - i
  {
    if i < |TAG_TABLE| {
      NoMatchFrom(line, i + 1);
    }
  }

  lemma StartsWithEntry(k: nat, line: string)
    requires k < |TAG_TABLE| && TAG_TABLE[k].0 <= line
    ensures Lex(line) == LexTag(TAG_TABLE[k].1, line) && Payload(line, |TAG_TABLE[k].0|) == line[|TAG_TABLE[k].0|..]
  {
    TaggedLine(k, line[|TAG_TABLE[k].0|..]);
    assert line == TAG_TABLE[k].0 + line[|TAG_TABLE[k].0|..];
  }

  /** A line with a value after its tag says what its text says. */
  lemma ValuedLinesSay(line: string)
    ensures "#EXTINF:" <= line ==> Lex(line) == DurationToken(ParseFloat(UpToComma(line[8..])))
    ensures "#EXT-X-TARGETDURATION:" <= line ==> Lex(line) == TargetToken(ParseUint(line[22..], 0xFFFF_FFFF))
    ensures "#EXT-X-MEDIA-SEQUENCE:" <= line ==>
              Lex(line) == SequenceToken(ParseUint(line[22..], 0xFFFF_FFFF_FFFF_FFFF))
    ensures "#EXT-X-STREAM-INF:" <= line ==> Lex(line) == VariantToken(A.Scan(line[18..], 0))
  {
    if "#EXTINF:" <= line {
      StartsWithEntry(0, line);
    }
    if "#EXT-X-TARGETDURATION:" <= line {
      StartsWithEntry(1, line);
    }
    if "#EXT-X-MEDIA-SEQUENCE:" <= line {
      StartsWithEntry(2, line);
    }
    if "#EXT-X-STREAM-INF:" <= line {
      StartsWithEntry(5, line);
    }
  }

  /** A comment, or a tag the parser has no entry for. */
  predicate Unknown(line: string) {
    && "#" <= line && !("#EXTINF:" <= line) && !("#EXT-X-TARGETDURATION:" <= line)
    && !("#EXT-X-MEDIA-SEQUENCE:" <= line) && !("#EXT-X-ENDLIST" <= line)
    && !("#EXT-X-DISCONTINUITY" <= line) && !("#EXT-X-STREAM-INF:" <= line)
  }

  /** The other lines are URIs, flags, or say nothing. */
  lemma OtherLinesSay(line: string)
    ensures !("#" <= line) ==> Lex(line) == UriToken(line)
    ensures "#EXT-X-ENDLIST" <= line ==> Lex(line) == EndToken
    ensures "#EXT-X-DISCONTINUITY" <= line ==> Lex(line) == DiscontinuityToken
    ensures Unknown(line) ==> Lex(line) == OtherToken
  {
    if "#EXT-X-ENDLIST" <= line {
      StartsWithEntry(3, line);
    }
    if "#EXT-X-DISCONTINUITY" <= line {
      StartsWithEntry(4, line);
    }
    if Unknown(line) {
      UnknownMatchesNothing(line);
    }
  }

  lemma UnknownMatchesNothing(line: string)
    requires Unknown(line)
    ensures FirstMatch(line, 0) == Ignored
  {
    assert !(TAG_TABLE[0].0 <= line) && !(TAG_TABLE[1].0 <= line) && !(TAG_TABLE[2].0 <= line);
    assert !(TAG_TABLE[3].0 <= line) && !(TAG_TABLE[4].0 <= line) && !(TAG_TABLE[5].0 <= line);
    NoMatchFrom(line, 0);
  }

  lemma LexDuration(text: string)
    requires A.Lacks(text, ',')
    ensures Lex("#EXTINF:" + text + ",") == DurationToken(ParseFloat(text))
  {
    assert "#EXTINF:" + text + "," == "#EXTINF:" + (text + ",");
    TaggedLine(0, text + ",");
    CommaEndsText(text);
  }

  lemma CommaEndsText(text: string)
    requires A.Lacks(text, ',')
    ensures UpToComma(text + ",") == text
  {
    var s := text + ",";
    assert s[|text|] == ',' && forall k | 0 <= k < |text| :: s[k] == text[k];
    assert FindFrom(s, ',', 0) == |text|;
    assert s[..|text|] == text;
  }

  lemma ParseOfWhole(n: nat, max: nat)
    ensures n <= max ==> ParseUint(Decimal(n), max) == Some(n)
  {
    assert Decimal(n) + "" == Decimal(n);
    ParseOfDecimal(n, "", max);
  }

  lemma LexTarget(n: nat)
    requires n <= U32_MAX
    ensures Lex("#EXT-X-TARGETDURATION:" + Decimal(n)) == TargetToken(Some(n))
  {
    TaggedLine(1, Decimal(n));
    ParseOfWhole(n, U32_MAX);
  }

  lemma LexSequence(n: nat)
    requires n < U64
    ensures Lex("#EXT-X-MEDIA-SEQUENCE:" + Decimal(n)) == SequenceToken(Some(n))
  {
    TaggedLine(2, Decimal(n));
    ParseOfWhole(n, U64 - 1);
  }

  lemma LexFlags()
    ensures Lex("#EXT-X-ENDLIST") == EndToken && Lex("#EXT-X-DISCONTINUITY") == DiscontinuityToken
  {
    TaggedLine(3, "");
    TaggedLine(4, "");
    assert "#EXT-X-ENDLIST" + "" == "#EXT-X-ENDLIST";
    assert "#EXT-X-DISCONTINUITY" + "" == "#EXT-X-DISCONTINUITY";
  }

  lemma LexVariant(list: seq<A.Printed>)
    requires forall k | 0 <= k < |list| :: A.Printable(list[k])
    ensures Lex("#EXT-X-STREAM-INF:" + A.Print(list)) == VariantToken(A.Pairs(list))
  {
    StreamInfLine(A.Print(list));
    A.AttributeListRoundTrip(list);
  }

  lemma StreamInfLine(payload: string)
    ensures Lex("#EXT-X-STREAM-INF:" + payload) == VariantToken(A.Scan(payload, 0))
  {
    TaggedLine(5, payload);
  }

  /** The pass over the lines, from number first on, ends in st'. */
  predicate Reads(st: State, lines: seq<string>, first: nat, st': State) {
    Fold(st, Entries(lines, first)) == Ok(st')
  }

  lemma ReadsNothing(st: State, first: nat)
    ensures Reads(st, [], first, st)
  {
  }

  lemma ReadsLine(st: State, line: string, first: nat, st': State)
    requires PlainLine(line) && Step(st, line, first) == Ok(st')
    ensures Reads(st, [line], first, st')
  {
    assert [line] + [] == [line];
    EntriesOfFirst(line, [], first);
    TrimOfTrimmed(line);
    assert Entries([line], first) == [Entry(line, first)];
    W.FoldOfOne(st, Entry(line, first));
  }

  lemma ReadsThen(st: State, a: seq<string>, first: nat, st': State, b: seq<string>, st'': State)
    requires Reads(st, a, first, st') && Reads(st', b, first + |a|, st'')
    ensures Reads(st, a + b, first, st'')
  {
    EntriesOfConcat(a, b, first);
    W.FoldOfConcat(st, Entries(a, first), Entries(b, first + |a|));
  }

  lemma ParseOfLines(rest: seq<string>, st: State)
    requires AllOneLine(rest) && Reads(START, rest, 2, st)
    ensures Parse(Unlines(["#EXTM3U"] + rest)) == Ok(Finalize(st.playlist))
  {
    HeaderIsNoBom(rest);
    OneLineMore("#EXTM3U", rest);
    LinesOfUnlines(["#EXTM3U"] + rest);
    HeaderEntry(rest);
    ParseAfterHeader(Entries(rest, 2));
  }

  predicate AllOneLine(lines: seq<string>) {
    forall k | 0 <= k < |lines| :: OneLine(lines[k])
  }

  lemma OneLineMore(line: string, rest: seq<string>)
    requires OneLine(line) && AllOneLine(rest)
    ensures AllOneLine([line] + rest)
  {
  }

  lemma HeaderIsNoBom(rest: seq<string>)
    ensures
      var text := Unlines(["#EXTM3U"] + rest);
      text != "" && StripBom(text) == text
  {
    UnlinesOfFirst("#EXTM3U", rest);
    assert Unlines(["#EXTM3U"] + rest)[0] == '#' && BOM[0] != '#';
  }

  lemma HeaderEntry(rest: seq<string>)
    ensures Entries(["#EXTM3U"] + rest, 1) == [Entry("#EXTM3U", 1)] + Entries(rest, 2)
  {
    EntriesOfFirst("#EXTM3U", rest, 1);
    TrimOfTrimmed("#EXTM3U");
  }

  lemma ParseAfterHeader(rest: seq<Entry>)
    ensures Fold(START, rest).Ok? ==>
              ParseEntries([Entry("#EXTM3U", 1)] + rest) == Ok(Finalize(Fold(START, rest).value.playlist))
  {
    assert ([Entry("#EXTM3U", 1)] + rest)[1..] == rest;
  }

  // ---------- Media playlists ----------

  /** A segment to print; the duration may be any text that reads as the number. */
  datatype Item = Item(uri: string, duration: string, seconds: Float, discontinuity: bool)

  predicate PrintableItem(item: Item) {
    && PrintableUri(item.uri)
    && OneLine(item.duration) && A.Lacks(item.duration, ',') && ParseFloat(item.duration) == Some(item.seconds)
  }

  function DurationTag(item: Item): string {
    "#EXTINF:" + item.duration + ","
  }

  function ItemLines(item: Item): seq<string> {
    (if item.discontinuity then ["#EXT-X-DISCONTINUITY"] else []) + [DurationTag(item), item.uri]
  }

  function AllItemLines(items: seq<Item>): seq<string> {
    if items == [] then [] else ItemLines(items[0]) + AllItemLines(items[1..])
  }

  function MediaLines(target: nat, number: nat, items: seq<Item>, ended: bool): seq<string> {
    [TargetTag(target), SequenceTag(number)] + AllItemLines(items) + EndLines(ended)
  }

  function EndLines(ended: bool): seq<string> {
    if ended then ["#EXT-X-ENDLIST"] else []
  }

  function PrintMedia(target: nat, number: nat, items: seq<Item>, ended: bool): string {
    Unlines(["#EXTM3U"] + MediaLines(target, number, items, ended))
  }

  function SegmentPrinted(item: Item, number: nat, i: nat): Segment
  {
    Segment(item.uri, item.seconds, SequenceIndex(number, i), item.discontinuity)
  }

  /** The segments of the items, the first of which has position i. */
  function SegmentsPrinted(items: seq<Item>, number: nat, i: nat): seq<Segment>
  {
    seq(|items|, k requires 0 <= k < |items| => SegmentPrinted(items[k], number, i + k))
  }

  /** Between two segments, with no variant announced. */
  predicate AtRest(st: State) {
    !st.pending.active && !st.segment.active && !st.segment.discontinuity
  }

  /** The state after one more segment. */
  function WithSegment(st: State, item: Item): State
  {
    var segment := SegmentPrinted(item, st.playlist.mediaSequence, |st.playlist.segments|);
    st.(playlist := st.playlist.(segments := st.playlist.segments + [segment]),
        segment := SegmentBuilder(false, segment.duration, false))
  }

  lemma UriIsCommitted(st: State, item: Item, number: nat)
    requires PrintableItem(item) && !st.pending.active && st.segment.active
    requires st.segment.duration == item.seconds && st.segment.discontinuity == item.discontinuity
    ensures Step(st, item.uri, number) == Ok(WithSegment(st, item))
  {
  }

  lemma PlainTags(item: Item)
    requires OneLine(item.duration)
    ensures PlainLine(DurationTag(item)) && PlainLine("#EXT-X-DISCONTINUITY")
  {
    var line := DurationTag(item);
    OneLineConcat("#EXTINF:", item.duration);
    OneLineConcat("#EXTINF:" + item.duration, ",");
    PlainTagTexts();
    assert line[0] == '#' && line[|line| - 1] == ',';
  }

  lemma PlainTagTexts()
    ensures OneLine("#EXTINF:") && OneLine(",") && PlainLine("#EXT-X-DISCONTINUITY")
  {
  }

  lemma ReadsTagAndUri(st: State, item: Item, first: nat)
    requires PrintableItem(item) && !st.pending.active && st.segment.discontinuity == item.discontinuity
    ensures Reads(st, [DurationTag(item), item.uri], first, WithSegment(st, item))
  {
    PlainTags(item);
    LexDuration(item.duration);
    var st' := st.(segment := SegmentBuilder(true, item.seconds, item.discontinuity));
    ReadsLine(st, DurationTag(item), first, st');
    UriIsCommitted(st', item, first + 1);
    ReadsLine(st', item.uri, first + 1, WithSegment(st, item));
    ReadsThen(st, [DurationTag(item)], first, st', [item.uri], WithSegment(st, item));
    assert [DurationTag(item)] + [item.uri] == [DurationTag(item), item.uri];
  }

  lemma ReadsItem(st: State, item: Item, first: nat)
    requires PrintableItem(item) && AtRest(st)
    ensures Reads(st, ItemLines(item), first, WithSegment(st, item))
  {
    if item.discontinuity {
      PlainTags(item);
      LexFlags();
      var st' := st.(segment := st.segment.(discontinuity := true));
      ReadsLine(st, "#EXT-X-DISCONTINUITY", first, st');
      ReadsTagAndUri(st', item, first + 1);
      ReadsThen(st, ["#EXT-X-DISCONTINUITY"], first, st', [DurationTag(item), item.uri], WithSegment(st, item));
    } else {
      ReadsTagAndUri(st, item, first);
      assert ItemLines(item) == [DurationTag(item), item.uri];
    }
  }

  /** What the printed items leave behind. */
  predicate ItemsRead(st: State, items: seq<Item>, st': State)
  {
    && AtRest(st') && st'.pending == st.pending
    && st'.playlist == st.playlist.(segments := st.playlist.segments
         + SegmentsPrinted(items, st.playlist.mediaSequence, |st.playlist.segments|))
  }

  lemma OneLineConcat(a: string, b: string)
    ensures OneLine(a + b) <==> OneLine(a) && OneLine(b)
  {
    assert forall k | 0 <= k < |a| :: (a + b)[k] == a[k];
    assert forall k | 0 <= k < |b| :: (a + b)[|a| + k] == b[k];
  }

  predicate PrintableItems(items: seq<Item>) {
    forall k | 0 <= k < |items| :: PrintableItem(items[k])
  }

  /** The state after the printed items. */
  function AfterItems(st: State, items: seq<Item>): State
    decreases |items|
  {
    if items == [] then st else AfterItems(WithSegment(st, items[0]), items[1..])
  }

  lemma {:induction false} ReadsItems(st: State, items: seq<Item>, first: nat)
    requires AtRest(st) && PrintableItems(items)
    ensures Reads(st, AllItemLines(items), first, AfterItems(st, items))
    decreases |items|
  {
    if items == [] {
      ReadsNothing(st, first);
    } else {
      var middle, others := WithSegment(st, items[0]), AllItemLines(items[1..]);
      MorePrintable(items);
      ReadsItem(st, items[0], first);
      ReadsItems(middle, items[1..], first + |ItemLines(items[0])|);
      ReadsThen(st, ItemLines(items[0]), first, middle, others, AfterItems(st, items));
    }
  }

  lemma MorePrintable(items: seq<Item>)
    requires items != [] && PrintableItems(items)
    ensures PrintableItem(items[0]) && PrintableItems(items[1..])
  {
  }

  lemma {:induction false} ItemsAreSegments(st: State, items: seq<Item>)
    requires AtRest(st)
    ensures ItemsRead(st, items, AfterItems(st, items))
    decreases |items|
  {
    if items == [] {
      NoItemsRead(st);
    } else {
      ItemsAreSegments(WithSegment(st, items[0]), items[1..]);
      FirstItemRead(st, items, AfterItems(st, items));
    }
  }

  lemma NoItemsRead(st: State)
    requires AtRest(st)
    ensures ItemsRead(st, [], st)
  {
    var none := SegmentsPrinted([], st.playlist.mediaSequence, |st.playlist.segments|);
    assert st.playlist.segments + none == st.playlist.segments;
  }

  lemma FirstItemRead(st: State, items: seq<Item>, st': State)
    requires items != []
    requires ItemsRead(WithSegment(st, items[0]), items[1..], st')
    ensures ItemsRead(st, items, st')
  {
    var number, n := st.playlist.mediaSequence, |st.playlist.segments|;
    var one := [SegmentPrinted(items[0], number, n)];
    assert SegmentsPrinted(items, number, n) == one + SegmentsPrinted(items[1..], number, n + 1);
    ConcatAssociates([], st.playlist.segments, one, SegmentsPrinted(items[1..], number, n + 1));
  }

  function TargetTag(n: nat): string {
    "#EXT-X-TARGETDURATION:" + Decimal(n)
  }

  function SequenceTag(n: nat): string {
    "#EXT-X-MEDIA-SEQUENCE:" + Decimal(n)
  }

  lemma ReadsHeaders(target: nat, number: nat)
    requires target <= U32_MAX && number < U64
    ensures Reads(START, [TargetTag(target), SequenceTag(number)], 2, AfterHeaders(target, number))
  {
    PlainNumberTag("#EXT-X-TARGETDURATION:", target);
    PlainNumberTag("#EXT-X-MEDIA-SEQUENCE:", number);
    LexTarget(target);
    LexSequence(number);
    var st1 := START.(playlist := EMPTY_PLAYLIST.(targetDuration := target));
    var st2 := START.(playlist := EMPTY_PLAYLIST.(targetDuration := target, mediaSequence := number));
    ReadsLine(START, TargetTag(target), 2, st1);
    ReadsLine(st1, SequenceTag(number), 3, st2);
    ReadsThen(START, [TargetTag(target)], 2, st1, [SequenceTag(number)], st2);
    assert [TargetTag(target)] + [SequenceTag(number)] == [TargetTag(target), SequenceTag(number)];
  }

  lemma PlainNumberTag(prefix: string, n: nat)
    requires PlainLine(prefix)
    ensures PlainLine(prefix + Decimal(n))
  {
    var digits := Decimal(n);
    var line := prefix + digits;
    assert line[0] == prefix[0] && line[|line| - 1] == digits[|digits| - 1];
    assert forall k | |prefix| <= k < |line| :: line[k] == digits[k - |prefix|] && IsDigit(digits[k - |prefix|]);
  }

  lemma ReadsEnd(st: State, ended: bool, first: nat)
    requires st.playlist.playlistType == MediaVOD && !st.playlist.hasEndlist
    ensures Reads(st, EndLines(ended), first, WithEnd(st, ended))
  {
    if ended {
      LexFlags();
      ReadsLine(st, "#EXT-X-ENDLIST", first, st.(playlist := st.playlist.(hasEndlist := true)));
    } else {
      ReadsNothing(st, first);
    }
  }

  lemma AllOneLineConcat(a: seq<string>, b: seq<string>)
    requires AllOneLine(a) && AllOneLine(b)
    ensures AllOneLine(a + b)
  {
  }

  lemma {:induction false} ItemLinesAreOneLine(items: seq<Item>)
    requires PrintableItems(items)
    ensures AllOneLine(AllItemLines(items))
  {
    if items != [] {
      PlainTags(items[0]);
      ItemLinesAreOneLine(items[1..]);
      AllOneLineConcat(ItemLines(items[0]), AllItemLines(items[1..]));
    }
  }

  lemma HeadersAreOneLine(target: nat, number: nat)
    ensures AllOneLine([TargetTag(target), SequenceTag(number)])
  {
    PlainNumberTag("#EXT-X-TARGETDURATION:", target);
    PlainNumberTag("#EXT-X-MEDIA-SEQUENCE:", number);
  }

  lemma MediaLinesAreOneLine(target: nat, number: nat, items: seq<Item>, ended: bool)
    requires PrintableItems(items)
    ensures AllOneLine(MediaLines(target, number, items, ended))
  {
    var headers, lines, end := [TargetTag(target), SequenceTag(number)], AllItemLines(items), EndLines(ended);
    HeadersAreOneLine(target, number);
    ItemLinesAreOneLine(items);
    EndIsOneLine(ended);
    AllOneLineConcat(headers, lines);
    AllOneLineConcat(headers + lines, end);
  }

  lemma EndIsOneLine(ended: bool)
    ensures AllOneLine(EndLines(ended))
  {
  }

  function AfterHeaders(target: nat, number: nat): State {
    START.(playlist := EMPTY_PLAYLIST.(targetDuration := target, mediaSequence := number))
  }

  /** The state after all lines but the last. */
  lemma MediaState(target: nat, number: nat, items: seq<Item>) returns (st: State)
    ensures st == AfterItems(AfterHeaders(target, number), items)
    ensures st.playlist == Playlist(MediaVOD, target, number, false, SegmentsPrinted(items, number, 0), [])
  {
    st := AfterItems(AfterHeaders(target, number), items);
    ItemsAreSegments(AfterHeaders(target, number), items);
    assert [] + SegmentsPrinted(items, number, 0) == SegmentsPrinted(items, number, 0);
  }

  lemma ReadsHeadersAndItems(target: nat, number: nat, items: seq<Item>)
    requires target <= U32_MAX && number < U64 && PrintableItems(items)
    ensures Reads(START, [TargetTag(target), SequenceTag(number)] + AllItemLines(items), 2,
                  AfterItems(AfterHeaders(target, number), items))
  {
    var st := AfterHeaders(target, number);
    ReadsHeaders(target, number);
    ReadsItems(st, items, 4);
    ReadsThen(START, [TargetTag(target), SequenceTag(number)], 2, st, AllItemLines(items), AfterItems(st, items));
  }

  function WithEnd(st: State, ended: bool): State {
    st.(playlist := st.playlist.(hasEndlist := ended))
  }

  lemma ReadsToEnd(lines: seq<string>, st: State, ended: bool)
    requires Reads(START, lines, 2, st)
    requires st.playlist.playlistType == MediaVOD && !st.playlist.hasEndlist
    ensures Reads(START, lines + EndLines(ended), 2, WithEnd(st, ended))
  {
    ReadsEnd(st, ended, 2 + |lines|);
    ReadsThen(START, lines, 2, st, EndLines(ended), WithEnd(st, ended));
  }

  lemma ReadsMedia(target: nat, number: nat, items: seq<Item>, ended: bool) returns (st: State)
    requires target <= U32_MAX && number < U64 && PrintableItems(items)
    ensures Reads(START, MediaLines(target, number, items, ended), 2, st)
    ensures st.playlist == Playlist(MediaVOD, target, number, ended, SegmentsPrinted(items, number, 0), [])
  {
    var st' := MediaState(target, number, items);
    ReadsHeadersAndItems(target, number, items);
    ReadsToEnd([TargetTag(target), SequenceTag(number)] + AllItemLines(items), st', ended);
    st := WithEnd(st', ended);
  }

  /**
    A printed media playlist is read back as printed: same target duration and sequence number,
    the same segments in the same order with consecutive indices, complete or live.
   */
  lemma MediaRoundTrip(target: nat, number: nat, items: seq<Item>, ended: bool)
    requires target <= U32_MAX && number < U64 && PrintableItems(items)
    ensures Parse(PrintMedia(target, number, items, ended)) ==
            Ok(Playlist(if ended then MediaVOD else MediaLive, target, number, ended,
                        SegmentsPrinted(items, number, 0), []))
  {
    var st := ReadsMedia(target, number, items, ended);
    MediaLinesAreOneLine(target, number, items, ended);
    ParseOfLines(MediaLines(target, number, items, ended), st);
  }

  // ---------- Master playlists ----------

  /** A variant to print: its attributes and its URI. */
  datatype Entrant = Entrant(attributes: seq<A.Printed>, uri: string)

  function VariantTag(e: Entrant): string {
    "#EXT-X-STREAM-INF:" + A.Print(e.attributes)
  }

  predicate PrintableEntrant(e: Entrant) {
    && PrintableUri(e.uri) && PlainLine(VariantTag(e))
    && forall k | 0 <= k < |e.attributes| :: A.Printable(e.attributes[k])
  }

  function AllEntrantLines(es: seq<Entrant>): seq<string> {
    if es == [] then [] else [VariantTag(es[0]), es[0].uri] + AllEntrantLines(es[1..])
  }

  function PrintMaster(es: seq<Entrant>): string {
    Unlines(["#EXTM3U"] + AllEntrantLines(es))
  }

  function VariantPrinted(e: Entrant): Variant {
    ApplyAttributes(NO_VARIANT, A.Pairs(e.attributes)).(uri := e.uri)
  }

  function VariantsPrinted(es: seq<Entrant>): seq<Variant> {
    seq(|es|, k requires 0 <= k < |es| => VariantPrinted(es[k]))
  }

  lemma ReadsEntrant(st: State, e: Entrant, first: nat)
    requires PrintableEntrant(e) && st.pending == PendingVariant(false, NO_VARIANT)
    ensures Reads(st, [VariantTag(e), e.uri], first, WithVariants(st, [VariantPrinted(e)]))
  {
    var announced := st.(pending := PendingVariant(true, ApplyAttributes(NO_VARIANT, A.Pairs(e.attributes))));
    ReadsVariantTag(st, e, first);
    ReadsVariantUri(announced, e.uri, first + 1);
    ReadsThen(st, [VariantTag(e)], first, announced, [e.uri], WithVariants(st, [VariantPrinted(e)]));
    assert [VariantTag(e)] + [e.uri] == [VariantTag(e), e.uri];
  }

  lemma ReadsVariantTag(st: State, e: Entrant, first: nat)
    requires PrintableEntrant(e) && st.pending == PendingVariant(false, NO_VARIANT)
    ensures Reads(st, [VariantTag(e)], first,
                  st.(pending := PendingVariant(true, ApplyAttributes(NO_VARIANT, A.Pairs(e.attributes)))))
  {
    LexVariant(e.attributes);
    ReadsLine(st, VariantTag(e), first,
              st.(pending := PendingVariant(true, ApplyAttributes(NO_VARIANT, A.Pairs(e.attributes)))));
  }

  lemma ReadsVariantUri(st: State, uri: string, first: nat)
    requires PrintableUri(uri) && st.pending.active
    ensures Reads(st, [uri], first,
                  WithVariants(st, [st.pending.variant.(uri := uri)]).(pending := PendingVariant(false, NO_VARIANT)))
  {
    ReadsLine(st, uri, first,
              WithVariants(st, [st.pending.variant.(uri := uri)]).(pending := PendingVariant(false, NO_VARIANT)));
  }

  function WithVariants(st: State, vs: seq<Variant>): State {
    st.(playlist := st.playlist.(variants := st.playlist.variants + vs))
  }

  lemma WithVariantsTwice(st: State, vs: seq<Variant>, ws: seq<Variant>)
    ensures WithVariants(WithVariants(st, vs), ws) == WithVariants(st, vs + ws)
    ensures WithVariants(st, []) == st
  {
    ConcatAssociates([], st.playlist.variants, vs, ws);
    assert st.playlist.variants + [] == st.playlist.variants;
  }

  predicate PrintableEntrants(es: seq<Entrant>) {
    forall k | 0 <= k < |es| :: PrintableEntrant(es[k])
  }

  lemma FirstPrinted(es: seq<Entrant>)
    requires es != []
    ensures VariantsPrinted(es) == [VariantPrinted(es[0])] + VariantsPrinted(es[1..])
  {
  }

  lemma {:induction false} ReadsEntrants(st: State, es: seq<Entrant>, first: nat)
    requires st.pending == PendingVariant(false, NO_VARIANT) && PrintableEntrants(es)
    ensures Reads(st, AllEntrantLines(es), first, WithVariants(st, VariantsPrinted(es)))
    decreases |es|
  {
    if es == [] {
      ReadsNothing(st, first);
      WithVariantsTwice(st, [], []);
      assert VariantsPrinted(es) == [];
    } else {
      var one, rest := [VariantPrinted(es[0])], VariantsPrinted(es[1..]);
      ReadsEntrant(st, es[0], first);
      ReadsEntrants(WithVariants(st, one), es[1..], first + 2);
      FirstPrinted(es);
      WithVariantsTwice(st, one, rest);
      ReadsThen(st, [VariantTag(es[0]), es[0].uri], first, WithVariants(st, one),
                AllEntrantLines(es[1..]), WithVariants(st, one + rest));
    }
  }

  lemma {:induction false} EntrantLinesAreOneLine(es: seq<Entrant>)
    requires PrintableEntrants(es)
    ensures AllOneLine(AllEntrantLines(es))
  {
    if es != [] {
      EntrantLinesAreOneLine(es[1..]);
      AllOneLineConcat([VariantTag(es[0]), es[0].uri], AllEntrantLines(es[1..]));
    }
  }

  /** The result is a master playlist with these variants, in some order of ascending bandwidth. */
  ghost predicate MasterWith(r: Result<Playlist, ParseError>, vs: seq<Variant>) {
    && r.Ok?
    && r.value == EMPTY_PLAYLIST.(playlistType := Master, variants := r.value.variants)
    && SortedByBandwidth(r.value.variants) && multiset(r.value.variants) == multiset(vs)
  }

  /** A printed master playlist is read back with its variants, sorted by bandwidth. */
  lemma MasterRoundTrip(es: seq<Entrant>)
    requires PrintableEntrants(es)
    ensures es == [] ==> Parse(PrintMaster(es)) == Ok(EMPTY_PLAYLIST.(playlistType := MediaLive))
    ensures es != [] ==> MasterWith(Parse(PrintMaster(es)), VariantsPrinted(es))
  {
    EntrantLinesAreOneLine(es);
    ReadsEntrants(START, es, 2);
    ParseOfLines(AllEntrantLines(es), WithVariants(START, VariantsPrinted(es)));
    assert [] + VariantsPrinted(es) == VariantsPrinted(es);
    SortedPermutation(VariantsPrinted(es));
  }
}
