/**
  The HLS manifest parser: one pass over the numbered lines with two pending builders.

  The functions of this module say what one line does to the state; the class is the parser
  itself, which works on the state in place.
 */
module ManifestParser {
  import opened Wrappers
  import opened Machine
  import opened Text
  import opened Numbers
  import opened Playlist
  import R = LineReader
  import A = AttributeScanner

  datatype ErrorCode = EmptyContent | InvalidHeader | InvalidFormat | MissingMandatoryTags

  datatype ParseError = ParseError(code: ErrorCode, lineNumber: nat, message: string)

  datatype SegmentBuilder = SegmentBuilder(active: bool, duration: Float, discontinuity: bool)

  datatype PendingVariant = PendingVariant(active: bool, variant: Variant)

  datatype State = State(playlist: Playlist, segment: SegmentBuilder, pending: PendingVariant)

  const START := State(EMPTY_PLAYLIST, SegmentBuilder(false, Finite(0.0), false), PendingVariant(false, NO_VARIANT))

  // ---------- Kinds of lines ----------

  datatype Tag = ExtInf | TargetDuration | MediaSequence | EndList | Discontinuity | StreamInf

  const TAG_TABLE: seq<(string, Tag)> := [
    ("#EXTINF:", ExtInf),
    ("#EXT-X-TARGETDURATION:", TargetDuration),
    ("#EXT-X-MEDIA-SEQUENCE:", MediaSequence),
    ("#EXT-X-ENDLIST", EndList),
    ("#EXT-X-DISCONTINUITY", Discontinuity),
    ("#EXT-X-STREAM-INF:", StreamInf)]

  datatype Kind = Uri | Tagged(tag: Tag) | Ignored

  /** The first table entry, from i on, whose prefix the line starts with. */
  function FirstMatch(line: string, i: nat): Kind
    requires i <= |TAG_TABLE|
    decreases |TAG_TABLE| - i
  {
    if i == |TAG_TABLE| then Ignored
    else if TAG_TABLE[i].0 <= line then Tagged(TAG_TABLE[i].1)
    else FirstMatch(line, i + 1)
  }

  function KindOf(line: string): Kind {
    if "#" <= line then FirstMatch(line, 0) else Uri
  }

  // ---------- What one line does ----------

  /** The text of a tag after its prefix. */
  function Payload(line: string, n: nat): string {
    if n <= |line| then line[n..] else ""
  }

  function UpToComma(s: string): string {
    s[..FindFrom(s, ',', 0)]
  }

  function DurationText(line: string): string {
    UpToComma(Payload(line, 8))
  }

  function ParseResolution(text: string): Option<Resolution> {
    var x := FindFrom(text, 'x', 0);
    if x == |text| then None
    else
      match (ParseUint(text[..x], U32_MAX), ParseUint(text[x + 1..], U32_MAX))
      case (Some(width), Some(height)) => Some(Resolution(width, height))
      case _ => None
  }

  function ApplyAttribute(v: Variant, a: A.Attribute): Variant {
    if a.key == "BANDWIDTH" then
      var bandwidth := ParseUint(a.value, U32_MAX);
      if bandwidth.Some? then v.(bandwidth := bandwidth.value) else v
    else if a.key == "RESOLUTION" then
      var resolution := ParseResolution(a.value);
      if resolution.Some? then v.(resolution := resolution.value) else v
    else if a.key == "FRAME-RATE" then
      var rate := ParseFloat(a.value);
      if rate.Some? then v.(frameRate := rate.value) else v
    else if a.key == "CODECS" then v.(codecs := a.value)
    else v
  }

  function ApplyAttributes(v: Variant, list: seq<A.Attribute>): Variant
    decreases list
  {
    if list == [] then v else ApplyAttributes(ApplyAttribute(v, list[0]), list[1..])
  }

  /** A line as far as the parser understands it. */
  datatype Token =
    | UriToken(uri: string)
    | DurationToken(duration: Option<Float>)
    | TargetToken(seconds: Option<nat>)
    | SequenceToken(first: Option<nat>)
    | EndToken
    | DiscontinuityToken
    | VariantToken(attributes: seq<A.Attribute>)
    | OtherToken

  function LexTag(tag: Tag, line: string): Token {
    match tag
    case ExtInf => DurationToken(ParseFloat(DurationText(line)))
    case TargetDuration => TargetToken(ParseUint(Payload(line, 22), U32_MAX))
    case MediaSequence => SequenceToken(ParseUint(Payload(line, 22), U64 - 1))
    case EndList => EndToken
    case Discontinuity => DiscontinuityToken
    case StreamInf => VariantToken(A.Scan(Payload(line, 18), 0))
  }

  function Lex(line: string): Token {
    match KindOf(line)
    case Uri => UriToken(line)
    case Tagged(tag) => LexTag(tag, line)
    case Ignored => OtherToken
  }

  /** In 64 bits. */
  function SequenceIndex(first: nat, count: nat): nat {
    (first + count) % U64
  }

  function SegmentCommitted(st: State, uri: string, number: nat): Result<State, ParseError> {
    if !st.segment.active then
      Err(ParseError(MissingMandatoryTags, number, "Segment URI without preceding #EXTINF"))
    else
      var index := SequenceIndex(st.playlist.mediaSequence, |st.playlist.segments|);
      var segment := Segment(uri, st.segment.duration, index, st.segment.discontinuity);
      Ok(st.(playlist := st.playlist.(segments := st.playlist.segments + [segment]),
             segment := st.segment.(active := false, discontinuity := false)))
  }

  function VariantCommitted(st: State, uri: string, number: nat): Result<State, ParseError> {
    if !st.pending.active then
      Err(ParseError(MissingMandatoryTags, number, "Variant URI without preceding #EXT-X-STREAM-INF"))
    else
      Ok(st.(playlist := st.playlist.(variants := st.playlist.variants + [st.pending.variant.(uri := uri)]),
             pending := PendingVariant(false, NO_VARIANT)))
  }

  /** A URI line; a pending variant goes first. */
  function CommitUri(st: State, uri: string, number: nat): Result<State, ParseError> {
    if st.pending.active then VariantCommitted(st, uri, number) else SegmentCommitted(st, uri, number)
  }

  function Apply(st: State, token: Token, number: nat): Result<State, ParseError> {
    match token
    case UriToken(uri) => CommitUri(st, uri, number)
    case DurationToken(None) => Err(ParseError(InvalidFormat, number, "Malformed #EXTINF duration"))
    case DurationToken(Some(d)) => Ok(st.(segment := st.segment.(duration := d, active := true)))
    case TargetToken(seconds) =>
      Ok(if seconds.Some? then st.(playlist := st.playlist.(targetDuration := seconds.value)) else st)
    case SequenceToken(first) =>
      Ok(if first.Some? then st.(playlist := st.playlist.(mediaSequence := first.value)) else st)
    case EndToken => Ok(st.(playlist := st.playlist.(hasEndlist := true, playlistType := MediaVOD)))
    case DiscontinuityToken => Ok(st.(segment := st.segment.(discontinuity := true)))
    case VariantToken(attributes) =>
      Ok(st.(pending := PendingVariant(true, ApplyAttributes(st.pending.variant, attributes))))
    case OtherToken => Ok(st)
  }

  function Step(st: State, line: string, number: nat): Result<State, ParseError> {
    Apply(st, Lex(line), number)
  }

  /** All lines, up to the first that is rejected. */
  function Fold(st: State, entries: seq<Entry>): Result<State, ParseError>
    decreases entries
  {
    if entries == [] then Ok(st)
    else
      var r := Step(st, entries[0].text, entries[0].number);
      if r.Err? then r else Fold(r.value, entries[1..])
  }

  lemma FoldOfFirst(st: State, e: Entry, rest: seq<Entry>)
    ensures
      var r := Step(st, e.text, e.number);
      Fold(st, [e] + rest) == if r.Err? then r else Fold(r.value, rest)
  {
    assert ([e] + rest)[1..] == rest;
  }

  lemma AttributesOfFirst(v: Variant, a: A.Attribute, rest: seq<A.Attribute>)
    ensures ApplyAttributes(v, [a] + rest) == ApplyAttributes(ApplyAttribute(v, a), rest)
  {
    assert ([a] + rest)[1..] == rest;
  }

  // ---------- The whole text ----------

  const BOM: string := ['\U{EF}', '\U{BB}', '\U{BF}']

  function StripBom(content: string): string {
    if BOM <= content then content[3..] else content
  }

  function Insert(v: Variant, vs: seq<Variant>): seq<Variant> {
    if vs == [] || v.bandwidth < vs[0].bandwidth then [v] + vs else [vs[0]] + Insert(v, vs[1..])
  }

  /** Stands for std::sort by ascending bandwidth: only a sorted permutation is relied on. */
  function Sort(vs: seq<Variant>): seq<Variant> {
    if vs == [] then [] else Insert(vs[|vs| - 1], Sort(vs[..|vs| - 1]))
  }

  function Finalize(p: Playlist): Playlist {
    if p.variants != [] then p.(playlistType := Master, variants := Sort(p.variants))
    else if !p.hasEndlist then p.(playlistType := MediaLive)
    else p
  }

  function ParseEntries(entries: seq<Entry>): Result<Playlist, ParseError> {
    if entries != [] && "#EXTM3U" <= entries[0].text then
      match Fold(START, entries[1..])
      case Err(e) => Err(e)
      case Ok(st) => Ok(Finalize(st.playlist))
    else
      Err(ParseError(InvalidHeader, if entries == [] then 0 else entries[0].number, "Missing #EXTM3U tag"))
  }

  function Parse(content: string): Result<Playlist, ParseError> {
    var text := StripBom(content);
    if text == "" then Err(ParseError(EmptyContent, 0, "Manifest content is empty"))
    else ParseEntries(Entries(Lines(text), 1))
  }

  // ---------- The parser ----------

  class Parser {
    var playlist: Playlist
    var segmentBuilder: SegmentBuilder
    var variantBuilder: PendingVariant

    function Value(): State
      reads this
    {
      State(playlist, segmentBuilder, variantBuilder)
    }

    constructor ()
      ensures Value() == START
    {
      playlist := EMPTY_PLAYLIST;
      segmentBuilder := SegmentBuilder(false, Finite(0.0), false);
      variantBuilder := PendingVariant(false, NO_VARIANT);
    }

    method CommitSegment(uri: string, number: nat) returns (err: Option<ParseError>)
      modifies this
      ensures Outcome(SegmentCommitted(old(Value()), uri, number), err, Value())
      ensures err.Some? ==> Value() == old(Value())
    {
      if !segmentBuilder.active {
        return Some(ParseError(MissingMandatoryTags, number, "Segment URI without preceding #EXTINF"));
      }
      var index := (playlist.mediaSequence + |playlist.segments|) % U64;
      var segment := Segment(uri, segmentBuilder.duration, index, segmentBuilder.discontinuity);
      playlist := playlist.(segments := playlist.segments + [segment]);
      segmentBuilder := segmentBuilder.(active := false, discontinuity := false);
      err := None;
    }

    method CommitVariant(uri: string, number: nat) returns (err: Option<ParseError>)
      modifies this
      ensures Outcome(VariantCommitted(old(Value()), uri, number), err, Value())
      ensures err.Some? ==> Value() == old(Value())
    {
      if !variantBuilder.active {
        return Some(ParseError(MissingMandatoryTags, number, "Variant URI without preceding #EXT-X-STREAM-INF"));
      }
      playlist := playlist.(variants := playlist.variants + [variantBuilder.variant.(uri := uri)]);
      variantBuilder := PendingVariant(false, NO_VARIANT);
      err := None;
    }

    method CommitUriLine(uri: string, number: nat) returns (err: Option<ParseError>)
      modifies this
      ensures Outcome(CommitUri(old(Value()), uri, number), err, Value())
      ensures err.Some? ==> Value() == old(Value())
    {
      if variantBuilder.active {
        err := CommitVariant(uri, number);
      } else {
        err := CommitSegment(uri, number);
      }
    }

    method ApplyStreamInfAttributes(attrs: string)
      modifies this`variantBuilder
      ensures variantBuilder ==
        old(variantBuilder).(variant := ApplyAttributes(old(variantBuilder).variant, A.Scan(attrs, 0)))
    {
      var scanner := new A.AttributeScanner(attrs);
      var variant := variantBuilder.variant;
      ghost var goal := ApplyAttributes(variant, A.Scan(attrs, 0));
      var attribute := scanner.Next();
      while attribute.Some?
        invariant scanner.Valid() && fresh(scanner) && scanner.attrs == attrs
        invariant variantBuilder == old(variantBuilder)
        invariant attribute.None? ==> variant == goal
        invariant attribute.Some? ==>
          ApplyAttributes(variant, [attribute.value] + A.Scan(attrs, scanner.cursor)) == goal
        decreases |attrs| - scanner.cursor, attribute.Some?
      {
        AttributesOfFirst(variant, attribute.value, A.Scan(attrs, scanner.cursor));
        variant := ApplyAttribute(variant, attribute.value);
        attribute := scanner.Next();
      }
      variantBuilder := variantBuilder.(variant := variant);
    }

    method Handle(tag: Tag, line: string, number: nat) returns (err: Option<ParseError>)
      modifies this
      ensures Outcome(Apply(old(Value()), LexTag(tag, line), number), err, Value())
      ensures err.Some? ==> Value() == old(Value())
    {
      err := None;
      match tag {
        case ExtInf =>
          var duration := ParseFloat(DurationText(line));
          if duration.None? {
            return Some(ParseError(InvalidFormat, number, "Malformed #EXTINF duration"));
          }
          segmentBuilder := segmentBuilder.(duration := duration.value, active := true);
        case TargetDuration =>
          var seconds := ParseUint(Payload(line, 22), U32_MAX);
          if seconds.Some? {
            playlist := playlist.(targetDuration := seconds.value);
          }
        case MediaSequence =>
          var first := ParseUint(Payload(line, 22), U64 - 1);
          if first.Some? {
            playlist := playlist.(mediaSequence := first.value);
          }
        case EndList =>
          playlist := playlist.(hasEndlist := true, playlistType := MediaVOD);
        case Discontinuity =>
          segmentBuilder := segmentBuilder.(discontinuity := true);
        case StreamInf =>
          variantBuilder := variantBuilder.(active := true);
          ApplyStreamInfAttributes(Payload(line, 18));
      }
    }

    method DispatchTag(line: string, number: nat) returns (err: Option<ParseError>)
      requires "#" <= line
      modifies this
      ensures Outcome(Step(old(Value()), line, number), err, Value())
      ensures err.Some? ==> Value() == old(Value())
    {
      var i := 0;
      while i < |TAG_TABLE|
        invariant i <= |TAG_TABLE| && Value() == old(Value())
        invariant FirstMatch(line, 0) == FirstMatch(line, i)
      {
        if TAG_TABLE[i].0 <= line {
          err := Handle(TAG_TABLE[i].1, line, number);
          return;
        }
        i := i + 1;
      }
      err := None;
    }

    /** One line, and what it means for the lines still to come. */
    method ParseLine(line: string, number: nat, ghost rest: seq<Entry>) returns (err: Option<ParseError>)
      modifies this
      ensures Outcome(Step(old(Value()), line, number), err, Value())
      ensures err.Some? ==> Value() == old(Value())
      ensures Fold(old(Value()), [Entry(line, number)] + rest) ==
              match err { case None => Fold(Value(), rest) case Some(e) => Err(e) }
    {
      FoldOfFirst(Value(), Entry(line, number), rest);
      if "#" <= line {
        err := DispatchTag(line, number);
      } else {
        err := CommitUriLine(line, number);
      }
    }

    method ParseLines(reader: R.LineReader) returns (err: Option<ParseError>)
      requires reader.Valid()
      modifies this, reader
      ensures Outcome(Fold(old(Value()), old(reader.Rest())), err, Value())
    {
      ghost var goal := Fold(Value(), reader.Rest());
      var entry := reader.Next();
      while entry.Some?
        invariant reader.Valid()
        invariant goal == Fold(Value(), WithEntry(entry, reader.Rest()))
        invariant entry.None? ==> reader.Rest() == []
        decreases |reader.content| - reader.cursor, entry.Some?
      {
        var line, number := entry.value.text, entry.value.number;
        err := ParseLine(line, number, reader.Rest());
        if err.Some? {
          return;
        }
        entry := reader.Next();
      }
      err := None;
    }
  }

  /** The lines still to come when one of them is in hand. */
  function WithEntry(entry: Option<R.LineEntry>, rest: seq<Entry>): seq<Entry> {
    if entry.Some? then [Entry(entry.value.text, entry.value.number)] + rest else rest
  }

  /** The outcome of a method that works in place: no error and the new state, or the error. */
  predicate Outcome(expected: Result<State, ParseError>, err: Option<ParseError>, st: State) {
    match err
    case None => expected == Ok(st)
    case Some(e) => expected == Err(e)
  }

  method ParseManifest(content: string) returns (r: Result<Playlist, ParseError>)
    ensures r == Parse(content)
  {
    var text := StripBom(content);
    if text == "" {
      return Err(ParseError(EmptyContent, 0, "Manifest content is empty"));
    }
    var reader := new R.LineReader(text);
    var first := reader.Next();
    if first.None? || !("#EXTM3U" <= first.value.text) {
      return Err(ParseError(InvalidHeader, if first.None? then 0 else first.value.number, "Missing #EXTM3U tag"));
    }
    var parser := new Parser();
    var err := parser.ParseLines(reader);
    if err.Some? {
      return Err(err.value);
    }
    r := Ok(Finalize(parser.playlist));
  }
}
