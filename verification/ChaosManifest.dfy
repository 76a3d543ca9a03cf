/**
  The manifest builders of the stress tests. Each appends to a string in a loop; each is proved
  to produce what the general printer produces, so that the parser reads it back as described.
 */
module ChaosManifest {
  import opened Wrappers
  import opened Machine
  import opened Text
  import opened Numbers
  import opened NumberTexts
  import opened Playlist
  import opened ManifestParser
  import opened ManifestRoundTrip
  import opened VariantRoundTrip
  import A = AttributeScanner

  const VARIANT_BANDWIDTHS: seq<nat> :=
    [500_000, 1_000_000, 2_000_000, 4_000_000, 8_000_000, 12_000_000, 20_000_000, 35_000_000]

  const VARIANT_RESOLUTIONS: seq<Resolution> :=
    [Resolution(320, 180), Resolution(640, 360), Resolution(854, 480), Resolution(1280, 720),
     Resolution(1920, 1080), Resolution(2560, 1440), Resolution(3840, 2160), Resolution(3840, 2160)]

  const CODECS: string := "avc1.64002a,mp4a.40.2"
  const CODECS_TEXT: string := ",CODECS=\"" + CODECS + "\"\n"

  // ---------- Concatenation ----------

  lemma {:induction false} UnlinesOfConcat(a: seq<string>, b: seq<string>)
    ensures Unlines(a + b) == Unlines(a) + Unlines(b)
  {
    if a == [] {
      assert a + b == b;
    } else {
      assert a + b == [a[0]] + (a[1..] + b);
      UnlinesOfFirst(a[0], a[1..] + b);
      UnlinesOfConcat(a[1..], b);
      ConcatAssociates(a[0], "\n", Unlines(a[1..]), Unlines(b));
    }
  }

  lemma UnlinesOfTwo(a: string, b: string)
    ensures Unlines([a, b]) == a + "\n" + (b + "\n")
  {
    UnlinesOfFirst(a, [b]);
    UnlinesOfFirst(b, []);
    assert [a] + [b] == [a, b] && [b] + [] == [b];
    assert b + "\n" + "" == b + "\n";
  }

  lemma Regroup3(s: string, a: string, b: string, c: string)
    ensures s + a + b + c == s + (a + b + c)
  {
  }

  lemma Regroup4(s: string, a: string, b: string, c: string, d: string)
    ensures s + a + b + c + d == s + (a + b + c + d)
  {
  }

  // ---------- The media manifest ----------

  function SegmentUri(variant: int, s: nat): string {
    "v" + SignedDecimal(variant) + "/s" + Decimal(s) + ".ts"
  }

  function SegmentItem(variant: int, s: nat): Item {
    Item(SegmentUri(variant, s), "4.000000", Finite(4.0), false)
  }

  function SegmentItems(variant: int, n: nat): seq<Item> {
    seq(n, s requires 0 <= s < n => SegmentItem(variant, s))
  }

  lemma {:induction false} ItemLinesOfConcat(a: seq<Item>, b: seq<Item>)
    ensures AllItemLines(a + b) == AllItemLines(a) + AllItemLines(b)
  {
    if a == [] {
      assert a + b == b;
    } else {
      assert (a + b)[0] == a[0] && (a + b)[1..] == a[1..] + b;
      ItemLinesOfConcat(a[1..], b);
      ConcatAssociates([], ItemLines(a[0]), AllItemLines(a[1..]), AllItemLines(b));
    }
  }

  /** The text of the first n segments. */
  function SegmentsText(variant: int, n: nat): string {
    Unlines(AllItemLines(SegmentItems(variant, n)))
  }

  lemma OneMoreSegment(variant: int, n: nat)
    ensures SegmentsText(variant, n + 1) ==
            SegmentsText(variant, n) + ("#EXTINF:4.000000," + "\n" + (SegmentUri(variant, n) + "\n"))
  {
    var items, item := SegmentItems(variant, n), SegmentItem(variant, n);
    assert SegmentItems(variant, n + 1) == items + [item];
    ItemLinesOfConcat(items, [item]);
    LinesOfPlainItem(item);
    UnlinesOfConcat(AllItemLines(items), AllItemLines([item]));
    UnlinesOfTwo(DurationTag(item), item.uri);
    assert DurationTag(item) == "#EXTINF:4.000000,";
  }

  lemma LinesOfPlainItem(item: Item)
    requires !item.discontinuity
    ensures AllItemLines([item]) == [DurationTag(item), item.uri]
  {
    assert [item][1..] == [];
    assert AllItemLines([]) == [];
    assert ItemLines(item) + [] == [DurationTag(item), item.uri];
  }

  function HeadText(): string {
    "#EXTM3U\n" + "#EXT-X-TARGETDURATION:4\n" + "#EXT-X-MEDIA-SEQUENCE:0\n"
  }

  lemma SegmentAppended(before: string, variant: int, n: nat)
    requires before == HeadText() + SegmentsText(variant, n)
    ensures before + "#EXTINF:4.000000,\n" + "v" + SignedDecimal(variant) + "/s" + Decimal(n) + ".ts\n" ==
            HeadText() + SegmentsText(variant, n + 1)
  {
    OneMoreSegment(variant, n);
    PiecesOfSegment(before, SignedDecimal(variant), Decimal(n));
    ConcatAssociates([], HeadText(), SegmentsText(variant, n),
                     "#EXTINF:4.000000," + "\n" + (SegmentUri(variant, n) + "\n"));
  }

  lemma PiecesOfSegment(before: string, v: string, s: string)
    ensures before + "#EXTINF:4.000000,\n" + "v" + v + "/s" + s + ".ts\n" ==
            before + ("#EXTINF:4.000000," + "\n" + ("v" + v + "/s" + s + ".ts" + "\n"))
  {
    var tag, suffix := "#EXTINF:4.000000,\n", ".ts\n";
    Regroup4(before + tag, "v", v, "/s", s);
    ConcatAssociates([], before + tag, "v" + v + "/s" + s, suffix);
    assert suffix == ".ts" + "\n";
    ConcatAssociates([], "v" + v + "/s" + s, ".ts", "\n");
    ConcatAssociates([], before, tag, "v" + v + "/s" + s + ".ts" + "\n");
    assert tag == "#EXTINF:4.000000," + "\n";
  }

  lemma HeadersText(variant: int, n: nat)
    ensures PrintMedia(4, 0, SegmentItems(variant, n), true) ==
            HeadText() + SegmentsText(variant, n) + "#EXT-X-ENDLIST\n"
  {
    var items := SegmentItems(variant, n);
    HeadLines();
    TextOfLines(["#EXTM3U"], [TargetTag(4), SequenceTag(0)], AllItemLines(items), EndLines(true));
    UnlinesOfFirst("#EXT-X-ENDLIST", []);
    assert EndLines(true) == ["#EXT-X-ENDLIST"] + [];
    assert "#EXT-X-ENDLIST" + "\n" + "" == "#EXT-X-ENDLIST\n";
  }

  lemma TextOfLines(a: seq<string>, b: seq<string>, c: seq<string>, d: seq<string>)
    ensures Unlines(a + (b + c + d)) == Unlines(a + b) + Unlines(c) + Unlines(d)
  {
    assert a + (b + c + d) == a + b + c + d;
    UnlinesOfConcat(a + b + c, d);
    UnlinesOfConcat(a + b, c);
  }

  lemma HeadLines()
    ensures Unlines(["#EXTM3U"] + [TargetTag(4), SequenceTag(0)]) == HeadText()
  {
    HeadDigits();
    UnlinesOfFirst("#EXTM3U", [TargetTag(4), SequenceTag(0)]);
    UnlinesOfTwo(TargetTag(4), SequenceTag(0));
    assert "#EXTM3U" + "\n" == "#EXTM3U\n";
    ConcatAssociates([], "#EXTM3U\n", "#EXT-X-TARGETDURATION:4\n", "#EXT-X-MEDIA-SEQUENCE:0\n");
  }

  lemma HeadDigits()
    ensures TargetTag(4) + "\n" == "#EXT-X-TARGETDURATION:4\n"
    ensures SequenceTag(0) + "\n" == "#EXT-X-MEDIA-SEQUENCE:0\n"
  {
    assert Decimal(4) == "4" && Decimal(0) == "0";
  }

  /** Whether a string can reserve so many bytes, computed in 64 bits. */
  predicate Reservable(bytes: int) {
    bytes % U64 < U64 / 2
  }

  /** How often a loop from 0 up to a count runs. */
  function Rounds(count: Int32): nat {
    if count < 0 then 0 else count as int
  }

  /** The builder's text; none if the reservation is refused, as it is from -3 down. */
  method BuildMediaManifest(variant: int, segmentCount: Int32) returns (text: Option<string>)
    ensures text == if segmentCount >= -2 then Some(PrintMedia(4, 0, SegmentItems(variant, Rounds(segmentCount)), true))
                    else None
  {
    if !Reservable(segmentCount as int * 24 + 64) {
      return None;
    }
    var manifest := "";
    manifest := manifest + "#EXTM3U\n";
    manifest := manifest + "#EXT-X-TARGETDURATION:4\n";
    manifest := manifest + "#EXT-X-MEDIA-SEQUENCE:0\n";
    assert "" + "#EXTM3U\n" == "#EXTM3U\n";
    assert SegmentItems(variant, 0) == [] && manifest == HeadText() + "";
    var s := 0;
    while s < segmentCount as int
      invariant 0 <= s <= Rounds(segmentCount) && manifest == HeadText() + SegmentsText(variant, s)
    {
      SegmentAppended(manifest, variant, s);
      manifest := manifest + "#EXTINF:4.000000,\n";
      manifest := manifest + "v";
      manifest := manifest + SignedDecimal(variant);
      manifest := manifest + "/s";
      manifest := manifest + Decimal(s);
      manifest := manifest + ".ts\n";
      s := s + 1;
    }
    HeadersText(variant, s);
    manifest := manifest + "#EXT-X-ENDLIST\n";
    text := Some(manifest);
  }

  lemma DurationIsFour()
    ensures ParseFloat("4.000000") == Some(Finite(4.0))
  {
    ZerosAreNothing("000000");
    FourIsInRange();
    ZeroFractionIsRead("4", "000000", 4.0);
    FourText();
  }

  lemma FourIsInRange()
    ensures Value("4") == 4 && !OutOfRange(4.0)
  {
    FiniteDoubleIsInRange(4, 0);
  }

  lemma FourText()
    ensures "4" + "." + "000000" == "4.000000"
  {
  }

  lemma {:induction false} ZerosAreNothing(zeros: string)
    requires AllDigits(zeros) && forall k | 0 <= k < |zeros| :: zeros[k] == '0'
    ensures Value(zeros) == 0
  {
    if zeros != "" {
      ZerosAreNothing(zeros[..|zeros| - 1]);
    }
  }

  lemma SignedDecimalIsPlain(n: int)
    ensures forall k | 0 <= k < |SignedDecimal(n)| :: IsDigit(SignedDecimal(n)[k]) || SignedDecimal(n)[k] == '-'
  {
  }

  lemma SegmentUriIsPrintable(variant: int, s: nat)
    ensures PrintableUri(SegmentUri(variant, s))
  {
    SignedDecimalIsPlain(variant);
    var v, d := SignedDecimal(variant), Decimal(s);
    OneLineConcat("v", v);
    OneLineConcat("v" + v, "/s");
    OneLineConcat("v" + v + "/s", d);
    OneLineConcat("v" + v + "/s" + d, ".ts");
    var uri := SegmentUri(variant, s);
    assert uri[0] == 'v' && uri[|uri| - 1] == 's';
  }

  /**
    The media manifest of any variant with any number of segments is read back as a complete
    playlist of exactly those segments, in order, with indices 0, 1, 2, and so on. (The count is
    a C++ int.)
   */
  lemma MediaManifestRoundTrip(variant: int, n: nat)
    requires n < 0x8000_0000
    ensures
      var r := Parse(PrintMedia(4, 0, SegmentItems(variant, n), true));
      && r.Ok?
      && r.value == Playlist(MediaVOD, 4, 0, true, r.value.segments, [])
      && |r.value.segments| == n
      && forall s | 0 <= s < n ::
           r.value.segments[s] == Segment(SegmentUri(variant, s), Finite(4.0), s, false)
  {
    ItemsArePrintable(variant, n);
    MediaRoundTrip(4, 0, SegmentItems(variant, n), true);
    SegmentsOfItems(variant, n);
  }

  lemma SegmentsOfItems(variant: int, n: nat)
    requires n < 0x8000_0000
    ensures |SegmentsPrinted(SegmentItems(variant, n), 0, 0)| == n
    ensures forall s | 0 <= s < n ::
              SegmentsPrinted(SegmentItems(variant, n), 0, 0)[s] ==
              Segment(SegmentUri(variant, s), Finite(4.0), s, false)
  {
  }

  lemma ItemsArePrintable(variant: int, n: nat)
    ensures PrintableItems(SegmentItems(variant, n))
  {
    forall s | 0 <= s < n ensures PrintableItem(SegmentItems(variant, n)[s]) {
      ItemIsPrintable(variant, s);
    }
  }

  lemma ItemIsPrintable(variant: int, s: nat)
    ensures PrintableItem(SegmentItem(variant, s))
  {
    SegmentUriIsPrintable(variant, s);
    DurationIsFour();
    FourIsPlain();
  }

  lemma FourIsPlain()
    ensures OneLine("4.000000") && A.Lacks("4.000000", ',')
  {
  }

  // ---------- The master manifest ----------

  function VariantUri(v: nat): string {
    "v" + Decimal(v) + ".m3u8"
  }

  /** The builder writes no frame rates. */
  function Plain(v: Variant): Offer {
    Offer(v, None)
  }

  function PlainOffers(vs: seq<Variant>): seq<Offer> {
    seq(|vs|, k requires 0 <= k < |vs| => Plain(vs[k]))
  }

  function AdvertisedVariant(v: nat): Variant
    requires v < 8
  {
    Variant(VariantUri(v), CODECS, VARIANT_BANDWIDTHS[v], VARIANT_RESOLUTIONS[v], Finite(0.0))
  }

  function AdvertisedVariants(n: nat): seq<Variant>
    requires n <= 8
  {
    seq(n, v requires 0 <= v < n => AdvertisedVariant(v))
  }

  lemma {:induction false} EntrantLinesOfConcat(a: seq<Entrant>, b: seq<Entrant>)
    ensures AllEntrantLines(a + b) == AllEntrantLines(a) + AllEntrantLines(b)
  {
    if a == [] {
      assert a + b == b;
    } else {
      assert (a + b)[0] == a[0] && (a + b)[1..] == a[1..] + b;
      EntrantLinesOfConcat(a[1..], b);
      ConcatAssociates([], [VariantTag(a[0]), a[0].uri], AllEntrantLines(a[1..]), AllEntrantLines(b));
    }
  }

  lemma OneMoreEntrant(es: seq<Entrant>, e: Entrant)
    ensures Unlines(AllEntrantLines(es + [e])) ==
            Unlines(AllEntrantLines(es)) + (VariantTag(e) + "\n" + (e.uri + "\n"))
  {
    EntrantLinesOfConcat(es, [e]);
    assert [e][1..] == [];
    assert AllEntrantLines([]) == [];
    assert AllEntrantLines([e]) == [VariantTag(e), e.uri];
    UnlinesOfConcat(AllEntrantLines(es), AllEntrantLines([e]));
    UnlinesOfTwo(VariantTag(e), e.uri);
  }

  lemma PrintOfThree(a: A.Printed, b: A.Printed, c: A.Printed)
    ensures A.Print([a, b, c]) == A.PrintOne(a) + "," + (A.PrintOne(b) + "," + A.PrintOne(c))
  {
    assert [a, b, c][1..] == [b, c] && [b, c][1..] == [c];
    assert A.Print([c]) == A.PrintOne(c);
    assert A.Print([b, c]) == A.PrintOne(b) + "," + A.Print([c]);
  }

  /** The pieces of a variant's two lines, as they are appended one by one. */
  lemma PiecesOfVariant(before: string, v: Variant)
    requires v.codecs == CODECS
    ensures
      before + "#EXT-X-STREAM-INF:BANDWIDTH=" + Decimal(v.bandwidth) + ",RESOLUTION=" + Decimal(v.resolution.width)
      + "x" + Decimal(v.resolution.height) + CODECS_TEXT
      == before + (VariantTag(EntrantOf(Plain(v))) + "\n")
  {
    var list := AttributesOf(Plain(v));
    assert list == [list[0], list[1], list[2]];
    var b, w, h := Decimal(v.bandwidth), Decimal(v.resolution.width), Decimal(v.resolution.height);
    PrintOfThree(list[0], list[1], list[2]);
    BandwidthPiece(b);
    ResolutionPiece(w, h);
    CodecsPiece();
    Regroup3(before + "#EXT-X-STREAM-INF:BANDWIDTH=" + b + ",RESOLUTION=", w, "x", h);
    PiecesTogether(before, "#EXT-X-STREAM-INF:BANDWIDTH=", b, ",RESOLUTION=", w + "x" + h,
                   CODECS_TEXT);
    VariantTagPieces("#EXT-X-STREAM-INF:", A.PrintOne(list[0]), A.PrintOne(list[1]), A.PrintOne(list[2]));
  }

  lemma BandwidthPiece(b: string)
    ensures "#EXT-X-STREAM-INF:" + A.PrintOne(A.Printed("BANDWIDTH", b, false)) == "#EXT-X-STREAM-INF:BANDWIDTH=" + b
  {
    assert "#EXT-X-STREAM-INF:BANDWIDTH=" == "#EXT-X-STREAM-INF:" + ("BANDWIDTH" + "=");
    ConcatAssociates([], "#EXT-X-STREAM-INF:", "BANDWIDTH" + "=", b);
  }

  lemma ResolutionPiece(w: string, h: string)
    ensures "," + A.PrintOne(A.Printed("RESOLUTION", w + "x" + h, false)) == ",RESOLUTION=" + (w + "x" + h)
  {
    assert ",RESOLUTION=" == "," + ("RESOLUTION" + "=");
    ConcatAssociates([], ",", "RESOLUTION" + "=", w + "x" + h);
  }

  lemma CodecsPiece()
    ensures "," + A.PrintOne(A.Printed("CODECS", CODECS, true)) + "\n" == CODECS_TEXT
  {
    assert A.PrintOne(A.Printed("CODECS", CODECS, true)) == "CODECS=" + ("\"" + CODECS + "\"");
    QuotedPiece(",", "CODECS=", CODECS);
    ConcatAssociates([], ",CODECS=\"", CODECS, "\"\n");
    assert "," + "CODECS=" + "\"" == ",CODECS=\"" && "\"" + "\n" == "\"\n";
  }

  lemma QuotedPiece(comma: string, key: string, value: string)
    ensures comma + (key + ("\"" + value + "\"")) + "\n" == comma + key + "\"" + (value + ("\"" + "\n"))
  {
  }

  lemma PiecesTogether(s: string, a: string, b: string, c: string, d: string, e: string)
    ensures s + a + b + c + d + e == s + ((a + b) + (c + d) + e)
  {
    Regroup4(s, a, b, c, d);
    ConcatAssociates([], a + b, c, d);
    ConcatAssociates([], s, (a + b) + (c + d), e);
  }

  lemma VariantTagPieces(prefix: string, a: string, b: string, c: string)
    ensures prefix + (a + "," + (b + "," + c)) + "\n" == (prefix + a) + ("," + b) + ("," + c + "\n")
  {
    ConcatAssociates([], b, ",", c);
    assert prefix + (a + "," + (b + "," + c)) == (prefix + a) + ("," + b) + ("," + c);
  }

  lemma OneMoreOf(vs: seq<Variant>, v: Variant)
    ensures EntrantsOf(PlainOffers(vs + [v])) == EntrantsOf(PlainOffers(vs)) + [EntrantOf(Plain(v))]
  {
  }

  function TextOf(vs: seq<Variant>): string {
    Unlines(AllEntrantLines(EntrantsOf(PlainOffers(vs))))
  }

  lemma OneMoreVariant(vs: seq<Variant>, v: Variant)
    ensures TextOf(vs + [v]) == TextOf(vs) + (VariantTag(EntrantOf(Plain(v))) + "\n" + (v.uri + "\n"))
  {
    OneMoreOf(vs, v);
    OneMoreEntrant(EntrantsOf(PlainOffers(vs)), EntrantOf(Plain(v)));
  }

  lemma OneMoreAdvertised(v: nat)
    requires v < 8
    ensures AdvertisedVariants(v + 1) == AdvertisedVariants(v) + [AdvertisedVariant(v)]
  {
  }

  lemma VariantAppended(before: string, v: nat)
    requires v < 8 && before == "#EXTM3U\n" + TextOf(AdvertisedVariants(v))
    ensures
      var tag := VariantTag(EntrantOf(Plain(AdvertisedVariant(v))));
      before + (tag + "\n") + "v" + Decimal(v) + ".m3u8\n" == "#EXTM3U\n" + TextOf(AdvertisedVariants(v + 1))
  {
    var tag := VariantTag(EntrantOf(Plain(AdvertisedVariant(v))));
    OneMoreAdvertised(v);
    OneMoreVariant(AdvertisedVariants(v), AdvertisedVariant(v));
    UriPieces(before + (tag + "\n"), Decimal(v));
    PiecesAssociate("#EXTM3U\n", TextOf(AdvertisedVariants(v)), tag + "\n", VariantUri(v) + "\n");
  }

  lemma PiecesAssociate(a: string, b: string, c: string, d: string)
    ensures a + b + c + d == a + (b + (c + d))
  {
  }

  lemma UriPieces(s: string, v: string)
    ensures s + "v" + v + ".m3u8\n" == s + ("v" + v + ".m3u8" + "\n")
  {
    assert ".m3u8\n" == ".m3u8" + "\n";
    Regroup3(s, "v", v, ".m3u8\n");
    ConcatAssociates([], "v" + v, ".m3u8", "\n");
  }

  /** Appends the tag and the URI of one variant. */
  method AppendVariant(before: string, v: nat) returns (manifest: string)
    requires v < 8 && before == "#EXTM3U\n" + TextOf(AdvertisedVariants(v))
    ensures manifest == "#EXTM3U\n" + TextOf(AdvertisedVariants(v + 1))
  {
    manifest := before;
    PiecesOfVariant(manifest, AdvertisedVariant(v));
    VariantAppended(manifest, v);
    manifest := manifest + "#EXT-X-STREAM-INF:BANDWIDTH=";
    manifest := manifest + Decimal(VARIANT_BANDWIDTHS[v]);
    manifest := manifest + ",RESOLUTION=";
    manifest := manifest + Decimal(VARIANT_RESOLUTIONS[v].width);
    manifest := manifest + "x";
    manifest := manifest + Decimal(VARIANT_RESOLUTIONS[v].height);
    manifest := manifest + CODECS_TEXT;
    manifest := manifest + "v";
    manifest := manifest + Decimal(v);
    manifest := manifest + ".m3u8\n";
  }

  /**
    The builder's text; none if the reservation is refused, as it is for negative counts, or if it
    would read past the end of its tables, as it does from count 9 on.
   */
  method BuildMasterManifest(variantCount: Int32) returns (text: Option<string>)
    ensures text == if 0 <= variantCount <= 8 then
                      Some(PrintMaster(EntrantsOf(PlainOffers(AdvertisedVariants(variantCount as int)))))
                    else None
  {
    if !Reservable(variantCount as int * 96 + 16) {
      return None;
    }
    var manifest := "";
    manifest := manifest + "#EXTM3U\n";
    NoneAdvertised();
    for v := 0 to variantCount as int
      invariant v <= 8 && manifest == "#EXTM3U\n" + TextOf(AdvertisedVariants(v))
    {
      if v >= |VARIANT_BANDWIDTHS| {
        return None;
      }
      manifest := AppendVariant(manifest, v);
    }
    MasterText(AdvertisedVariants(variantCount as int));
    text := Some(manifest);
  }

  lemma NoneAdvertised()
    ensures "" + "#EXTM3U\n" == "#EXTM3U\n" + TextOf(AdvertisedVariants(0))
  {
    assert AdvertisedVariants(0) == [] && EntrantsOf(PlainOffers([])) == [];
  }

  lemma MasterText(vs: seq<Variant>)
    ensures PrintMaster(EntrantsOf(PlainOffers(vs))) == "#EXTM3U\n" + TextOf(vs)
  {
    UnlinesOfFirst("#EXTM3U", AllEntrantLines(EntrantsOf(PlainOffers(vs))));
    assert "#EXTM3U" + "\n" == "#EXTM3U\n";
  }

  lemma AdvertisedIsPrintable(v: nat)
    requires v < 8
    ensures PrintableOffer(Plain(AdvertisedVariant(v)))
  {
    var d := Decimal(v);
    OneLineConcat("v", d);
    OneLineConcat("v" + d, ".m3u8");
    assert VariantUri(v)[0] == 'v' && VariantUri(v)[|VariantUri(v)| - 1] == '8';
    CodecsArePlain();
  }

  lemma CodecsArePlain()
    ensures OneLine(CODECS) && A.Lacks(CODECS, '"')
  {
  }

  lemma AdvertisedAscend(n: nat)
    requires n <= 8
    ensures StrictlyAscending(AdvertisedVariants(n))
  {
    forall i, j | 0 <= i < j < n
      ensures AdvertisedVariants(n)[i].bandwidth < AdvertisedVariants(n)[j].bandwidth
    {
      BandwidthsAscend(i, j);
    }
  }

  lemma BandwidthsAscend(i: nat, j: nat)
    requires i < j < 8
    ensures VARIANT_BANDWIDTHS[i] < VARIANT_BANDWIDTHS[j]
  {
  }

  /** The master manifest is read back as the variants of the table, in the table's order. */
  lemma MasterManifestRoundTrip(n: nat)
    requires 0 < n <= 8
    ensures Parse(PrintMaster(EntrantsOf(PlainOffers(AdvertisedVariants(n))))) ==
            Ok(EMPTY_PLAYLIST.(playlistType := Master, variants := AdvertisedVariants(n)))
  {
    var vs := AdvertisedVariants(n);
    forall v | 0 <= v < n ensures PrintableOffer(PlainOffers(vs)[v]) {
      AdvertisedIsPrintable(v);
    }
    assert VariantsOf(PlainOffers(vs)) == vs;
    VariantsRoundTrip(PlainOffers(vs));
    AdvertisedAscend(n);
    AscendingOrderIsUnique(vs, Parse(PrintMaster(EntrantsOf(PlainOffers(vs)))).value.variants);
  }
}
