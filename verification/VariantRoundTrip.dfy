/** Variants printed by their values and read back. */
module VariantRoundTrip {
  import opened Wrappers
  import opened Machine
  import opened Text
  import opened Numbers
  import opened Playlist
  import opened ManifestParser
  import opened ManifestRoundTrip
  import A = AttributeScanner

  /** A variant to announce; its frame rate, if it has one, may be any text that reads as the number. */
  datatype Offer = Offer(variant: Variant, rate: Option<string>)

  /** How a variant is announced: bandwidth, resolution, perhaps a frame rate, and codecs in quotes. */
  function AttributesOf(o: Offer): seq<A.Printed> {
    [A.Printed("BANDWIDTH", Decimal(o.variant.bandwidth), false),
     A.Printed("RESOLUTION", ResolutionText(o.variant.resolution), false)]
    + RateAttribute(o) + [A.Printed("CODECS", o.variant.codecs, true)]
  }

  function RateAttribute(o: Offer): seq<A.Printed> {
    match o.rate
    case None => []
    case Some(text) => [A.Printed("FRAME-RATE", text, false)]
  }

  function ResolutionText(r: Resolution): string {
    Decimal(r.width) + "x" + Decimal(r.height)
  }

  function EntrantOf(o: Offer): Entrant {
    Entrant(AttributesOf(o), o.variant.uri)
  }

  function EntrantsOf(os: seq<Offer>): seq<Entrant> {
    seq(|os|, k requires 0 <= k < |os| => EntrantOf(os[k]))
  }

  function VariantsOf(os: seq<Offer>): seq<Variant> {
    seq(|os|, k requires 0 <= k < |os| => os[k].variant)
  }

  predicate PrintableOffer(o: Offer) {
    && PrintableUri(o.variant.uri) && OneLine(o.variant.codecs) && A.Lacks(o.variant.codecs, '"')
    && o.variant.bandwidth <= U32_MAX && o.variant.resolution.width <= U32_MAX && o.variant.resolution.height <= U32_MAX
    && (o.rate.Some? ==> PlainRate(o.rate.value)) && ReadableRate(o.rate, o.variant.frameRate)
  }

  predicate PlainRate(text: string) {
    OneLine(text) && A.Lacks(text, '"') && A.Lacks(text, ',')
  }

  predicate ReadableRate(rate: Option<string>, value: Float) {
    match rate
    case None => value == Finite(0.0)
    case Some(text) => ParseFloat(text) == Some(value)
  }

  /** Characters that numbers and resolutions are written with. */
  predicate Numeric(s: string) {
    forall k | 0 <= k < |s| :: IsDigit(s[k]) || s[k] == 'x'
  }

  lemma NumericIsPlain(s: string)
    requires Numeric(s)
    ensures OneLine(s) && A.Lacks(s, '"') && A.Lacks(s, ',')
  {
  }

  lemma NumbersAreNumeric(v: Variant)
    ensures Numeric(Decimal(v.bandwidth)) && Numeric(ResolutionText(v.resolution))
  {
    var width, height := Decimal(v.resolution.width), Decimal(v.resolution.height);
    assert forall k | 0 <= k < |width| :: (width + "x" + height)[k] == width[k];
    assert forall k | 0 <= k < |height| :: (width + "x" + height)[|width| + 1 + k] == height[k];
    forall k | 0 <= k < |width + "x" + height| ensures IsDigit((width + "x" + height)[k]) || k == |width| {
      if k > |width| {
        assert (width + "x" + height)[k] == height[k - |width| - 1];
      }
    }
  }

  /** What an attribute needs to be printed on a line of its own. */
  predicate PlainAttribute(a: A.Printed) {
    A.Printable(a) && OneLine(a.key) && OneLine(a.value)
  }

  lemma NumbersArePlain(v: Variant)
    ensures PlainAttribute(A.Printed("BANDWIDTH", Decimal(v.bandwidth), false))
    ensures PlainAttribute(A.Printed("RESOLUTION", ResolutionText(v.resolution), false))
  {
    NumbersAreNumeric(v);
    NumericIsPlain(Decimal(v.bandwidth));
    NumericIsPlain(ResolutionText(v.resolution));
  }

  lemma AttributesArePlain(o: Offer)
    requires PrintableOffer(o)
    ensures forall k | 0 <= k < |AttributesOf(o)| :: PlainAttribute(AttributesOf(o)[k])
  {
    NumbersArePlain(o.variant);
    RateAndCodecsArePlain(o);
  }

  lemma RateAndCodecsArePlain(o: Offer)
    requires o.rate.Some? ==> PlainRate(o.rate.value)
    requires OneLine(o.variant.codecs) && A.Lacks(o.variant.codecs, '"')
    ensures forall k | 0 <= k < |RateAttribute(o)| :: PlainAttribute(RateAttribute(o)[k])
    ensures PlainAttribute(A.Printed("CODECS", o.variant.codecs, true))
  {
    if o.rate.Some? {
      PlainRateAttribute(o.rate.value);
    }
  }

  lemma PlainRateAttribute(text: string)
    requires PlainRate(text)
    ensures PlainAttribute(A.Printed("FRAME-RATE", text, false))
  {
  }

  lemma PrintOneIsOneLine(a: A.Printed)
    requires OneLine(a.key) && OneLine(a.value)
    ensures OneLine(A.PrintOne(a))
  {
    OneLineConcat("\"", a.value);
    OneLineConcat("\"" + a.value, "\"");
    OneLineConcat(a.key, "=");
    OneLineConcat(a.key + "=", A.PrintValue(a));
  }

  /** A printed list is one line, and ends as its last attribute does. */
  lemma {:induction false} PrintIsPlain(list: seq<A.Printed>)
    requires list != [] && forall k | 0 <= k < |list| :: PlainAttribute(list[k])
    requires list[|list| - 1].quoted
    ensures OneLine(A.Print(list)) && A.Print(list) != "" && A.Print(list)[|A.Print(list)| - 1] == '"'
    decreases |list|
  {
    PrintOneIsOneLine(list[0]);
    if |list| == 1 {
      QuotedEnds(list[0]);
    } else {
      var rest := A.Print(list[1..]);
      PrintIsPlain(list[1..]);
      OneLineConcat(A.PrintOne(list[0]), ",");
      OneLineConcat(A.PrintOne(list[0]) + ",", rest);
      LastOfConcat(A.PrintOne(list[0]) + ",", rest);
    }
  }

  lemma QuotedEnds(a: A.Printed)
    requires a.quoted
    ensures A.PrintOne(a) != "" && A.PrintOne(a)[|A.PrintOne(a)| - 1] == '"'
  {
  }

  lemma LastOfConcat(a: string, b: string)
    requires b != ""
    ensures (a + b)[|a + b| - 1] == b[|b| - 1]
  {
  }

  lemma PlainFromParts(prefix: string, rest: string)
    requires prefix != "" && OneLine(prefix) && !IsFront(prefix[0])
    requires rest != "" && OneLine(rest) && !IsBack(rest[|rest| - 1])
    ensures PlainLine(prefix + rest)
  {
    OneLineConcat(prefix, rest);
    LastOfConcat(prefix, rest);
    assert (prefix + rest)[0] == prefix[0];
  }

  lemma TagIsPlain(list: seq<A.Printed>)
    requires list != [] && forall k | 0 <= k < |list| :: PlainAttribute(list[k])
    requires list[|list| - 1].quoted
    ensures PlainLine("#EXT-X-STREAM-INF:" + A.Print(list))
  {
    PrintIsPlain(list);
    PlainTag(A.Print(list));
  }

  lemma PlainTag(rest: string)
    requires rest != "" && OneLine(rest) && rest[|rest| - 1] == '"'
    ensures PlainLine("#EXT-X-STREAM-INF:" + rest)
  {
    PlainTagName();
    PlainFromParts("#EXT-X-STREAM-INF:", rest);
  }

  lemma PlainTagName()
    ensures OneLine("#EXT-X-STREAM-INF:") && !IsFront("#EXT-X-STREAM-INF:"[0])
  {
  }

  lemma EntrantIsPrintable(o: Offer)
    requires PrintableOffer(o)
    ensures PrintableEntrant(EntrantOf(o))
  {
    AttributesArePlain(o);
    TagIsPlain(AttributesOf(o));
  }

  lemma ResolutionRoundTrip(r: Resolution)
    requires r.width <= U32_MAX && r.height <= U32_MAX
    ensures ParseResolution(ResolutionText(r)) == Some(r)
  {
    var width, height := Decimal(r.width), Decimal(r.height);
    var text := width + "x" + height;
    assert text[|width|] == 'x' && forall k | 0 <= k < |width| :: text[k] == width[k];
    assert FindFrom(text, 'x', 0) == |width|;
    assert text[..|width|] == width + "" && text[|width| + 1..] == height + "";
    ParseOfDecimal(r.width, "", U32_MAX);
    ParseOfDecimal(r.height, "", U32_MAX);
  }

  lemma BandwidthRoundTrip(n: nat)
    requires n <= U32_MAX
    ensures ParseUint(Decimal(n), U32_MAX) == Some(n)
  {
    ParseOfDecimal(n, "", U32_MAX);
    assert Decimal(n) + "" == Decimal(n);
  }

  lemma AttributesOfThree(v: Variant, a: A.Attribute, b: A.Attribute, c: A.Attribute)
    ensures ApplyAttributes(v, [a, b, c]) == ApplyAttribute(ApplyAttribute(ApplyAttribute(v, a), b), c)
  {
    AttributesOfFirst(v, a, [b, c]);
    AttributesOfFirst(ApplyAttribute(v, a), b, [c]);
    AttributesOfFirst(ApplyAttribute(ApplyAttribute(v, a), b), c, []);
    assert [a] + [b, c] == [a, b, c] && [b] + [c] == [b, c] && [c] + [] == [c];
  }

  lemma AttributesOfFour(v: Variant, a: A.Attribute, b: A.Attribute, c: A.Attribute, d: A.Attribute)
    ensures ApplyAttributes(v, [a, b, c, d]) ==
            ApplyAttribute(ApplyAttribute(ApplyAttribute(ApplyAttribute(v, a), b), c), d)
  {
    assert [a] + [b, c, d] == [a, b, c, d];
    AttributesOfFirst(v, a, [b, c, d]);
    AttributesOfThree(ApplyAttribute(v, a), b, c, d);
  }

  lemma AppliedNumbers(v: Variant)
    requires v.bandwidth <= U32_MAX && v.resolution.width <= U32_MAX && v.resolution.height <= U32_MAX
    ensures
      var a := A.Attribute("BANDWIDTH", Decimal(v.bandwidth));
      var b := A.Attribute("RESOLUTION", ResolutionText(v.resolution));
      ApplyAttribute(ApplyAttribute(NO_VARIANT, a), b)
      == NO_VARIANT.(bandwidth := v.bandwidth, resolution := v.resolution)
  {
    BandwidthRoundTrip(v.bandwidth);
    ResolutionRoundTrip(v.resolution);
  }

  lemma AppliedWords(v: Variant, rate: string, codecs: string)
    ensures ApplyAttribute(v, A.Attribute("CODECS", codecs)) == v.(codecs := codecs)
    ensures ParseFloat(rate).Some? ==>
              ApplyAttribute(v, A.Attribute("FRAME-RATE", rate)) == v.(frameRate := ParseFloat(rate).value)
  {
  }

  lemma AnnouncedWithoutRate(v: Variant)
    requires PrintableOffer(Offer(v, None))
    ensures ApplyAttributes(NO_VARIANT, A.Pairs(AttributesOf(Offer(v, None)))) == v.(uri := "")
  {
    var a := A.Attribute("BANDWIDTH", Decimal(v.bandwidth));
    var b := A.Attribute("RESOLUTION", ResolutionText(v.resolution));
    var c := A.Attribute("CODECS", v.codecs);
    assert A.Pairs(AttributesOf(Offer(v, None))) == [a, b, c];
    AttributesOfThree(NO_VARIANT, a, b, c);
    AppliedNumbers(v);
    AppliedWords(NO_VARIANT.(bandwidth := v.bandwidth, resolution := v.resolution), "", v.codecs);
  }

  /** The attributes announced for a variant with a frame rate. */
  function RatedAttributes(v: Variant, text: string): seq<A.Attribute> {
    [A.Attribute("BANDWIDTH", Decimal(v.bandwidth)), A.Attribute("RESOLUTION", ResolutionText(v.resolution)),
     A.Attribute("FRAME-RATE", text), A.Attribute("CODECS", v.codecs)]
  }

  lemma PairsWithRate(v: Variant, text: string)
    ensures A.Pairs(AttributesOf(Offer(v, Some(text)))) == RatedAttributes(v, text)
  {
  }

  lemma RatedAttributesApplied(v: Variant, text: string)
    requires v.bandwidth <= U32_MAX && v.resolution.width <= U32_MAX && v.resolution.height <= U32_MAX
    requires ParseFloat(text) == Some(v.frameRate)
    ensures ApplyAttributes(NO_VARIANT, RatedAttributes(v, text)) == v.(uri := "")
  {
    AttributesOfFour(NO_VARIANT, A.Attribute("BANDWIDTH", Decimal(v.bandwidth)),
                     A.Attribute("RESOLUTION", ResolutionText(v.resolution)),
                     A.Attribute("FRAME-RATE", text), A.Attribute("CODECS", v.codecs));
    AppliedFour(v, text);
  }

  lemma AnnouncedWithRate(v: Variant, text: string)
    requires PrintableOffer(Offer(v, Some(text)))
    ensures ApplyAttributes(NO_VARIANT, A.Pairs(AttributesOf(Offer(v, Some(text))))) == v.(uri := "")
  {
    PairsWithRate(v, text);
    RatedAttributesApplied(v, text);
  }

  lemma AppliedFour(v: Variant, text: string)
    requires v.bandwidth <= U32_MAX && v.resolution.width <= U32_MAX && v.resolution.height <= U32_MAX
    requires ParseFloat(text) == Some(v.frameRate)
    ensures
      var a := A.Attribute("BANDWIDTH", Decimal(v.bandwidth));
      var b := A.Attribute("RESOLUTION", ResolutionText(v.resolution));
      var r := A.Attribute("FRAME-RATE", text);
      var c := A.Attribute("CODECS", v.codecs);
      ApplyAttribute(ApplyAttribute(ApplyAttribute(ApplyAttribute(NO_VARIANT, a), b), r), c) == v.(uri := "")
  {
    AppliedNumbers(v);
    var two := NO_VARIANT.(bandwidth := v.bandwidth, resolution := v.resolution);
    AppliedWords(two, text, "");
    AppliedWords(two.(frameRate := v.frameRate), "", v.codecs);
  }

  /** The attributes of a variant say all that there is to it but its URI. */
  lemma AnnouncedVariant(o: Offer)
    requires PrintableOffer(o)
    ensures VariantPrinted(EntrantOf(o)) == o.variant
  {
    match o.rate
    case None => AnnouncedWithoutRate(o.variant);
    case Some(text) => AnnouncedWithRate(o.variant, text);
  }

  lemma EntrantsArePrintable(os: seq<Offer>)
    requires forall k | 0 <= k < |os| :: PrintableOffer(os[k])
    ensures PrintableEntrants(EntrantsOf(os))
  {
    forall k | 0 <= k < |os| ensures PrintableEntrant(EntrantsOf(os)[k]) {
      EntrantIsPrintable(os[k]);
    }
  }

  lemma EntrantsAnnounce(os: seq<Offer>)
    requires forall k | 0 <= k < |os| :: PrintableOffer(os[k])
    ensures VariantsPrinted(EntrantsOf(os)) == VariantsOf(os)
  {
    forall k | 0 <= k < |os| ensures VariantPrinted(EntrantsOf(os)[k]) == os[k].variant {
      AnnouncedVariant(os[k]);
    }
  }

  /** Printed variants are read back as they were, in ascending bandwidth. */
  lemma VariantsRoundTrip(os: seq<Offer>)
    requires os != [] && forall k | 0 <= k < |os| :: PrintableOffer(os[k])
    ensures MasterWith(Parse(PrintMaster(EntrantsOf(os))), VariantsOf(os))
  {
    EntrantsArePrintable(os);
    EntrantsAnnounce(os);
    MasterRoundTrip(EntrantsOf(os));
  }

  // ---------- Different bandwidths ----------

  ghost predicate StrictlyAscending(vs: seq<Variant>) {
    forall i, j | 0 <= i < j < |vs| :: vs[i].bandwidth < vs[j].bandwidth
  }

  lemma LastIsSame(vs: seq<Variant>, ws: seq<Variant>)
    requires vs != [] && StrictlyAscending(vs) && SortedByBandwidth(ws) && multiset(ws) == multiset(vs)
    ensures ws != [] && ws[|ws| - 1] == vs[|vs| - 1]
  {
    assert |multiset(ws)| == |ws| && |multiset(vs)| == |vs|;
    var top, last := vs[|vs| - 1], ws[|ws| - 1];
    assert last in multiset(ws) && top in multiset(vs);
    var p :| 0 <= p < |ws| && ws[p] == top;
    assert top.bandwidth <= last.bandwidth;
    var q :| 0 <= q < |vs| && vs[q] == last;
    assert q == |vs| - 1;
  }

  lemma WithoutLast(vs: seq<Variant>, ws: seq<Variant>)
    requires vs != [] && StrictlyAscending(vs) && SortedByBandwidth(ws) && multiset(ws) == multiset(vs)
    ensures ws != [] && ws[|ws| - 1] == vs[|vs| - 1]
    ensures
      var vs', ws' := vs[..|vs| - 1], ws[..|ws| - 1];
      StrictlyAscending(vs') && SortedByBandwidth(ws') && multiset(ws') == multiset(vs')
  {
    LastIsSame(vs, ws);
    var last, vs', ws' := vs[|vs| - 1], vs[..|vs| - 1], ws[..|ws| - 1];
    assert vs == vs' + [last] && ws == ws' + [last];
    SameWithoutLast(vs', ws', last);
    StillInOrder(vs', ws', last);
  }

  /** Variants of different bandwidths have one ascending order only. */
  lemma {:induction false} AscendingOrderIsUnique(vs: seq<Variant>, ws: seq<Variant>)
    requires StrictlyAscending(vs) && SortedByBandwidth(ws) && multiset(ws) == multiset(vs)
    ensures ws == vs
    decreases |vs|
  {
    if vs == [] {
      assert |multiset(ws)| == |ws|;
    } else {
      WithoutLast(vs, ws);
      AscendingOrderIsUnique(vs[..|vs| - 1], ws[..|ws| - 1]);
      assert vs == vs[..|vs| - 1] + [vs[|vs| - 1]] && ws == ws[..|ws| - 1] + [ws[|ws| - 1]];
    }
  }

  lemma StillInOrder(vs: seq<Variant>, ws: seq<Variant>, last: Variant)
    requires StrictlyAscending(vs + [last]) && SortedByBandwidth(ws + [last])
    ensures StrictlyAscending(vs) && SortedByBandwidth(ws)
  {
    assert forall k | 0 <= k < |vs| :: (vs + [last])[k] == vs[k];
    assert forall k | 0 <= k < |ws| :: (ws + [last])[k] == ws[k];
  }

  lemma SameWithoutLast(vs: seq<Variant>, ws: seq<Variant>, last: Variant)
    requires multiset(ws + [last]) == multiset(vs + [last])
    ensures multiset(ws) == multiset(vs)
  {
    assert multiset(vs) == multiset(vs + [last]) - multiset{last};
    assert multiset(ws) == multiset(ws + [last]) - multiset{last};
  }
}
