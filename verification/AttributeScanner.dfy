/** AttributeScanner: attribute lists of the form KEY=VALUE,KEY="QUOTED, VALUE". */
module AttributeScanner {
  import opened Wrappers
  import opened Text

  datatype Attribute = Attribute(key: string, value: string)

  /** Where a value that starts at from ends: at a comma outside quotes, or at the end. */
  function ValueEnd(s: string, from: nat, inQuotes: bool): (p: nat)
    requires from <= |s|
    ensures from <= p <= |s|
    decreases |s| - from
  {
    if from == |s| then from
    else if s[from] == '"' then ValueEnd(s, from + 1, !inQuotes)
    else if s[from] == ',' && !inQuotes then from
    else ValueEnd(s, from + 1, inQuotes)
  }

  function StripQuotes(s: string): string {
    if |s| >= 2 && s[0] == '"' && s[|s| - 1] == '"' then s[1..|s| - 1] else s
  }

  function SkipComma(s: string, cursor: nat): (p: nat)
    requires cursor <= |s|
    ensures cursor <= p <= |s|
  {
    if cursor < |s| && s[cursor] == ',' then cursor + 1 else cursor
  }

  datatype Step = Stop | Found(attribute: Attribute, cursor: nat)

  /** One attribute and where to go on; an empty key or a missing '=' ends the scan. */
  function ScanOne(s: string, cursor: nat): (r: Step)
    requires cursor <= |s|
    ensures r.Found? ==> cursor < r.cursor <= |s|
  {
    var eq := FindFrom(s, '=', cursor);
    if eq == |s| || eq == cursor then Stop
    else
      var end := ValueEnd(s, eq + 1, false);
      Found(Attribute(s[cursor..eq], StripQuotes(s[eq + 1..end])), SkipComma(s, end))
  }

  /** All attributes from cursor on. */
  function Scan(s: string, cursor: nat): seq<Attribute>
    requires cursor <= |s|
    decreases |s| - cursor
  {
    match ScanOne(s, cursor)
    case Stop => []
    case Found(attribute, next) => [attribute] + Scan(s, next)
  }

  class AttributeScanner {
    const attrs: string
    var cursor: nat

    predicate Valid()
      reads this
    {
      cursor <= |attrs|
    }

    constructor (attrs: string)
      ensures Valid() && this.attrs == attrs && cursor == 0
    {
      this.attrs := attrs;
      this.cursor := 0;
    }

    /** The next attribute; the cursor strictly grows unless it is at the end. */
    method Next() returns (r: Option<Attribute>)
      requires Valid()
      modifies this
      ensures Valid() && old(cursor) <= cursor && (old(cursor) < cursor || old(cursor) == |attrs|)
      ensures r.None? <==> Scan(attrs, old(cursor)) == []
      ensures r.Some? ==> old(cursor) < cursor
      ensures r.Some? ==> Scan(attrs, old(cursor)) == [r.value] + Scan(attrs, cursor)
    {
      if cursor >= |attrs| {
        return None;
      }
      var key := ReadKey();
      if key == "" {
        return None;
      }
      var value := ReadValue();
      SkipPastComma();
      r := Some(Attribute(key, StripQuotes(value)));
    }

    method ReadKey() returns (key: string)
      requires Valid()
      modifies this
      ensures Valid()
      ensures
        var eq := FindFrom(attrs, '=', old(cursor));
        if eq == |attrs| then key == "" && cursor == |attrs|
        else key == attrs[old(cursor)..eq] && cursor == eq + 1
    {
      var eq := FindFrom(attrs, '=', cursor);
      if eq == |attrs| {
        cursor := |attrs|;
        return "";
      }
      key := attrs[cursor..eq];
      cursor := eq + 1;
    }

    method ReadValue() returns (value: string)
      requires Valid()
      modifies this
      ensures Valid() && cursor == ValueEnd(attrs, old(cursor), false)
      ensures value == attrs[old(cursor)..cursor]
    {
      var inQuotes := false;
      var start := cursor;
      while cursor < |attrs|
        invariant start <= cursor <= |attrs|
        invariant ValueEnd(attrs, cursor, inQuotes) == ValueEnd(attrs, start, false)
      {
        if attrs[cursor] == '"' {
          inQuotes := !inQuotes;
        } else if attrs[cursor] == ',' && !inQuotes {
          break;
        }
        cursor := cursor + 1;
      }
      value := attrs[start..cursor];
    }

    method SkipPastComma()
      requires Valid()
      modifies this
      ensures Valid() && cursor == SkipComma(attrs, old(cursor))
    {
      if cursor < |attrs| && attrs[cursor] == ',' {
        cursor := cursor + 1;
      }
    }
  }

  // ---------- What is scanned, told from the characters ----------

  /** How many quotes stand in s[from..to]. */
  function Quotes(s: string, from: nat, to: nat): nat
    requires from <= to <= |s|
  {
    if from == to then 0 else Quotes(s, from, to - 1) + if s[to - 1] == '"' then 1 else 0
  }

  lemma {:induction false} QuotesFromNext(s: string, from: nat, to: nat)
    requires from < to <= |s|
    ensures Quotes(s, from, to) == Quotes(s, from + 1, to) + if s[from] == '"' then 1 else 0
  {
    if from + 1 < to {
      QuotesFromNext(s, from, to - 1);
    }
  }

  /** A comma at k would stand outside quotes: the quotes since from are paired. */
  predicate OutsideQuotes(s: string, from: nat, k: nat, inQuotes: bool)
    requires from <= k <= |s|
  {
    (Quotes(s, from, k) % 2 == 0) != inQuotes
  }

  /** A value ends at the first comma outside quotes, or at the end of the text. */
  lemma {:induction false} ValueEndsExactly(s: string, from: nat, inQuotes: bool)
    requires from <= |s|
    ensures
      var end := ValueEnd(s, from, inQuotes);
      && (end < |s| ==> s[end] == ',' && OutsideQuotes(s, from, end, inQuotes))
      && forall k | from <= k < end && s[k] == ',' :: !OutsideQuotes(s, from, k, inQuotes)
    decreases |s| - from
  {
    if from < |s| && !(s[from] == ',' && !inQuotes) {
      var inside := if s[from] == '"' then !inQuotes else inQuotes;
      var end := ValueEnd(s, from, inQuotes);
      ValueEndsExactly(s, from + 1, inside);
      forall k | from < k <= end
        ensures OutsideQuotes(s, from, k, inQuotes) <==> OutsideQuotes(s, from + 1, k, inside)
      {
        QuotesFromNext(s, from, k);
      }
    }
  }

  /** The scan ends when no '=' is left, or when one stands where a key should begin. */
  lemma ScanEndsExactlyWhen(s: string, cursor: nat)
    requires cursor <= |s|
    ensures Scan(s, cursor) == [] <==>
              (forall k | cursor <= k < |s| :: s[k] != '=') || (cursor < |s| && s[cursor] == '=')
  {
  }

  /** The first '=' from cursor on is at eq, behind a key. */
  predicate KeyEnds(s: string, cursor: nat, eq: nat) {
    cursor < eq < |s| && s[eq] == '=' && forall k | cursor <= k < eq :: s[k] != '='
  }

  /** A value from position from on ends at the first comma with paired quotes before it, or at the end. */
  predicate ValueEnds(s: string, from: nat, end: nat) {
    && from <= end <= |s|
    && (end < |s| ==> s[end] == ',' && Quotes(s, from, end) % 2 == 0)
    && (forall k | from <= k < end && s[k] == ',' :: Quotes(s, from, k) % 2 == 1)
  }

  lemma ValueEndsThere(s: string, from: nat)
    requires from <= |s|
    ensures ValueEnds(s, from, ValueEnd(s, from, false))
  {
    ValueEndsExactly(s, from, false);
    forall k | from <= k < ValueEnd(s, from, false) && s[k] == ',' ensures Quotes(s, from, k) % 2 == 1 {
      assert !OutsideQuotes(s, from, k, false);
    }
  }

  /** Otherwise the next attribute is the key and the value without the quotes around it; a comma is skipped. */
  lemma NextAttributeExactly(s: string, cursor: nat) returns (eq: nat, end: nat)
    requires cursor <= |s| && Scan(s, cursor) != []
    ensures KeyEnds(s, cursor, eq) && ValueEnds(s, eq + 1, end)
    ensures Scan(s, cursor) == [Attribute(s[cursor..eq], StripQuotes(s[eq + 1..end]))] + Scan(s, SkipComma(s, end))
  {
    eq := FindFrom(s, '=', cursor);
    KeyEndsThere(s, cursor);
    end := ValueEnd(s, eq + 1, false);
    ValueEndsThere(s, eq + 1);
    ScanUnfolds(s, cursor, eq, end);
  }

  lemma ScanUnfolds(s: string, cursor: nat, eq: nat, end: nat)
    requires cursor < eq < |s| && eq == FindFrom(s, '=', cursor) && end == ValueEnd(s, eq + 1, false)
    ensures Scan(s, cursor) == [Attribute(s[cursor..eq], StripQuotes(s[eq + 1..end]))] + Scan(s, SkipComma(s, end))
  {
  }

  lemma KeyEndsThere(s: string, cursor: nat)
    requires cursor <= |s| && Scan(s, cursor) != []
    ensures KeyEnds(s, cursor, FindFrom(s, '=', cursor))
  {
  }

  /** One pair of quotes around the whole value goes; any other value stays. */
  lemma StripsOnePair(value: string)
    ensures StripQuotes("\"" + value + "\"") == value
    ensures StripQuotes(value) == value || value == "\"" + StripQuotes(value) + "\""
  {
  }

  // ---------- Printing ----------

  datatype Printed = Printed(key: string, value: string, quoted: bool)

  predicate Lacks(s: string, c: char) {
    forall k | 0 <= k < |s| :: s[k] != c
  }

  /** What RFC 8216 section 4.2 lets a writer produce, and somewhat more: a key is not empty and has
      no '='; a value has no '"', and no ',' unless it is quoted. */
  predicate Printable(a: Printed) {
    && a.key != "" && Lacks(a.key, '=')
    && Lacks(a.value, '"') && (a.quoted || Lacks(a.value, ','))
  }

  function PrintValue(a: Printed): string {
    if a.quoted then "\"" + a.value + "\"" else a.value
  }

  function PrintOne(a: Printed): string {
    a.key + "=" + PrintValue(a)
  }

  function Print(list: seq<Printed>): string {
    if list == [] then ""
    else if |list| == 1 then PrintOne(list[0])
    else PrintOne(list[0]) + "," + Print(list[1..])
  }

  /** The pairs themselves, without the quotes. */
  function Pairs(list: seq<Printed>): seq<Attribute> {
    seq(|list|, k requires 0 <= k < |list| => Attribute(list[k].key, list[k].value))
  }

  lemma {:induction false} ValueEndPlain(s: string, from: nat, end: nat, inQuotes: bool)
    requires from <= end <= |s|
    requires forall k | from <= k < end :: s[k] != '"' && (inQuotes || s[k] != ',')
    ensures ValueEnd(s, from, inQuotes) == ValueEnd(s, end, inQuotes)
    decreases end - from
  {
    if from < end {
      ValueEndPlain(s, from + 1, end, inQuotes);
    }
  }

  /** s reads text at position from. */
  predicate Reads(s: string, from: nat, text: string) {
    from + |text| <= |s| && s[from..from + |text|] == text
  }

  lemma ValueEndOfPrinted(s: string, from: nat, a: Printed)
    requires Printable(a) && Reads(s, from, PrintValue(a))
    requires from + |PrintValue(a)| == |s| || s[from + |PrintValue(a)|] == ','
    ensures ValueEnd(s, from, false) == from + |PrintValue(a)|
    ensures StripQuotes(PrintValue(a)) == a.value
  {
    var v := PrintValue(a);
    var end := from + |v|;
    assert forall k | 0 <= k < |v| :: s[from + k] == s[from..end][k] == v[k];
    if a.quoted {
      assert forall k | 0 < k < |v| - 1 :: v[k] == a.value[k - 1];
      forall k | from + 1 <= k < end - 1 ensures s[k] != '"' {
        assert s[from + (k - from)] == v[k - from];
      }
      assert s[from] == '"' && s[end - 1] == '"';
      ValueEndPlain(s, from + 1, end - 1, true);
    } else {
      forall k | from <= k < end ensures s[k] != '"' && s[k] != ',' {
        assert s[from + (k - from)] == v[k - from];
      }
      ValueEndPlain(s, from, end, false);
    }
  }

  lemma ReadsParts(s: string, from: nat, a: string, b: string)
    requires Reads(s, from, a + b)
    ensures Reads(s, from, a) && Reads(s, from + |a|, b)
  {
    var both := s[from..from + |a + b|];
    assert both[..|a|] == a && both[|a|..] == b;
    assert s[from..from + |a|] == both[..|a|];
    assert s[from + |a|..from + |a| + |b|] == both[|a|..];
  }

  lemma FindAfterKey(s: string, from: nat, key: string)
    requires Reads(s, from, key) && Reads(s, from + |key|, "=") && Lacks(key, '=')
    ensures FindFrom(s, '=', from) == from + |key|
  {
    var eq := from + |key|;
    assert s[eq] == s[eq..eq + 1][0] == '=';
    forall k | from <= k < eq ensures s[k] != '=' {
      assert s[k] == s[from..eq][k - from] == key[k - from];
    }
  }

  /** From cursor on: the key up to eq, an equals sign, the value up to end. */
  predicate PairAt(s: string, cursor: nat, eq: nat, end: nat, key: string, value: string) {
    && cursor <= eq < end <= |s| && FindFrom(s, '=', cursor) == eq
    && s[cursor..eq] == key && s[eq + 1..end] == value
  }

  lemma ScanPairAt(s: string, cursor: nat, eq: nat, end: nat, key: string, value: string)
    requires key != "" && PairAt(s, cursor, eq, end, key, value) && ValueEnd(s, eq + 1, false) == end
    ensures ScanOne(s, cursor) == Found(Attribute(key, StripQuotes(value)), SkipComma(s, end))
  {
  }

  lemma ScanKeyValue(s: string, cursor: nat, key: string, value: string)
    requires key != "" && Lacks(key, '=') && Reads(s, cursor, key + "=" + value)
    requires ValueEnd(s, cursor + |key| + 1, false) == cursor + |key| + 1 + |value|
    ensures ScanOne(s, cursor) ==
            Found(Attribute(key, StripQuotes(value)), SkipComma(s, cursor + |key| + 1 + |value|))
  {
    var eq := cursor + |key|;
    var end := eq + 1 + |value|;
    KeyAndValueAt(s, cursor, key, value);
    ScanPairAt(s, cursor, eq, end, key, value);
  }

  lemma KeyAndValueAt(s: string, cursor: nat, key: string, value: string)
    requires Lacks(key, '=') && Reads(s, cursor, key + "=" + value)
    ensures PairAt(s, cursor, cursor + |key|, cursor + |key| + 1 + |value|, key, value)
  {
    ReadsParts(s, cursor, key + "=", value);
    ReadsParts(s, cursor, key, "=");
    FindAfterKey(s, cursor, key);
  }

  lemma ScanFirstPrinted(s: string, cursor: nat, a: Printed)
    requires Printable(a) && Reads(s, cursor, PrintOne(a))
    requires cursor + |PrintOne(a)| == |s| || s[cursor + |PrintOne(a)|] == ','
    ensures ScanOne(s, cursor) == Found(Attribute(a.key, a.value), SkipComma(s, cursor + |PrintOne(a)|))
  {
    var key, value := a.key, PrintValue(a);
    PartsOfPrinted(s, cursor, a);
    ValueEndOfPrinted(s, cursor + |key| + 1, a);
    ScanKeyValue(s, cursor, key, value);
  }

  lemma PartsOfPrinted(s: string, cursor: nat, a: Printed)
    requires Reads(s, cursor, PrintOne(a))
    ensures |PrintOne(a)| == |a.key| + 1 + |PrintValue(a)|
    ensures Reads(s, cursor, a.key + "=" + PrintValue(a)) && Reads(s, cursor + |a.key| + 1, PrintValue(a))
  {
    ReadsParts(s, cursor, a.key + "=", PrintValue(a));
  }

  lemma ScanLastPrinted(s: string, cursor: nat, a: Printed)
    requires Printable(a) && Reads(s, cursor, PrintOne(a)) && cursor + |PrintOne(a)| == |s|
    ensures ScanOne(s, cursor) == Found(Attribute(a.key, a.value), |s|)
  {
    ScanFirstPrinted(s, cursor, a);
  }

  lemma ScanNextPrinted(s: string, cursor: nat, a: Printed)
    requires Printable(a) && Reads(s, cursor, PrintOne(a))
    requires cursor + |PrintOne(a)| < |s| && s[cursor + |PrintOne(a)|] == ','
    ensures ScanOne(s, cursor) == Found(Attribute(a.key, a.value), cursor + |PrintOne(a)| + 1)
  {
    ScanFirstPrinted(s, cursor, a);
  }

  lemma ReadsMiddle(before: string, one: string, after: string)
    ensures
      var s := before + (one + after);
      && Reads(s, |before|, one)
      && (after != "" ==> |before| + |one| < |s| && s[|before| + |one|] == after[0])
  {
    var s := before + (one + after);
    assert s[|before|..|before| + |one|] == one;
  }

  lemma PrintSplits(before: string, list: seq<Printed>)
    requires |list| > 1
    ensures before + Print(list) == before + (PrintOne(list[0]) + ("," + Print(list[1..])))
    ensures before + Print(list) == (before + PrintOne(list[0]) + ",") + Print(list[1..])
  {
    CommaSplits(before, PrintOne(list[0]), Print(list[1..]));
  }

  lemma CommaSplits(before: string, one: string, rest: string)
    ensures before + (one + "," + rest) == before + (one + ("," + rest))
    ensures before + (one + "," + rest) == (before + one + ",") + rest
  {
  }

  lemma ScanStep(s: string, cursor: nat, a: Attribute, next: nat)
    requires cursor <= |s| && ScanOne(s, cursor) == Found(a, next)
    ensures Scan(s, cursor) == [a] + Scan(s, next)
  {
  }

  lemma ScanOfPrintLast(before: string, a: Printed)
    requires Printable(a)
    ensures Scan(before + PrintOne(a), |before|) == [Attribute(a.key, a.value)]
  {
    var s := before + PrintOne(a);
    ReadsAtEnd(before, PrintOne(a));
    ScanLastPrinted(s, |before|, a);
    ScanLastOne(s, |before|, Attribute(a.key, a.value));
  }

  lemma ScanLastOne(s: string, cursor: nat, a: Attribute)
    requires cursor <= |s| && ScanOne(s, cursor) == Found(a, |s|)
    ensures Scan(s, cursor) == [a]
  {
    ScanStep(s, cursor, a, |s|);
    ScanAtEnd(s);
  }

  lemma ReadsAtEnd(before: string, one: string)
    ensures Reads(before + one, |before|, one)
  {
    ReadsMiddle(before, one, "");
    assert one + "" == one;
  }

  lemma ScanAtEnd(s: string)
    ensures Scan(s, |s|) == []
  {
  }

  lemma ScanJoined(before: string, a: Printed, rest: string)
    requires Printable(a)
    ensures ScanOne(before + (PrintOne(a) + ("," + rest)), |before|) ==
            Found(Attribute(a.key, a.value), |before| + |PrintOne(a)| + 1)
  {
    ReadsMiddle(before, PrintOne(a), "," + rest);
    ScanNextPrinted(before + (PrintOne(a) + ("," + rest)), |before|, a);
  }

  /** The first attribute of a text s and the attributes of the same text from where it ends. */
  lemma ScanAssembled(s: string, cursor: nat, a: Attribute, s': string, cursor': nat, rest: seq<Attribute>)
    requires s == s' && cursor <= |s| && cursor' <= |s'|
    requires ScanOne(s, cursor) == Found(a, cursor') && Scan(s', cursor') == rest
    ensures Scan(s, cursor) == [a] + rest
  {
  }

  /** Scanning a printed list that stands at the end of a text gives the pairs back. */
  lemma {:induction false} ScanOfPrint(before: string, list: seq<Printed>)
    requires forall k | 0 <= k < |list| :: Printable(list[k])
    ensures Scan(before + Print(list), |before|) == Pairs(list)
    decreases |list|
  {
    if list == [] {
      assert before + Print(list) == before;
    } else {
      PairsOfFirst(list);
      if |list| == 1 {
        ScanOfPrintLast(before, list[0]);
      } else {
        var before' := before + PrintOne(list[0]) + ",";
        var others, text := list[1..], Print(list[1..]);
        PrintSplits(before, list);
        ScanJoined(before, list[0], text);
        ScanOfPrint(before', others);
        ScanAssembled(before + Print(list), |before|, Attribute(list[0].key, list[0].value),
                      before' + text, |before'|, Pairs(others));
      }
    }
  }

  lemma PairsOfFirst(list: seq<Printed>)
    requires list != []
    ensures Pairs(list) == [Attribute(list[0].key, list[0].value)] + Pairs(list[1..])
  {
  }

  /** The scanner reads back any printable attribute list, with the quotes stripped. */
  lemma AttributeListRoundTrip(list: seq<Printed>)
    requires forall k | 0 <= k < |list| :: Printable(list[k])
    ensures Scan(Print(list), 0) == Pairs(list)
  {
    ScanOfPrint("", list);
    NothingBefore(Print(list));
    SameScan("" + Print(list), Print(list), |""|, 0);
  }

  lemma NothingBefore(s: string)
    ensures "" + s == s
  {
  }

  lemma SameScan(s: string, s': string, cursor: nat, cursor': nat)
    requires s == s' && cursor == cursor' <= |s|
    ensures Scan(s, cursor) == Scan(s', cursor')
  {
  }
}
