/** Rewrites of a manifest's text that leave what it means unchanged. */
module ManifestRewrites {
  import opened Wrappers
  import opened Text
  import opened Playlist
  import opened ManifestParser
  import opened ManifestText

  // ---------- Line endings ----------

  /** Every line feed preceded by a carriage return. */
  function ToCrlf(s: string): string {
    if s == "" then "" else (if s[0] == '\n' then "\r\n" else [s[0]]) + ToCrlf(s[1..])
  }

  lemma {:induction false} CrlfOfConcat(a: string, b: string)
    ensures ToCrlf(a + b) == ToCrlf(a) + ToCrlf(b)
  {
    if a == "" {
      assert a + b == b;
    } else {
      assert (a + b)[0] == a[0] && (a + b)[1..] == a[1..] + b;
      CrlfOfConcat(a[1..], b);
    }
  }

  lemma {:induction false} CrlfOfOneLine(s: string)
    requires OneLine(s)
    ensures ToCrlf(s) == s
  {
    if s != "" {
      CrlfOfOneLine(s[1..]);
    }
  }

  lemma CrlfOfFirstLine(line: string, rest: string)
    requires OneLine(line)
    ensures ToCrlf(line + "\n" + rest) == (line + "\r") + "\n" + ToCrlf(rest)
  {
    CrlfOfConcat(line + "\n", rest);
    CrlfOfConcat(line, "\n");
    CrlfOfOneLine(line);
    assert ToCrlf("\n") == "\r\n" + ToCrlf("");
    assert line + "\r\n" == (line + "\r") + "\n";
  }

  lemma {:induction false} EntriesOfCrlf(s: string, first: nat)
    ensures Entries(Lines(ToCrlf(s)), first) == Entries(Lines(s), first)
    decreases |s|
  {
    if s != "" {
      var line, rest := SplitFirstLine(s);
      if OneLine(s) {
        CrlfOfOneLine(s);
      } else {
        CrlfOfFirstLine(line, rest);
        FirstLine(line, rest);
        FirstLine(line + "\r", ToCrlf(rest));
        EntriesOfFirst(line, Lines(rest), first);
        EntriesOfFirst(line + "\r", Lines(ToCrlf(rest)), first);
        TrimIgnoresCarriageReturn(line);
        EntriesOfCrlf(rest, first + 1);
      }
    }
  }

  lemma BomOfCrlf(s: string)
    ensures StripBom(ToCrlf(s)) == ToCrlf(StripBom(s))
  {
    if BOM <= s {
      assert s == BOM + s[3..];
      CrlfOfConcat(BOM, s[3..]);
      CrlfOfOneLine(BOM);
      assert (BOM + ToCrlf(s[3..]))[3..] == ToCrlf(s[3..]);
    } else {
      CrlfAddsNoPrefix(s, BOM);
    }
  }

  lemma {:induction false} CrlfAddsNoPrefix(s: string, prefix: string)
    requires forall k | 0 <= k < |prefix| :: prefix[k] != '\r' && prefix[k] != '\n'
    ensures prefix <= ToCrlf(s) ==> prefix <= s
    decreases |prefix|
  {
    if prefix != "" && s != "" && prefix <= ToCrlf(s) {
      assert ToCrlf(s)[0] == prefix[0];
      assert ToCrlf(s)[1..] == ToCrlf(s[1..]);
      assert prefix[1..] <= ToCrlf(s[1..]) by {
        assert ToCrlf(s)[..|prefix|][1..] == prefix[1..];
      }
      CrlfAddsNoPrefix(s[1..], prefix[1..]);
      assert s == [s[0]] + s[1..];
    }
  }

  /** Writing every line end as CR LF changes nothing, not even the line number of an error. */
  lemma CrlfChangesNothing(content: string)
    ensures Parse(ToCrlf(content)) == Parse(content)
  {
    BomOfCrlf(content);
    EntriesOfCrlf(StripBom(content), 1);
  }

  /** Nor does a byte order mark put before text that has none. */
  lemma BomChangesNothing(content: string)
    requires !(['\U{EF}', '\U{BB}', '\U{BF}'] <= content)
    ensures Parse(['\U{EF}', '\U{BB}', '\U{BF}'] + content) == Parse(content)
  {
    assert (BOM + content)[3..] == content;
  }

  // ---------- Lines without effect ----------

  /** Blank, or a comment or tag the parser has no entry for. */
  predicate Inert(line: string) {
    OneLine(line) && (Trim(line) == "" || KindOf(Trim(line)) == Ignored)
  }

  predicate SamePlaylist(r: Result<Playlist, ParseError>, s: Result<Playlist, ParseError>) {
    (r.Ok? <==> s.Ok?) && (r.Ok? ==> r == s)
  }

  predicate SameState(r: Result<State, ParseError>, s: Result<State, ParseError>) {
    (r.Ok? <==> s.Ok?) && (r.Ok? ==> r == s)
  }

  lemma EntriesOfBlank(line: string, rest: seq<string>, first: nat)
    requires Trim(line) == ""
    ensures Entries([line] + rest, first) == Entries(rest, first + 1)
  {
    assert ([line] + rest)[1..] == rest;
  }

  lemma FoldOfStep(st: State, line: string, rest: seq<string>, first: nat)
    requires Trim(line) != ""
    ensures
      var r := Step(st, Trim(line), first);
      Fold(st, Entries([line] + rest, first)) == if r.Err? then r else Fold(r.value, Entries(rest, first + 1))
  {
    assert ([line] + rest)[1..] == rest;
    FoldOfFirst(st, Entry(Trim(line), first), Entries(rest, first + 1));
  }

  lemma StepNumberDoesNotMatter(st: State, text: string, first: nat, other: nat)
    ensures SameState(Step(st, text, first), Step(st, text, other))
  {
  }

  lemma {:induction false} NumbersDoNotMatter(st: State, lines: seq<string>, first: nat, other: nat)
    ensures SameState(Fold(st, Entries(lines, first)), Fold(st, Entries(lines, other)))
    decreases lines
  {
    if lines != [] {
      var line, rest := lines[0], lines[1..];
      assert lines == [line] + rest;
      if Trim(line) == "" {
        EntriesOfBlank(line, rest, first);
        EntriesOfBlank(line, rest, other);
        NumbersDoNotMatter(st, rest, first + 1, other + 1);
      } else {
        FoldOfStep(st, line, rest, first);
        FoldOfStep(st, line, rest, other);
        StepNumberDoesNotMatter(st, Trim(line), first, other);
        var r := Step(st, Trim(line), first);
        if r.Ok? {
          NumbersDoNotMatter(r.value, rest, first + 1, other + 1);
        }
      }
    }
  }

  lemma {:induction false} InertLineIsSkipped(st: State, line: string, lines: seq<string>, first: nat)
    requires Inert(line)
    ensures Fold(st, EntryOf(line, first) + Entries(lines, first + 1)) == Fold(st, Entries(lines, first + 1))
  {
    var rest := Entries(lines, first + 1);
    if Trim(line) == "" {
      assert EntryOf(line, first) + rest == rest;
    } else {
      FoldOfFirst(st, Entry(Trim(line), first), rest);
      assert Lex(Trim(line)) == OtherToken;
    }
  }

  lemma InertLineKeepsFold(st: State, a: seq<Entry>, line: string, b: seq<string>, first: nat)
    requires Inert(line)
    ensures SameState(Fold(st, a + (EntryOf(line, first) + Entries(b, first + 1))), Fold(st, a + Entries(b, first)))
  {
    FoldOfConcat(st, a, EntryOf(line, first) + Entries(b, first + 1));
    FoldOfConcat(st, a, Entries(b, first));
    var r := Fold(st, a);
    if r.Ok? {
      InertLineIsSkipped(r.value, line, b, first);
      NumbersDoNotMatter(r.value, b, first + 1, first);
    }
  }

  lemma EntriesOfTextConcat(a: string, b: string)
    requires AtLineStart(a)
    ensures Entries(Lines(a + b), 1) == Entries(Lines(a), 1) + Entries(Lines(b), 1 + |Lines(a)|)
  {
    EntriesOfConcat(Lines(a), Lines(b), 1);
    LinesOfConcat(a, b);
  }

  lemma EntriesOfTextLine(line: string, b: string, first: nat)
    requires OneLine(line)
    ensures Entries(Lines(line + "\n" + b), first) == EntryOf(line, first) + Entries(Lines(b), first + 1)
  {
    FirstLine(line, b);
    EntriesOfFirst(line, Lines(b), first);
  }

  lemma SameBodySamePlaylist(head: Entry, body: seq<Entry>, other: Entry, body': seq<Entry>)
    requires head.text == other.text && SameState(Fold(START, body), Fold(START, body'))
    ensures SamePlaylist(ParseEntries([head] + body), ParseEntries([other] + body'))
  {
    assert ([head] + body)[1..] == body && ([other] + body')[1..] == body';
  }

  lemma InertLineKeepsEntries(a: seq<Entry>, line: string, b: seq<string>, first: nat)
    requires Inert(line) && (a == [] ==> Trim(line) == "")
    ensures SamePlaylist(ParseEntries(a + (EntryOf(line, first) + Entries(b, first + 1))),
                         ParseEntries(a + Entries(b, first)))
  {
    if a != [] {
      InertLineKeepsFold(START, a[1..], line, b, first);
      SameBodySamePlaylist(a[0], a[1..] + (EntryOf(line, first) + Entries(b, first + 1)),
                           a[0], a[1..] + Entries(b, first));
      HeadAndTail(a, EntryOf(line, first) + Entries(b, first + 1));
      HeadAndTail(a, Entries(b, first));
    } else {
      assert a + (EntryOf(line, first) + Entries(b, first + 1)) == Entries(b, first + 1);
      assert a + Entries(b, first) == Entries(b, first);
      RenumberedParse(b, first + 1, first);
    }
  }

  lemma HeadAndTail(a: seq<Entry>, b: seq<Entry>)
    requires a != []
    ensures [a[0]] + (a[1..] + b) == a + b
  {
  }

  /** The number of the first line does not matter to a successful parse. */
  lemma {:induction false} RenumberedParse(lines: seq<string>, first: nat, other: nat)
    ensures SamePlaylist(ParseEntries(Entries(lines, first)), ParseEntries(Entries(lines, other)))
    decreases lines
  {
    if lines != [] {
      var line, rest := lines[0], lines[1..];
      if Trim(line) == "" {
        assert EntryOf(line, first) + Entries(rest, first + 1) == Entries(rest, first + 1);
        assert EntryOf(line, other) + Entries(rest, other + 1) == Entries(rest, other + 1);
        RenumberedParse(rest, first + 1, other + 1);
      } else {
        NumbersDoNotMatter(START, rest, first + 1, other + 1);
        SameBodySamePlaylist(Entry(Trim(line), first), Entries(rest, first + 1),
                             Entry(Trim(line), other), Entries(rest, other + 1));
      }
    }
  }

  lemma BomStaysInFront(a: string, b: string)
    requires AtLineStart(a) && (a == "" ==> !(BOM <= b))
    ensures StripBom(a + b) == StripBom(a) + b && AtLineStart(StripBom(a))
  {
    if a == "" {
      assert a + b == b;
    } else {
      assert a[|a| - 1] == '\n';
      if BOM <= a + b {
        assert forall k | 0 <= k < 3 && k < |a| :: a[k] == (a + b)[k] == BOM[k];
        assert |a| > 3 && BOM <= a;
        assert (a + b)[3..] == a[3..] + b;
      } else {
        assert BOM <= a ==> BOM <= a + b;
      }
    }
  }

  /**
    A line without effect may be put at any line boundary: a blank one anywhere, a comment or an
    unknown tag anywhere after the header. The text is accepted or not as before, and a playlist
    read from it is the same.
   */
  lemma InertLineChangesNothing(a: string, line: string, b: string)
    requires AtLineStart(a) && Inert(line)
    requires a == "" ==> !(BOM <= b) && !(BOM <= line + "\n" + b)
    requires Entries(Lines(StripBom(a)), 1) == [] ==> Trim(line) == ""
    ensures SamePlaylist(Parse(a + (line + "\n" + b)), Parse(a + b))
  {
    BomStaysInFront(a, b);
    BomStaysInFront(a, line + "\n" + b);
    InertLineKeepsText(StripBom(a), line, b);
    ParseOfText(a + b);
    ParseOfText(a + (line + "\n" + b));
  }

  lemma EntriesWithLine(text: string, line: string, b: string)
    requires AtLineStart(text) && OneLine(line)
    ensures
      var first := 1 + |Lines(text)|;
      Entries(Lines(text + (line + "\n" + b)), 1)
      == Entries(Lines(text), 1) + (EntryOf(line, first) + Entries(Lines(b), first + 1))
  {
    EntriesOfTextConcat(text, line + "\n" + b);
    EntriesOfTextLine(line, b, 1 + |Lines(text)|);
  }

  /** The same for text whose byte order mark has been set aside. */
  lemma InertLineKeepsText(text: string, line: string, b: string)
    requires AtLineStart(text) && Inert(line)
    requires Entries(Lines(text), 1) == [] ==> Trim(line) == ""
    ensures SamePlaylist(ParseEntries(Entries(Lines(text + (line + "\n" + b)), 1)),
                         ParseEntries(Entries(Lines(text + b), 1)))
  {
    EntriesOfTextConcat(text, b);
    EntriesWithLine(text, line, b);
    InertLineKeepsEntries(Entries(Lines(text), 1), line, Lines(b), 1 + |Lines(text)|);
  }

  lemma ParseOfText(content: string)
    ensures SamePlaylist(Parse(content), ParseEntries(Entries(Lines(StripBom(content)), 1)))
  {
    EmptyIsRejected(StripBom(content));
  }

  lemma EmptyIsRejected(text: string)
    ensures text == "" ==> ParseEntries(Entries(Lines(text), 1)).Err?
  {
  }
}
