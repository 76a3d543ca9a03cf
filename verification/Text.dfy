/** Characters, lines and searching, as the manifest parser uses them. */
module Text {

  /** Position of the first c at or after from, or the length if there is none. */
  function FindFrom(s: string, c: char, from: nat): (p: nat)
    requires from <= |s|
    ensures from <= p <= |s|
    ensures forall k | from <= k < p :: s[k] != c
    ensures p < |s| ==> s[p] == c
    decreases |s| - from
  {
    if from == |s| || s[from] == c then from else FindFrom(s, c, from + 1)
  }

  // ---------- Trimming ----------

  predicate IsBack(c: char) {
    c == '\r' || c == ' ' || c == '\t'
  }

  predicate IsFront(c: char) {
    c == ' ' || c == '\t'
  }

  function TrimBack(s: string): string {
    if s != "" && IsBack(s[|s| - 1]) then TrimBack(s[..|s| - 1]) else s
  }

  function TrimFront(s: string): string {
    if s != "" && IsFront(s[0]) then TrimFront(s[1..]) else s
  }

  function Trim(s: string): string {
    TrimFront(TrimBack(s))
  }

  /** Nothing at either end to trim. */
  predicate Trimmed(s: string) {
    s != "" ==> !IsBack(s[|s| - 1]) && !IsFront(s[0])
  }

  lemma TrimOfTrimmed(s: string)
    requires Trimmed(s)
    ensures Trim(s) == s
  {
  }

  predicate Only(s: string, chars: string) {
    forall k | 0 <= k < |s| :: s[k] in chars
  }

  lemma {:induction false} BackIsCut(s: string) returns (back: string)
    ensures s == TrimBack(s) + back && Only(back, " \t\r")
    ensures TrimBack(s) != "" ==> TrimBack(s)[|TrimBack(s)| - 1] !in " \t\r"
  {
    if s != "" && IsBack(s[|s| - 1]) {
      back := BackIsCut(s[..|s| - 1]);
      back := back + [s[|s| - 1]];
    } else {
      back := "";
    }
  }

  lemma {:induction false} FrontIsCut(s: string) returns (front: string)
    ensures s == front + TrimFront(s) && Only(front, " \t")
    ensures TrimFront(s) != "" ==>
              TrimFront(s)[0] !in " \t" && TrimFront(s)[|TrimFront(s)| - 1] == s[|s| - 1]
  {
    if s != "" && IsFront(s[0]) {
      front := FrontIsCut(s[1..]);
      front := [s[0]] + front;
    } else {
      front := "";
    }
  }

  /** Exactly the blanks, tabs and carriage returns behind go, and the blanks and tabs in front. */
  lemma TrimCutsExactly(s: string) returns (front: string, back: string)
    ensures s == front + Trim(s) + back && Only(front, " \t") && Only(back, " \t\r")
    ensures Trim(s) != "" ==> Trim(s)[0] !in " \t" && Trim(s)[|Trim(s)| - 1] !in " \t\r"
  {
    back := BackIsCut(s);
    front := FrontIsCut(TrimBack(s));
  }

  lemma TrimIgnoresCarriageReturn(s: string)
    ensures Trim(s + "\r") == Trim(s)
  {
    assert (s + "\r")[..|s|] == s;
  }

  // ---------- Lines ----------

  /** The pieces between line feeds; a line feed at the very end opens no further line. */
  function Lines(s: string): (lines: seq<string>)
    decreases |s|
  {
    if s == "" then []
    else
      var p := FindFrom(s, '\n', 0);
      if p == |s| then [s] else [s[..p]] + Lines(s[p + 1..])
  }

  predicate OneLine(s: string) {
    forall k | 0 <= k < |s| :: s[k] != '\n'
  }

  /** The lines, each ended by a line feed. */
  function Unlines(lines: seq<string>): string {
    if lines == [] then "" else lines[0] + "\n" + Unlines(lines[1..])
  }

  /** Text is its first line and the rest. */
  lemma FirstLine(line: string, rest: string)
    requires OneLine(line)
    ensures Lines(line + "\n" + rest) == [line] + Lines(rest)
  {
    var s := line + "\n" + rest;
    assert s[|line|] == '\n' && forall k | 0 <= k < |line| :: s[k] == line[k];
    assert FindFrom(s, '\n', 0) == |line|;
    assert s[..|line|] == line && s[|line| + 1..] == rest;
  }

  lemma OnlyLine(s: string)
    requires OneLine(s) && s != ""
    ensures Lines(s) == [s]
  {
    assert FindFrom(s, '\n', 0) == |s|;
  }

  /** Text either is one last line or begins with a line and a line feed. */
  lemma SplitFirstLine(s: string) returns (line: string, rest: string)
    requires s != ""
    ensures OneLine(line)
    ensures if OneLine(s) then line == s && rest == "" else s == line + "\n" + rest
  {
    var p := FindFrom(s, '\n', 0);
    if p == |s| {
      line, rest := s, "";
    } else {
      line, rest := s[..p], s[p + 1..];
      assert s[p] == '\n';
      assert s == s[..p] + [s[p]] + s[p + 1..];
    }
  }

  /** Lines undoes Unlines. */
  lemma {:induction false} LinesOfUnlines(lines: seq<string>)
    requires forall k | 0 <= k < |lines| :: OneLine(lines[k])
    ensures Lines(Unlines(lines)) == lines
  {
    if lines != [] {
      FirstLine(lines[0], Unlines(lines[1..]));
      LinesOfUnlines(lines[1..]);
    }
  }

  /** Text that ends at a line boundary. */
  predicate AtLineStart(s: string) {
    s == "" || s[|s| - 1] == '\n'
  }

  lemma BoundaryOfRest(line: string, rest: string)
    ensures AtLineStart(line + "\n" + rest) == AtLineStart(rest)
  {
    var s := line + "\n" + rest;
    assert rest != "" ==> s[|s| - 1] == rest[|rest| - 1];
  }

  /** Unlines undoes Lines, up to a line feed at the end; and no line holds a line feed. */
  lemma {:induction false} UnlinesOfLines(s: string)
    ensures Unlines(Lines(s)) == if AtLineStart(s) then s else s + "\n"
    ensures forall k | 0 <= k < |Lines(s)| :: OneLine(Lines(s)[k])
    decreases |s|
  {
    if s != "" {
      var line, rest := SplitFirstLine(s);
      if OneLine(s) {
        OnlyLine(s);
        UnlinesOfFirst(s, []);
        assert !AtLineStart(s) && [s] + [] == [s];
      } else {
        UnlinesOfLines(rest);
        UnlinesOfLineAndRest(line, rest);
      }
    }
  }

  lemma UnlinesOfLineAndRest(line: string, rest: string)
    requires OneLine(line)
    requires Unlines(Lines(rest)) == if AtLineStart(rest) then rest else rest + "\n"
    ensures
      var s := line + "\n" + rest;
      && Lines(s) == [line] + Lines(rest)
      && Unlines(Lines(s)) == if AtLineStart(s) then s else s + "\n"
  {
    FirstLine(line, rest);
    BoundaryOfRest(line, rest);
    UnlinesOfFirst(line, Lines(rest));
    ConcatAssociates(line, "\n", rest, "\n");
  }

  lemma UnlinesOfFirst(line: string, lines: seq<string>)
    ensures Unlines([line] + lines) == line + "\n" + Unlines(lines)
  {
    assert ([line] + lines)[1..] == lines;
  }

  lemma {:induction false} LinesOfConcat(a: string, b: string)
    requires AtLineStart(a)
    ensures Lines(a + b) == Lines(a) + Lines(b)
    decreases |a|
  {
    if a == "" {
      assert a + b == b;
    } else {
      assert a[|a| - 1] == '\n' && !OneLine(a);
      var line, rest := SplitFirstLine(a);
      BoundaryOfRest(line, rest);
      LinesOfConcat(rest, b);
      FirstLineOfConcat(line, rest, b);
    }
  }

  lemma ConcatAssociates<T>(a: seq<T>, b: seq<T>, c: seq<T>, d: seq<T>)
    ensures a + b + c + d == a + b + (c + d)
  {
  }

  lemma FirstLineOfConcat(line: string, rest: string, b: string)
    requires OneLine(line) && Lines(rest + b) == Lines(rest) + Lines(b)
    ensures Lines(line + "\n" + rest + b) == Lines(line + "\n" + rest) + Lines(b)
  {
    ConcatAssociates(line, "\n", rest, b);
    FirstLine(line, rest);
    FirstLine(line, rest + b);
    ConcatAssociates([], [line], Lines(rest), Lines(b));
  }

  // ---------- Numbered lines ----------

  /** A line that is not empty after trimming, with its number. */
  datatype Entry = Entry(text: string, number: nat)

  /** Trim, number from first, drop what is empty. */
  function Entries(lines: seq<string>, first: nat): seq<Entry> {
    if lines == [] then []
    else EntryOf(lines[0], first) + Entries(lines[1..], first + 1)
  }

  /** The entry of one line, if it has one. */
  function EntryOf(line: string, number: nat): seq<Entry> {
    if Trim(line) == "" then [] else [Entry(Trim(line), number)]
  }

  lemma EntriesOfFirst(line: string, lines: seq<string>, first: nat)
    ensures Entries([line] + lines, first) == EntryOf(line, first) + Entries(lines, first + 1)
  {
    assert ([line] + lines)[1..] == lines;
  }

  lemma {:induction false} EntriesOfConcat(a: seq<string>, b: seq<string>, first: nat)
    ensures Entries(a + b, first) == Entries(a, first) + Entries(b, first + |a|)
  {
    if a == [] {
      assert a + b == b;
    } else {
      EntriesOfConcat(a[1..], b, first + 1);
      EntriesOfFirstConcat(a[0], a[1..], b, first);
      assert a == [a[0]] + a[1..];
    }
  }

  lemma EntriesOfFirstConcat(line: string, a: seq<string>, b: seq<string>, first: nat)
    requires Entries(a + b, first + 1) == Entries(a, first + 1) + Entries(b, first + 1 + |a|)
    ensures Entries([line] + a + b, first) == Entries([line] + a, first) + Entries(b, first + 1 + |a|)
  {
    assert [line] + a + b == [line] + (a + b);
    EntriesOfFirst(line, a + b, first);
    EntriesOfFirst(line, a, first);
    ConcatAssociates([], EntryOf(line, first), Entries(a, first + 1), Entries(b, first + 1 + |a|));
  }

  /** e is the trimmed text of one of the lines, with the number of that line, counted from first. */
  predicate IsLineOf(e: Entry, lines: seq<string>, first: nat) {
    first <= e.number < first + |lines| && e.text == Trim(lines[e.number - first]) && e.text != ""
  }

  /** The lines that are not blank, each once, in order, with their own numbers. */
  predicate AreLinesOf(es: seq<Entry>, lines: seq<string>, first: nat) {
    && (forall k | 0 <= k < |es| :: IsLineOf(es[k], lines, first))
    && (forall j, k | 0 <= j < k < |es| :: es[j].number < es[k].number)
    && (forall i | 0 <= i < |lines| && Trim(lines[i]) != "" :: Entry(Trim(lines[i]), first + i) in es)
  }

  lemma BlankLineAdded(es: seq<Entry>, line: string, lines: seq<string>, first: nat)
    requires AreLinesOf(es, lines, first + 1) && Trim(line) == ""
    ensures AreLinesOf(es, [line] + lines, first)
  {
    var more := [line] + lines;
    forall k | 0 <= k < |es| ensures IsLineOf(es[k], more, first) {
      assert IsLineOf(es[k], lines, first + 1);
    }
    forall i | 0 <= i < |more| && Trim(more[i]) != "" ensures Entry(Trim(more[i]), first + i) in es {
      assert more[i] == lines[i - 1];
    }
  }

  lemma FullLineAdded(es: seq<Entry>, line: string, lines: seq<string>, first: nat)
    requires AreLinesOf(es, lines, first + 1) && Trim(line) != ""
    ensures AreLinesOf([Entry(Trim(line), first)] + es, [line] + lines, first)
  {
    var e := Entry(Trim(line), first);
    var es', more := [e] + es, [line] + lines;
    EntriesGrow(e, es, lines, first);
    forall k | 0 <= k < |es'| ensures IsLineOf(es'[k], more, first) {
      if k > 0 {
        assert es'[k] == es[k - 1] && IsLineOf(es[k - 1], lines, first + 1);
      }
    }
    forall i | 0 <= i < |more| && Trim(more[i]) != "" ensures Entry(Trim(more[i]), first + i) in es' {
      if i == 0 {
        assert es'[0] == e;
      } else {
        LineStillThere(e, es, lines, first, i - 1);
      }
    }
  }

  lemma EntriesGrow(e: Entry, es: seq<Entry>, lines: seq<string>, first: nat)
    requires AreLinesOf(es, lines, first + 1) && e.number == first
    ensures forall j, k | 0 <= j < k < |es| + 1 :: ([e] + es)[j].number < ([e] + es)[k].number
  {
    forall k | 0 <= k < |es| ensures es[k].number > first {
      assert IsLineOf(es[k], lines, first + 1);
    }
  }

  lemma LineStillThere(e: Entry, es: seq<Entry>, lines: seq<string>, first: nat, i: nat)
    requires AreLinesOf(es, lines, first + 1) && i < |lines| && Trim(lines[i]) != ""
    ensures Entry(Trim(lines[i]), first + 1 + i) in [e] + es
  {
    assert Entry(Trim(lines[i]), first + 1 + i) in es;
  }

  /** The parser sees exactly the lines that are not blank, with their numbers in the text. */
  lemma {:induction false} EntriesAreTheLines(lines: seq<string>, first: nat)
    ensures AreLinesOf(Entries(lines, first), lines, first)
    decreases lines
  {
    if lines != [] {
      var line, rest, tail := lines[0], lines[1..], Entries(lines[1..], first + 1);
      EntriesAreTheLines(rest, first + 1);
      assert lines == [line] + rest;
      if Trim(line) == "" {
        BlankLineAdded(tail, line, rest, first);
        assert EntryOf(line, first) + tail == tail;
      } else {
        FullLineAdded(tail, line, rest, first);
      }
    }
  }
}
