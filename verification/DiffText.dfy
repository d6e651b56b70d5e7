/** The text of a unified diff, and a reader that gets the hunks back from it. */
module DiffText {
  import opened Decimal
  import opened EditScript
  import opened Options
  import opened Sorting
  import opened TextLines
  import opened UnifiedDiff

  function TagChar(tag: Tag): char {
    match tag case Keep => ' ' case Delete => '-' case Insert => '+'
  }

  function RangeText(r: Range): string {
    match r
    case Single(first) => Decimal.Decimal(first)
    case Span(first, length) => Decimal.Decimal(first) + "," + Decimal.Decimal(length)
  }

  function HeaderText(h: Hunk): string {
    "@@ -" + (RangeText(h.old_) + " " + ("+" + (RangeText(h.new_) + " " + "@@")))
  }

  function LineTexts(lines: seq<Line>): seq<string> {
    if lines == [] then [] else [[TagChar(lines[0].tag)] + lines[0].text] + LineTexts(lines[1..])
  }

  function HunkText(h: Hunk): seq<string> {
    [HeaderText(h)] + LineTexts(h.lines)
  }

  function HunkTexts(hunks: seq<Hunk>): seq<string> {
    if hunks == [] then [] else HunkText(hunks[0]) + HunkTexts(hunks[1..])
  }

  /** The lines of the diff, before they are joined with newlines. */
  method Render(hunks: seq<Hunk>) returns (out: seq<string>)
    ensures out == ["--- recorded", "+++ live"] + HunkTexts(hunks)
  {
    out := ["--- recorded", "+++ live"];
    for k := 0 to |hunks|
      invariant out + HunkTexts(hunks[k..]) == ["--- recorded", "+++ live"] + HunkTexts(hunks)
    {
      assert hunks[k..][1..] == hunks[k + 1..];
      Concat(out, HunkText(hunks[k]), HunkTexts(hunks[k + 1..]));
      out := out + HunkText(hunks[k]);
    }
  }

  // --- Reading it back ---

  function ReadRange(s: string): Option<Range> {
    match SplitAt(s, ',')
    case NotFound =>
      (match Parse(s) case None => None case Some(first) => Some(Single(first)))
    case Found(before, after) =>
      var first, length := Parse(before), Parse(after);
      if first.Some? && length.Some? then Some(Span(first.value, length.value)) else None
  }

  lemma ReadRangeText(r: Range)
    ensures ReadRange(RangeText(r)) == Some(r) && ' ' !in RangeText(r)
  {
    ParseDecimal(r.first);
    match r
    case Single(first) => assert ',' !in Decimal.Decimal(first);
    case Span(first, length) =>
      ParseDecimal(length);
      SplitFinds(Decimal.Decimal(first), ',', Decimal.Decimal(length));
  }

  /** The two ranges of a header line. */
  function ReadHeader(s: string): Option<(Range, Range)> {
    if !("@@ -" <= s) then None
    else
      match SplitAt(s[4..], ' ')
      case NotFound => None
      case Found(old_, rest) =>
        if !("+" <= rest) then None
        else
          match SplitAt(rest[1..], ' ')
          case NotFound => None
          case Found(new_, end) =>
            var a, b := ReadRange(old_), ReadRange(new_);
            if end == "@@" && a.Some? && b.Some? then Some((a.value, b.value)) else None
  }

  lemma ReadHeaderText(h: Hunk)
    ensures ReadHeader(HeaderText(h)) == Some((h.old_, h.new_))
  {
    var s := HeaderText(h);
    var rest := "+" + (RangeText(h.new_) + " " + "@@");
    ReadRangeText(h.old_);
    ReadRangeText(h.new_);
    assert s[4..] == RangeText(h.old_) + " " + rest;
    SplitFinds(RangeText(h.old_), ' ', rest);
    assert rest[1..] == RangeText(h.new_) + " " + "@@";
    SplitFinds(RangeText(h.new_), ' ', "@@");
  }

  function ReadTag(c: char): Option<Tag> {
    if c == ' ' then Some(Keep) else if c == '-' then Some(Delete) else if c == '+' then Some(Insert) else None
  }

  /** The body lines up to the next header. */
  function ReadLines(texts: seq<string>): (r: seq<Line>)
    ensures |r| <= |texts|
  {
    if texts == [] || texts[0] == "" || ReadTag(texts[0][0]).None? then []
    else [Line(ReadTag(texts[0][0]).value, texts[0][1..])] + ReadLines(texts[1..])
  }

  function ReadHunks(texts: seq<string>): Option<seq<Hunk>>
    decreases |texts|
  {
    if texts == [] then Some([])
    else
      match ReadHeader(texts[0])
      case None => None
      case Some((old_, new_)) =>
        var lines := ReadLines(texts[1..]);
        match ReadHunks(texts[1 + |lines|..])
        case None => None
        case Some(rest) => Some([Hunk(old_, new_, lines)] + rest)
  }

  lemma {:induction false} ReadLineTexts(lines: seq<Line>, more: seq<string>)
    requires more == [] || (more[0] != "" && more[0][0] == '@')
    ensures |LineTexts(lines)| == |lines|
    ensures ReadLines(LineTexts(lines) + more) == lines
  {
    if lines == [] {
      assert LineTexts(lines) + more == more;
    } else {
      ReadLineTexts(lines[1..], more);
      ReadLinesCons(lines[0], LineTexts(lines[1..]) + more);
      Concat([[TagChar(lines[0].tag)] + lines[0].text], LineTexts(lines[1..]), more);
      assert [lines[0]] + lines[1..] == lines;
    }
  }

  lemma ReadLinesCons(line: Line, rest: seq<string>)
    ensures ReadLines([[TagChar(line.tag)] + line.text] + rest) == [line] + ReadLines(rest)
  {
    var texts := [[TagChar(line.tag)] + line.text] + rest;
    assert texts[0][1..] == line.text && texts[1..] == rest;
  }

  /** Reading the printed hunks gives the hunks: nothing in a line's text can be taken for a header. */
  lemma {:induction false} ReadHunkTexts(hunks: seq<Hunk>)
    ensures ReadHunks(HunkTexts(hunks)) == Some(hunks)
  {
    if hunks != [] {
      ReadHunkTexts(hunks[1..]);
      hide ReadHunks;
      hide HunkText;
      ReadHunksCons(hunks[0], hunks[1..]);
      assert hunks == [hunks[0]] + hunks[1..];
    }
  }

  lemma ReadHunksCons(h: Hunk, rest: seq<Hunk>)
    requires ReadHunks(HunkTexts(rest)) == Some(rest)
    ensures ReadHunks(HunkText(h) + HunkTexts(rest)) == Some([h] + rest)
  {
    HunkTextsStart(rest);
    hide *;
    ReadHunkText(h, HunkTexts(rest), rest);
  }

  lemma HunkTextsStart(hunks: seq<Hunk>)
    ensures var texts := HunkTexts(hunks);
            texts == [] || (texts[0] != "" && texts[0][0] == '@')
  {
    if hunks != [] {
      HeaderStarts(hunks[0]);
      hide HeaderText;
      assert HunkTexts(hunks)[0] == HeaderText(hunks[0]);
    }
  }

  lemma HeaderStarts(h: Hunk)
    ensures HeaderText(h) != "" && HeaderText(h)[0] == '@'
  {}

  lemma ReadHunkText(h: Hunk, more: seq<string>, rest: seq<Hunk>)
    requires more == [] || (more[0] != "" && more[0][0] == '@')
    requires ReadHunks(more) == Some(rest)
    ensures ReadHunks(HunkText(h) + more) == Some([h] + rest)
  {
    ReadHeaderText(h);
    ReadLineTexts(h.lines, more);
    HunkTextParts(h, more);
    ReadOne(HunkText(h) + more, h, rest);
  }

  lemma HunkTextParts(h: Hunk, more: seq<string>)
    requires |LineTexts(h.lines)| == |h.lines|
    ensures var texts := HunkText(h) + more;
            texts != [] && texts[0] == HeaderText(h) && texts[1..] == LineTexts(h.lines) + more
            && 1 + |h.lines| <= |texts| && texts[1 + |h.lines|..] == more
  {}

  lemma ReadOne(texts: seq<string>, h: Hunk, rest: seq<Hunk>)
    requires texts != [] && ReadHeader(texts[0]) == Some((h.old_, h.new_)) && ReadLines(texts[1..]) == h.lines
    requires 1 + |h.lines| <= |texts| && ReadHunks(texts[1 + |h.lines|..]) == Some(rest)
    ensures ReadHunks(texts) == Some([h] + rest)
  {}

  // --- The text as one string ---

  lemma {:induction false} OldLineIn(lines: seq<Line>, i: nat)
    requires i < |lines| && lines[i].tag != Insert
    ensures lines[i].text in OldLines(lines)
  {
    if i > 0 {
      OldLineIn(lines[1..], i - 1);
    }
  }

  ghost predicate TakenFrom(lines: seq<Line>, a: seq<string>, added: Tag) {
    forall i :: 0 <= i < |lines| && lines[i].tag != added ==> lines[i].text in a
  }

  /** A hunk that applies deletes and keeps lines that are there. */
  lemma {:induction false} PatchTakes(hunks: seq<Hunk>, a: seq<string>, at: nat, done: nat)
    requires at <= |a| && Patch(hunks, a, at, done).Some?
    ensures forall h :: 0 <= h < |hunks| ==> TakenFrom(hunks[h].lines, a, Insert)
    decreases |hunks|
  {
    if hunks != [] {
      var start, length := RangeStart(hunks[0].old_), RangeLength(hunks[0].old_);
      forall i | 0 <= i < |hunks[0].lines| && hunks[0].lines[i].tag != Insert ensures hunks[0].lines[i].text in a {
        OldLineIn(hunks[0].lines, i);
        assert hunks[0].lines[i].text in a[start..start + length];
      }
      PatchTakes(hunks[1..], a, start + length, RangeStart(hunks[0].new_) + RangeLength(hunks[0].new_));
    }
  }

  lemma {:induction false} LineTextsUnbroken(lines: seq<Line>, a: seq<string>, b: seq<string>)
    requires TakenFrom(lines, a, Insert) && TakenFrom(lines, b, Delete) && Unbroken(a) && Unbroken(b)
    ensures Unbroken(LineTexts(lines))
  {
    if lines != [] {
      assert lines[0].text in a || lines[0].text in b;
      LineTextsUnbroken(lines[1..], a, b);
    }
  }

  lemma HeaderUnbroken(h: Hunk)
    ensures '\n' !in HeaderText(h)
  {}

  lemma {:induction false} HunkTextsUnbroken(hunks: seq<Hunk>, a: seq<string>, b: seq<string>)
    requires forall h :: 0 <= h < |hunks| ==> TakenFrom(hunks[h].lines, a, Insert) && TakenFrom(hunks[h].lines, b, Delete)
    requires Unbroken(a) && Unbroken(b)
    ensures Unbroken(HunkTexts(hunks))
  {
    if hunks != [] {
      HeaderUnbroken(hunks[0]);
      LineTextsUnbroken(hunks[0].lines, a, b);
      HunkTextsUnbroken(hunks[1..], a, b);
    }
  }

  /** Hunks that patch `a` and in reverse `b` print no line breaks that the texts do not have. */
  lemma PatchUnbroken(hunks: seq<Hunk>, a: seq<string>, b: seq<string>)
    requires Patch(hunks, a, 0, 0).Some? && Patch(FlipHunks(hunks), b, 0, 0).Some? && Unbroken(a) && Unbroken(b)
    ensures Unbroken(HunkTexts(hunks))
  {
    PatchTakes(hunks, a, 0, 0);
    PatchTakes(FlipHunks(hunks), b, 0, 0);
    forall h | 0 <= h < |hunks| ensures TakenFrom(hunks[h].lines, b, Delete) {
      assert TakenFrom(FlipHunks(hunks)[h].lines, b, Insert);
      forall i | 0 <= i < |hunks[h].lines| && hunks[h].lines[i].tag != Delete ensures hunks[h].lines[i].text in b {
        assert FlipHunks(hunks)[h].lines[i].text == hunks[h].lines[i].text;
      }
    }
    HunkTextsUnbroken(hunks, a, b);
  }

  /** Some printed lines, after the two file headers, are a patch both ways. */
  ghost predicate IsPatchText(lines: seq<string>, expected: seq<string>, actual: seq<string>) {
    && |lines| >= 2 && lines[0] == "--- recorded" && lines[1] == "+++ live"
    && var read := ReadHunks(lines[2..]);
       read.Some? && Patch(read.value, expected, 0, 0) == Some(actual) &&
       Patch(FlipHunks(read.value), actual, 0, 0) == Some(expected)
  }

  /** The printed text is a patch: its lines, read back, turn `expected` into `actual` and in reverse. When the texts are
      made of lines, as rendered responses are, splitting the text gives these lines. */
  method PrintDiff(expected: seq<string>, actual: seq<string>) returns (text: string, ghost lines: seq<string>)
    ensures text == Join(lines) && IsPatchText(lines, expected, actual)
    ensures Unbroken(expected) && Unbroken(actual) ==> IsPatchText(SplitLines(text), expected, actual)
  {
    var hunks := Diff(expected, actual);
    var out := Render(hunks);
    ReadHunkTexts(hunks);
    assert out[2..] == HunkTexts(hunks);
    if Unbroken(expected) && Unbroken(actual) {
      PatchUnbroken(hunks, expected, actual);
      SplitJoined(out);
    }
    text, lines := Join(out), out;
  }
}
