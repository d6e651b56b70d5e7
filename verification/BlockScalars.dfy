/** The scan over block scalars, for any kind of line. */
module BlockScalars {
  import opened Options
  import opened Sorting

  /** What the scan asks of a line: its indentation, whether it is blank, opens a binary block or any block scalar, its
      text without the white space around it, and the line that replaces it as the header of payload `n`. */
  datatype Syntax<!L> = Syntax(
    indent: L -> nat, blank: L -> bool, header: L -> bool, opens: L -> bool, text: L -> string, replace: (L, nat) -> L)

  /** A header opens a block scalar; the line replacing it opens none and stands where the header stood. */
  ghost predicate Lawful<L(!new)>(y: Syntax<L>) {
    && (forall l :: y.header(l) ==> y.opens(l))
    && (forall l, n :: y.header(l) ==> ReplacedIsPlain(y, l, n))
    && (forall l :: y.blank(l) ==> y.text(l) == "")
  }

  ghost predicate ReplacedIsPlain<L>(y: Syntax<L>, l: L, n: nat) {
    var r := y.replace(l, n);
    y.indent(r) == y.indent(l) && y.blank(r) == y.blank(l) && !y.header(r) && !y.opens(r)
  }

  /** A block scalar goes on over blank lines and lines indented deeper than its header. */
  predicate Inside<L>(y: Syntax<L>, line: L, indent: nat) {
    y.blank(line) || y.indent(line) > indent
  }

  function Run<L>(y: Syntax<L>, lines: seq<L>, indent: nat): (r: nat)
    ensures r <= |lines|
    ensures forall i :: 0 <= i < r ==> Inside(y, lines[i], indent)
    ensures r < |lines| ==> !Inside(y, lines[r], indent)
  {
    if lines != [] && Inside(y, lines[0], indent) then 1 + Run(y, lines[1..], indent) else 0
  }

  /** How many of the first `n` lines are blank lines at the end. */
  function TrailingBlanks<L>(y: Syntax<L>, lines: seq<L>, n: nat): (r: nat)
    requires n <= |lines|
    ensures r <= n && (forall i :: n - r <= i < n ==> y.blank(lines[i])) && (r < n ==> !y.blank(lines[n - r - 1]))
  {
    if n > 0 && y.blank(lines[n - 1]) then 1 + TrailingBlanks(y, lines, n - 1) else 0
  }

  /** The lines of a binary block after its header: blank lines at the end stay with the parent. */
  function BodyLength<L>(y: Syntax<L>, after: seq<L>, indent: nat): (r: nat)
    ensures r <= Run(y, after, indent)
  {
    var run := Run(y, after, indent);
    run - TrailingBlanks(y, after, run)
  }

  /** The text of the first `n` lines, joined. */
  function Joined<L>(y: Syntax<L>, lines: seq<L>, n: nat): string
    requires n <= |lines|
  {
    if n == 0 then "" else Joined(y, lines, n - 1) + y.text(lines[n - 1])
  }

  datatype Piece<L> =
    | Line(line: L)
    | Block(header: L, body: seq<L>)
    | Binary(header: L, body: seq<L>, payload: seq<nat>)

  type Decoder = string -> Option<seq<nat>>

  /** The lines a piece stands for. */
  function Source<L>(p: Piece<L>): (r: seq<L>)
    ensures r != []
  {
    if p.Line? then [p.line] else [p.header] + p.body
  }

  /** The piece a line opens, given the lines after it. */
  function Classify<L>(y: Syntax<L>, header: L, after: seq<L>, decode: Decoder): (r: Piece<L>)
    ensures |Source(r)| <= |after| + 1 && Source(r) == [header] + after[..|Source(r)| - 1]
  {
    var n := BodyLength(y, after, y.indent(header));
    var payload := decode(Joined(y, after, n));
    if y.header(header) && payload.Some? then Binary(header, after[..n], payload.value)
    else if y.opens(header) then Block(header, after[..Run(y, after, y.indent(header))])
    else Line(header)
  }

  function FirstPiece<L>(y: Syntax<L>, lines: seq<L>, decode: Decoder): (r: Piece<L>)
    requires lines != []
    ensures |Source(r)| <= |lines|
  {
    Classify(y, lines[0], lines[1..], decode)
  }

  function Pieces<L>(y: Syntax<L>, lines: seq<L>, decode: Decoder): seq<Piece<L>>
    decreases |lines|
  {
    if lines == [] then []
    else
      var first := FirstPiece(y, lines, decode);
      [first] + Pieces(y, lines[|Source(first)|..], decode)
  }

  function Sources<L>(pieces: seq<Piece<L>>): seq<L> {
    if pieces == [] then [] else Source(pieces[0]) + Sources(pieces[1..])
  }

  /** What is written for a piece when `n` payloads precede it. */
  function Write<L>(y: Syntax<L>, p: Piece<L>, n: nat): (r: seq<L>)
    ensures r != []
  {
    if p.Binary? then [y.replace(p.header, n)] else Source(p)
  }

  function Next<L>(p: Piece<L>, n: nat): nat {
    if p.Binary? then n + 1 else n
  }

  function Output<L>(y: Syntax<L>, pieces: seq<Piece<L>>, n: nat): seq<L> {
    if pieces == [] then [] else Write(y, pieces[0], n) + Output(y, pieces[1..], Next(pieces[0], n))
  }

  function Payload<L>(p: Piece<L>): seq<seq<nat>> {
    if p.Binary? then [p.payload] else []
  }

  function Payloads<L>(pieces: seq<Piece<L>>): seq<seq<nat>> {
    if pieces == [] then [] else Payload(pieces[0]) + Payloads(pieces[1..])
  }

  lemma {:induction false} PayloadsAppend<L>(a: seq<Piece<L>>, b: seq<Piece<L>>)
    ensures Payloads(a + b) == Payloads(a) + Payloads(b)
  {
    if a == [] {
      assert a + b == b;
    } else {
      assert (a + b)[1..] == a[1..] + b && (a + b)[0] == a[0];
      PayloadsAppend(a[1..], b);
      Concat(Payload(a[0]), Payloads(a[1..]), Payloads(b));
    }
  }

  lemma {:induction false} OutputAppend<L>(y: Syntax<L>, a: seq<Piece<L>>, b: seq<Piece<L>>, n: nat)
    ensures Output(y, a + b, n) == Output(y, a, n) + Output(y, b, n + |Payloads(a)|)
    decreases |a|
  {
    if a == [] {
      assert a + b == b;
    } else {
      assert (a + b)[1..] == a[1..] + b && (a + b)[0] == a[0];
      OutputAppend(y, a[1..], b, Next(a[0], n));
      Concat(Write(y, a[0], n), Output(y, a[1..], Next(a[0], n)), Output(y, b, n + |Payloads(a)|));
    }
  }

  lemma HeadAndMore<L>(lines: seq<L>, k: nat)
    requires k < |lines|
    ensures lines == [lines[0]] + lines[1..][..k] + lines[k + 1..]
  {}

  lemma SourceIsPrefix<L>(y: Syntax<L>, lines: seq<L>, decode: Decoder)
    requires lines != []
    ensures var first := FirstPiece(y, lines, decode);
            lines == Source(first) + lines[|Source(first)|..]
  {
    HeadAndMore(lines, |Source(FirstPiece(y, lines, decode))| - 1);
  }

  /** The lines after a block's content: blank ones perhaps, then the end of the text or a line that is not deeper. */
  ghost predicate Ends<L>(y: Syntax<L>, rest: seq<L>, indent: nat)
    decreases |rest|
  {
    rest == [] || if y.blank(rest[0]) then Ends(y, rest[1..], indent) else y.indent(rest[0]) <= indent
  }

  lemma {:induction false} EndsAfterBlanks<L>(y: Syntax<L>, rest: seq<L>, indent: nat) returns (m: nat)
    requires Ends(y, rest, indent)
    ensures m <= |rest| && (forall i :: 0 <= i < m ==> y.blank(rest[i]))
    ensures m < |rest| ==> !y.blank(rest[m]) && y.indent(rest[m]) <= indent
    decreases |rest|
  {
    m := 0;
    if rest != [] && y.blank(rest[0]) {
      m := EndsAfterBlanks(y, rest[1..], indent);
      m := m + 1;
    }
  }

  /** The body of a binary block: blank and deeper lines up to the last that is not blank. */
  lemma BodyLengthIs<L>(y: Syntax<L>, body: seq<L>, rest: seq<L>, indent: nat)
    requires forall i :: 0 <= i < |body| ==> y.blank(body[i]) || y.indent(body[i]) > indent
    requires (body != [] ==> !y.blank(body[|body| - 1])) && Ends(y, rest, indent)
    ensures BodyLength(y, body + rest, indent) == |body|
  {
    var after := body + rest;
    var m := EndsAfterBlanks(y, rest, indent);
    var run := |body| + m;
    assert forall j :: |body| <= j < |after| ==> after[j] == rest[j - |body|];
    assert body != [] ==> after[|body| - 1] == body[|body| - 1];
    RunIs(y, after, indent, run);
    assert TrailingBlanks(y, after, run) == m;
  }

  /** A binary block at the front is one piece, and what follows is read as if it stood alone, blank lines first. */
  lemma BinaryFirst<L>(y: Syntax<L>, header: L, body: seq<L>, rest: seq<L>, decode: Decoder, payload: seq<nat>)
    requires y.header(header) && Ends(y, rest, y.indent(header)) && (body != [] ==> !y.blank(body[|body| - 1]))
    requires forall i :: 0 <= i < |body| ==> y.blank(body[i]) || y.indent(body[i]) > y.indent(header)
    requires decode(Joined(y, body + rest, |body|)) == Some(payload)
    ensures var pieces, more := Pieces(y, [header] + (body + rest), decode), Pieces(y, rest, decode);
            && pieces == [Binary(header, body, payload)] + more
            && Payloads(pieces) == [payload] + Payloads(more)
            && Output(y, pieces, 0) == [y.replace(header, 0)] + Output(y, more, 1)
  {
    BodyLengthIs(y, body, rest, y.indent(header));
    hide BodyLength;
    hide Ends;
    var lines, p := [header] + (body + rest), Binary(header, body, payload);
    assert lines[0] == header && lines[1..] == body + rest && (body + rest)[..|body|] == body;
    assert FirstPiece(y, lines, decode) == p && lines[|Source(p)|..] == rest;
    var pieces := [p] + Pieces(y, rest, decode);
    assert pieces[1..] == Pieces(y, rest, decode);
  }

  /** Any other block scalar at the front is one piece, whatever its lines look like. */
  lemma BlockFirst<L>(y: Syntax<L>, header: L, body: seq<L>, rest: seq<L>, decode: Decoder)
    requires y.opens(header) && !y.header(header)
    requires forall i :: 0 <= i < |body| ==> y.blank(body[i]) || y.indent(body[i]) > y.indent(header)
    requires rest == [] || (!y.blank(rest[0]) && y.indent(rest[0]) <= y.indent(header))
    ensures Pieces(y, [header] + (body + rest), decode) == [Block(header, body)] + Pieces(y, rest, decode)
  {
    var lines, after := [header] + (body + rest), body + rest;
    assert rest != [] ==> after[|body|] == rest[0];
    RunIs(y, after, y.indent(header), |body|);
    assert lines[0] == header && lines[1..] == after && after[..|body|] == body;
    assert FirstPiece(y, lines, decode) == Block(header, body) && lines[|Source(Block(header, body))|..] == rest;
  }

  // --- The scan ---

  lemma {:induction false} RunIs<L>(y: Syntax<L>, after: seq<L>, indent: nat, n: nat)
    requires n <= |after| && forall i :: 0 <= i < n ==> Inside(y, after[i], indent)
    requires n < |after| ==> !Inside(y, after[n], indent)
    ensures Run(y, after, indent) == n
  {
    if n > 0 {
      RunIs(y, after[1..], indent, n - 1);
    }
  }

  /** Blank lines add nothing to the joined text. */
  lemma {:induction false} JoinedSkipsBlanks<L(!new)>(y: Syntax<L>, lines: seq<L>, n: nat, blanks: nat)
    requires Lawful(y) && blanks <= n <= |lines| && forall i :: n - blanks <= i < n ==> y.blank(lines[i])
    ensures Joined(y, lines, n) == Joined(y, lines, n - blanks)
  {
    if blanks > 0 {
      JoinedSkipsBlanks(y, lines, n - 1, blanks - 1);
    }
  }

  /** The first `n` lines belong to a block, and the last `blanks` of them are blank. */
  ghost predicate Scanned<L>(y: Syntax<L>, after: seq<L>, indent: nat, n: nat, blanks: nat) {
    && blanks <= n <= |after| && (forall i :: 0 <= i < n ==> Inside(y, after[i], indent))
    && TrailingBlanks(y, after, n) == blanks
  }

  lemma ScanNone<L>(y: Syntax<L>, after: seq<L>, indent: nat)
    ensures Scanned(y, after, indent, 0, 0) && Joined(y, after, 0) == ""
  {}

  lemma ScanBlank<L>(y: Syntax<L>, after: seq<L>, indent: nat, n: nat, blanks: nat)
    requires Scanned(y, after, indent, n, blanks) && n < |after| && y.blank(after[n])
    ensures Scanned(y, after, indent, n + 1, blanks + 1)
  {}

  lemma ScanContent<L(!new)>(y: Syntax<L>, after: seq<L>, indent: nat, n: nat, blanks: nat)
    requires Lawful(y) && Scanned(y, after, indent, n, blanks)
    requires n < |after| && !y.blank(after[n]) && y.indent(after[n]) > indent
    ensures Scanned(y, after, indent, n + 1, 0)
    ensures Joined(y, after, n + 1) == Joined(y, after, n - blanks) + y.text(after[n])
  {
    JoinedSkipsBlanks(y, after, n, blanks);
  }

  lemma ScanEnds<L>(y: Syntax<L>, after: seq<L>, indent: nat, n: nat, blanks: nat)
    requires Scanned(y, after, indent, n, blanks)
    requires n < |after| ==> !y.blank(after[n]) && y.indent(after[n]) <= indent
    ensures BodyLength(y, after, indent) == n - blanks
  {
    RunIs(y, after, indent, n);
  }

  /** The loop over the lines of one binary block, counting blank lines not yet known to be inside. */
  method ScanBody<L(!new)>(y: Syntax<L>, lines: seq<L>, start: nat, indent: nat) returns (j: nat, text: string)
    requires Lawful(y) && start <= |lines|
    ensures start <= j <= |lines| && j - start == BodyLength(y, lines[start..], indent)
    ensures text == Joined(y, lines[start..], j - start)
  {
    hide Lawful;
    hide Run;
    hide BodyLength;
    hide TrailingBlanks;
    hide Joined;
    hide Inside;
    hide Scanned;
    text := "";
    j := start;
    var pendingBlanks := 0;
    ghost var after := lines[start..];
    ScanNone(y, after, indent);
    while j < |lines|
      invariant start <= j <= |lines| && pendingBlanks <= j - start
      invariant Scanned(y, after, indent, j - start, pendingBlanks)
      invariant text == Joined(y, after, j - start - pendingBlanks)
    {
      var contentLine := lines[j];
      assert contentLine == after[j - start];
      if y.blank(contentLine) {
        ScanBlank(y, after, indent, j - start, pendingBlanks);
        pendingBlanks := pendingBlanks + 1;
        j := j + 1;
        continue;
      }
      if y.indent(contentLine) <= indent {
        break;
      }
      ScanContent(y, after, indent, j - start, pendingBlanks);
      pendingBlanks := 0;
      text := text + y.text(contentLine);
      j := j + 1;
    }
    ScanEnds(y, after, indent, j - start, pendingBlanks);
    j := j - pendingBlanks;
  }

  /** The loop that copies any other block scalar. */
  method CopyBody<L>(y: Syntax<L>, lines: seq<L>, start: nat, indent: nat) returns (j: nat, copied: seq<L>)
    requires start <= |lines|
    ensures start <= j <= |lines| && j - start == Run(y, lines[start..], indent)
    ensures copied == lines[start..][..j - start]
  {
    copied, j := [], start;
    ghost var after := lines[start..];
    while j < |lines| && Inside(y, lines[j], indent)
      invariant start <= j <= |lines|
      invariant forall k :: 0 <= k < j - start ==> Inside(y, after[k], indent)
      invariant copied == after[..j - start]
    {
      assert lines[j] == after[j - start];
      copied := copied + [lines[j]];
      j := j + 1;
    }
    RunIs(y, after, indent, j - start);
  }

  lemma OnePiece<L>(y: Syntax<L>, p: Piece<L>, n: nat)
    ensures Output(y, [p], n) == Write(y, p, n) && Payloads([p]) == Payload(p)
  {
    assert [p][1..] == [];
    assert Write(y, p, n) + [] == Write(y, p, n);
    assert Payload(p) + [] == Payload(p);
  }

  /** How far a scan has come before line `i`: the pieces so far, and what was written for them. */
  ghost predicate Reached<L>(
      y: Syntax<L>, lines: seq<L>, decode: Decoder, i: nat, done: seq<Piece<L>>, out: seq<L>, payloads: seq<seq<nat>>)
  {
    && i <= |lines| && Pieces(y, lines, decode) == done + Pieces(y, lines[i..], decode)
    && out == Output(y, done, 0) && payloads == Payloads(done)
  }

  lemma PiecesAdvance<L>(y: Syntax<L>, lines: seq<L>, decode: Decoder, i: nat, done: seq<Piece<L>>)
    requires i < |lines| && Pieces(y, lines, decode) == done + Pieces(y, lines[i..], decode)
    ensures var p := Classify(y, lines[i], lines[i + 1..], decode);
            Pieces(y, lines, decode) == done + [p] + Pieces(y, lines[i + |Source(p)|..], decode)
  {
    hide Classify;
    hide Source;
    var rest := lines[i..];
    assert rest[1..] == lines[i + 1..];
    var p := FirstPiece(y, rest, decode);
    assert rest[|Source(p)|..] == lines[i + |Source(p)|..];
    Concat(done, [p], Pieces(y, rest[|Source(p)|..], decode));
  }

  lemma OutputAdvance<L>(y: Syntax<L>, done: seq<Piece<L>>, p: Piece<L>)
    ensures Output(y, done + [p], 0) == Output(y, done, 0) + Write(y, p, |Payloads(done)|)
    ensures Payloads(done + [p]) == Payloads(done) + Payload(p)
  {
    OutputAppend(y, done, [p], 0);
    PayloadsAppend(done, [p]);
    OnePiece(y, p, |Payloads(done)|);
  }

  lemma Advance<L>(
      y: Syntax<L>, lines: seq<L>, decode: Decoder, i: nat, done: seq<Piece<L>>, out: seq<L>, payloads: seq<seq<nat>>)
    requires Reached(y, lines, decode, i, done, out, payloads) && i < |lines|
    ensures var p := Classify(y, lines[i], lines[i + 1..], decode);
            Reached(y, lines, decode, i + |Source(p)|, done + [p], out + Write(y, p, |payloads|), payloads + Payload(p))
  {
    hide Classify;
    hide Source;
    PiecesAdvance(y, lines, decode, i, done);
    OutputAdvance(y, done, Classify(y, lines[i], lines[i + 1..], decode));
  }

  lemma ScanStarts<L>(y: Syntax<L>, lines: seq<L>, decode: Decoder)
    ensures Reached(y, lines, decode, 0, [], [], [])
  {
    assert lines[0..] == lines;
  }

  lemma ScanDone<L>(
      y: Syntax<L>, lines: seq<L>, decode: Decoder, done: seq<Piece<L>>, out: seq<L>, payloads: seq<seq<nat>>)
    requires Reached(y, lines, decode, |lines|, done, out, payloads)
    ensures out == Output(y, Pieces(y, lines, decode), 0) && payloads == Payloads(Pieces(y, lines, decode))
  {
    assert done + [] == done;
  }

  /** Replaces each binary block that decodes and copies every other line. */
  method Extract<L(!new)>(y: Syntax<L>, lines: seq<L>, decode: Decoder) returns (out: seq<L>, payloads: seq<seq<nat>>)
    requires Lawful(y)
    ensures out == Output(y, Pieces(y, lines, decode), 0) && payloads == Payloads(Pieces(y, lines, decode))
  {
    hide Reached;
    hide Lawful;
    hide BodyLength;
    hide Joined;
    hide Run;
    out, payloads := [], [];
    var i := 0;
    ghost var done: seq<Piece<L>> := [];
    ScanStarts(y, lines, decode);
    while i < |lines|
      invariant i <= |lines| && Reached(y, lines, decode, i, done, out, payloads)
      decreases |lines| - i
    {
      var line := lines[i];
      ghost var p := Classify(y, line, lines[i + 1..], decode);
      Advance(y, lines, decode, i, done, out, payloads);
      done := done + [p];
      if y.header(line) {
        var j, text := ScanBody(y, lines, i + 1, y.indent(line));
        var payload := decode(text);
        if payload.Some? {
          out := out + [y.replace(line, |payloads|)];
          payloads := payloads + [payload.value];
          i := j;
          continue;
        }
      }
      assert payloads + Payload(p) == payloads;
      if y.opens(line) {
        var j, copied := CopyBody(y, lines, i + 1, y.indent(line));
        out := out + ([line] + copied);
        i := j;
        continue;
      }
      out := out + [line];
      i := i + 1;
    }
    ScanDone(y, lines, decode, done, out, payloads);
  }

  // --- Main results ---

  /** The pieces are the input, line by line: nothing is lost, added or taken twice. */
  lemma {:induction false} PiecesCover<L>(y: Syntax<L>, lines: seq<L>, decode: Decoder)
    ensures Sources(Pieces(y, lines, decode)) == lines
    decreases |lines|
  {
    if lines != [] {
      var first := FirstPiece(y, lines, decode);
      PiecesCover(y, lines[|Source(first)|..], decode);
      assert Pieces(y, lines, decode)[1..] == Pieces(y, lines[|Source(first)|..], decode);
      SourceIsPrefix(y, lines, decode);
    }
  }

  /** A piece of the output: the same piece, except that a replaced block is one line. */
  function Again<L>(y: Syntax<L>, p: Piece<L>, n: nat): Piece<L> {
    if p.Binary? then Line(y.replace(p.header, n)) else p
  }

  function Reread<L>(y: Syntax<L>, pieces: seq<Piece<L>>, n: nat): seq<Piece<L>> {
    if pieces == [] then [] else [Again(y, pieces[0], n)] + Reread(y, pieces[1..], Next(pieces[0], n))
  }

  lemma {:induction false} RereadQuiet<L>(y: Syntax<L>, pieces: seq<Piece<L>>, n: nat, m: nat)
    ensures Payloads(Reread(y, pieces, n)) == [] && Output(y, Reread(y, pieces, n), m) == Output(y, pieces, n)
    decreases |pieces|
  {
    if pieces != [] {
      var k := Next(pieces[0], n);
      RereadQuiet(y, pieces[1..], k, m);
      assert Reread(y, pieces, n)[1..] == Reread(y, pieces[1..], k);
    }
  }

  /** The first output line is indented like the first input line, so it ends the same block scalars. */
  lemma HeadKept<L(!new)>(y: Syntax<L>, lines: seq<L>, decode: Decoder, n: nat)
    requires Lawful(y) && lines != []
    ensures var out := Output(y, Pieces(y, lines, decode), n);
            out != [] && y.indent(out[0]) == y.indent(lines[0]) && y.blank(out[0]) == y.blank(lines[0])
  {
    var first := FirstPiece(y, lines, decode);
    assert first.Binary? ==> ReplacedIsPlain(y, first.header, n);
    assert Output(y, Pieces(y, lines, decode), n)[0] == Write(y, first, n)[0];
  }

  /** Only the lines looked at matter. */
  lemma {:induction false} SamePrefix<L>(y: Syntax<L>, a: seq<L>, b: seq<L>, n: nat)
    requires n <= |a| && n <= |b| && forall i :: 0 <= i < n ==> a[i] == b[i]
    ensures Joined(y, a, n) == Joined(y, b, n) && TrailingBlanks(y, a, n) == TrailingBlanks(y, b, n)
  {
    if n > 0 {
      SamePrefix(y, a, b, n - 1);
    }
  }

  /** A block scalar reads the same in front of anything that ends it. */
  lemma ClassifyBlockAgain<L>(y: Syntax<L>, header: L, after: seq<L>, tail: seq<L>, decode: Decoder)
    requires Classify(y, header, after, decode).Block?
    requires tail != [] ==> !Inside(y, tail[0], y.indent(header))
    ensures var p := Classify(y, header, after, decode);
            Classify(y, header, p.body + tail, decode) == p
  {
    var p, indent := Classify(y, header, after, decode), y.indent(header);
    var run, again := Run(y, after, indent), p.body + tail;
    assert p.body == after[..run];
    RunIs(y, again, indent, run);
    assert again[..run] == p.body;
    SamePrefix(y, after, again, run);
    SamePrefix(y, after, again, BodyLength(y, after, indent));
  }

  /** What is written after a block scalar ends it, as what was read after it did. */
  lemma TailEndsBlock<L(!new)>(y: Syntax<L>, after: seq<L>, indent: nat, decode: Decoder, n: nat)
    requires Lawful(y)
    ensures var tail := Output(y, Pieces(y, after[Run(y, after, indent)..], decode), n);
            tail != [] ==> !Inside(y, tail[0], indent)
  {
    var run := Run(y, after, indent);
    var rest := after[run..];
    if rest != [] {
      HeadKept(y, rest, decode, n);
      assert rest[0] == after[run];
    }
  }

  lemma BlockReread<L(!new)>(y: Syntax<L>, header: L, after: seq<L>, decode: Decoder, n: nat)
    requires Lawful(y) && Classify(y, header, after, decode).Block?
    ensures var p := Classify(y, header, after, decode);
            Classify(y, header, p.body + Output(y, Pieces(y, after[|p.body|..], decode), n), decode) == p
  {
    var p := Classify(y, header, after, decode);
    TailEndsBlock(y, after, y.indent(header), decode, n);
    ClassifyBlockAgain(y, header, after, Output(y, Pieces(y, after[|p.body|..], decode), n), decode);
  }

  lemma PlainAgain<L(!new)>(y: Syntax<L>, line: L, tail: seq<L>, decode: Decoder)
    requires !y.header(line) && !y.opens(line)
    ensures FirstPiece(y, [line] + tail, decode) == Line(line)
  {}

  lemma NotPlain<L(!new)>(y: Syntax<L>, header: L, after: seq<L>, decode: Decoder)
    requires Lawful(y)
    ensures var p := Classify(y, header, after, decode);
            && (p.Line? ==> p == Line(header) && !y.header(header) && !y.opens(header))
            && (p.Binary? ==> p.header == header && y.header(header))
  {}

  /** Reading what was written for a piece, and what follows it, gives the piece again, or the line that replaced it. */
  lemma FirstAgain<L(!new)>(y: Syntax<L>, header: L, after: seq<L>, decode: Decoder, n: nat)
    requires Lawful(y)
    ensures var p := Classify(y, header, after, decode);
            var tail := Output(y, Pieces(y, after[|Source(p)| - 1..], decode), Next(p, n));
            FirstPiece(y, Write(y, p, n) + tail, decode) == Again(y, p, n)
  {
    hide Classify;
    hide Pieces;
    hide Output;
    var p := Classify(y, header, after, decode);
    var tail := Output(y, Pieces(y, after[|Source(p)| - 1..], decode), Next(p, n));
    NotPlain(y, header, after, decode);
    match p
    case Line(line) => PlainAgain(y, line, tail, decode);
    case Block(_, body) =>
      BlockReread(y, header, after, decode, n);
      assert (Source(p) + tail)[1..] == body + tail;
    case Binary(_, _, _) =>
      assert ReplacedIsPlain(y, header, n);
      PlainAgain(y, y.replace(header, n), tail, decode);
  }

  /** The output opens with the first piece, or with the line that replaced it. */
  lemma FirstOfOutput<L(!new)>(y: Syntax<L>, lines: seq<L>, decode: Decoder, n: nat)
    requires Lawful(y) && lines != []
    ensures var first := FirstPiece(y, lines, decode);
            var tail := Output(y, Pieces(y, lines[|Source(first)|..], decode), Next(first, n));
            Pieces(y, Output(y, Pieces(y, lines, decode), n), decode) == [Again(y, first, n)] + Pieces(y, tail, decode)
  {
    hide Lawful;
    hide Classify;
    var first := FirstPiece(y, lines, decode);
    var rest := lines[|Source(first)|..];
    assert rest == lines[1..][|Source(first)| - 1..];
    var tail := Output(y, Pieces(y, rest, decode), Next(first, n));
    assert Pieces(y, lines, decode)[1..] == Pieces(y, rest, decode);
    var out := Write(y, first, n) + tail;
    assert Output(y, Pieces(y, lines, decode), n) == out;
    FirstAgain(y, lines[0], lines[1..], decode, n);
    assert out[|Source(Again(y, first, n))|..] == tail;
  }

  lemma {:induction false} PiecesOfOutput<L(!new)>(y: Syntax<L>, lines: seq<L>, decode: Decoder, n: nat)
    requires Lawful(y)
    ensures Pieces(y, Output(y, Pieces(y, lines, decode), n), decode) == Reread(y, Pieces(y, lines, decode), n)
    decreases |lines|
  {
    if lines != [] {
      var first := FirstPiece(y, lines, decode);
      PiecesOfOutput(y, lines[|Source(first)|..], decode, Next(first, n));
      FirstOfOutput(y, lines, decode, n);
      assert Pieces(y, lines, decode)[1..] == Pieces(y, lines[|Source(first)|..], decode);
    }
  }

  /** A second pass over the output changes nothing and extracts nothing. */
  lemma SecondPassIsIdentity<L(!new)>(y: Syntax<L>, lines: seq<L>, decode: Decoder)
    requires Lawful(y)
    ensures var out := Output(y, Pieces(y, lines, decode), 0);
            Output(y, Pieces(y, out, decode), 0) == out && Payloads(Pieces(y, out, decode)) == []
  {
    PiecesOfOutput(y, lines, decode, 0);
    RereadQuiet(y, Pieces(y, lines, decode), 0, 0);
  }

  lemma OutputCons<L>(y: Syntax<L>, p: Piece<L>, rest: seq<Piece<L>>, n: nat)
    ensures Output(y, [p] + rest, n) == Write(y, p, n) + Output(y, rest, Next(p, n))
    ensures Payloads([p] + rest) == Payload(p) + Payloads(rest)
  {
    assert ([p] + rest)[1..] == rest;
  }

  lemma AtSplit<T>(a: seq<T>, x: T, b: seq<T>)
    ensures |a| < |a + ([x] + b)| && (a + ([x] + b))[|a|] == x
  {}

  lemma OutputAround<L>(y: Syntax<L>, front: seq<Piece<L>>, piece: Piece<L>, rest: seq<Piece<L>>)
    ensures var k := |Payloads(front)|;
            && Output(y, front + ([piece] + rest), 0) == Output(y, front, 0) + (Write(y, piece, k) + Output(y, rest, Next(piece, k)))
            && Payloads(front + ([piece] + rest)) == Payloads(front) + (Payload(piece) + Payloads(rest))
  {
    hide Output;
    hide Payloads;
    hide Write;
    hide Next;
    OutputAppend(y, front, [piece] + rest, 0);
    PayloadsAppend(front, [piece] + rest);
    OutputCons(y, piece, rest, |Payloads(front)|);
  }

  /** Replacement lines count up with the payloads: the line for a binary block carries the number of its payload. */
  lemma NumberedInOrder<L>(y: Syntax<L>, pieces: seq<Piece<L>>, p: nat)
    requires p < |pieces| && pieces[p].Binary?
    ensures var k := |Payloads(pieces[..p])|;
            && k < |Payloads(pieces)| && Payloads(pieces)[k] == pieces[p].payload
            && Output(y, pieces, 0) ==
               Output(y, pieces[..p], 0) + ([y.replace(pieces[p].header, k)] + Output(y, pieces[p + 1..], k + 1))
  {
    hide Output;
    hide Payloads;
    assert pieces == pieces[..p] + ([pieces[p]] + pieces[p + 1..]);
    OutputAround(y, pieces[..p], pieces[p], pieces[p + 1..]);
    AtSplit(Payloads(pieces[..p]), pieces[p].payload, Payloads(pieces[p + 1..]));
  }

  /** Every other piece stands in the output as it stood in the input, whatever its lines look like. */
  lemma CopiedVerbatim<L>(y: Syntax<L>, pieces: seq<Piece<L>>, p: nat)
    requires p < |pieces| && !pieces[p].Binary?
    ensures var k := |Payloads(pieces[..p])|;
            Output(y, pieces, 0) == Output(y, pieces[..p], 0) + (Source(pieces[p]) + Output(y, pieces[p + 1..], k))
  {
    hide Output;
    hide Payloads;
    assert pieces == pieces[..p] + ([pieces[p]] + pieces[p + 1..]);
    OutputAround(y, pieces[..p], pieces[p], pieces[p + 1..]);
  }

  /** Text without headers passes through. */
  lemma {:induction false} NoHeaderPasses<L>(y: Syntax<L>, lines: seq<L>, decode: Decoder, n: nat)
    requires forall i :: 0 <= i < |lines| ==> !y.header(lines[i])
    ensures Output(y, Pieces(y, lines, decode), n) == lines && Payloads(Pieces(y, lines, decode)) == []
    decreases |lines|
  {
    if lines != [] {
      var first := FirstPiece(y, lines, decode);
      NoHeaderPasses(y, lines[|Source(first)|..], decode, n);
      SourceIsPrefix(y, lines, decode);
      assert Pieces(y, lines, decode)[1..] == Pieces(y, lines[|Source(first)|..], decode);
    }
  }
}
