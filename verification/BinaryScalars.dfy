/** `extract_binary_scalars`: PyYAML's `!!binary` block scalars are decoded into a side table before parsing, and each
    is replaced by a sentinel scalar. Modelled over the lines of the text, with base64 decoding as a parameter. */
module BinaryScalars {
  import opened BlockScalars
  import Decimal
  import opened Options
  import opened Sorting
  import opened TextLines

  const SENTINEL_PREFIX := "__cassetter@binary@scalar@"
  const SENTINEL_SUFFIX := "__"
  const TAG := "!!binary "
  const OPEN := TAG + "|"
  const OPEN_STRIP := TAG + ['|', '-']
  const OPEN_KEEP := TAG + ['|', '+']

  // --- Sentinels ---

  function Sentinel(index: nat): string {
    SENTINEL_PREFIX + Decimal.Decimal(index) + SENTINEL_SUFFIX
  }

  predicate EndsWith(s: string, suffix: string) {
    |suffix| <= |s| && s[|s| - |suffix|..] == suffix
  }

  function SentinelIndex(s: string): Option<nat> {
    if !(SENTINEL_PREFIX <= s) then None
    else
      var rest := s[|SENTINEL_PREFIX|..];
      if !EndsWith(rest, SENTINEL_SUFFIX) then None else Decimal.Parse(rest[..|rest| - |SENTINEL_SUFFIX|])
  }

  lemma SentinelResolves(index: nat)
    ensures SentinelIndex(Sentinel(index)) == Some(index)
  {
    var digits := Decimal.Decimal(index);
    assert Sentinel(index)[|SENTINEL_PREFIX|..] == digits + SENTINEL_SUFFIX;
    assert (digits + SENTINEL_SUFFIX)[..|digits|] == digits;
    Decimal.ParseDecimal(index);
  }

  // --- Lines ---

  /** The Unicode property `White_Space`. */
  predicate IsSpace(c: char) {
    var n := c as int;
    9 <= n <= 13 || n == 0x20 || n == 0x85 || n == 0xA0 || n == 0x1680 || 0x2000 <= n <= 0x200A || n == 0x2028 ||
    n == 0x2029 || n == 0x202F || n == 0x205F || n == 0x3000
  }

  /** Bytes of a character in UTF-8. */
  function Width(c: char): nat {
    var n := c as int;
    if n < 0x80 then 1 else if n < 0x800 then 2 else if n < 0x10000 then 3 else 4
  }

  function TrimStart(s: string): string {
    if s != "" && IsSpace(s[0]) then TrimStart(s[1..]) else s
  }

  function TrimEnd(s: string): (r: string)
    ensures r <= s && (r != "" ==> !IsSpace(r[|r| - 1]))
  {
    if s != "" && IsSpace(s[|s| - 1]) then TrimEnd(s[..|s| - 1]) else s
  }

  /** `trim().is_empty()`. */
  predicate Blank(line: string) {
    forall c | c in line :: IsSpace(c)
  }

  /** `line_indent`: the bytes of leading white space. */
  function Indent(line: string): nat {
    if line != "" && IsSpace(line[0]) then Width(line[0]) + Indent(line[1..]) else 0
  }

  predicate Sign(c: char) { c == '-' || c == '+' }
  predicate AsciiDigit(c: char) { '0' <= c <= '9' }

  function TrimEndWhile(s: string, p: char -> bool): (r: string)
    ensures r <= s
  {
    if s != "" && p(s[|s| - 1]) then TrimEndWhile(s[..|s| - 1], p) else s
  }

  /** A `|` or `>` in value position, with optional indentation and chomping indicators. */
  predicate OpensBlock(trimmed: string) {
    var rest := TrimEndWhile(TrimEndWhile(trimmed, Sign), AsciiDigit);
    rest != "" && (rest[|rest| - 1] == '|' || rest[|rest| - 1] == '>') &&
    (|rest| == 1 || rest[|rest| - 2] == ' ' || rest[|rest| - 2] == '\t')
  }

  predicate IsBinaryHeader(line: string) {
    var t := TrimEnd(line);
    EndsWith(t, OPEN) || EndsWith(t, OPEN_STRIP) || EndsWith(t, OPEN_KEEP)
  }

  lemma EndsWithTwo(s: string, a: string, b: string)
    requires EndsWith(s, a + b)
    ensures OccursAt(s, a, |s| - |a| - |b|) && EndsWith(s, b)
  {
    var tail := s[|s| - |a| - |b|..];
    assert tail == a + b;
    assert s[|s| - |a| - |b|..|s| - |b|] == tail[..|a|] == a;
    assert s[|s| - |b|..] == tail[|a|..] == b;
  }

  lemma EndsWithLast(s: string, suffix: string)
    requires EndsWith(s, suffix) && suffix != ""
    ensures s != "" && s[|s| - 1] == suffix[|suffix| - 1]
  {
    assert s[|s| - |suffix|..][|suffix| - 1] == s[|s| - 1];
  }

  lemma OccursInPrefix(s: string, n: nat, pattern: string, p: nat)
    requires n <= |s| && OccursAt(s[..n], pattern, p)
    ensures OccursAt(s, pattern, p)
  {
    assert s[..n][p..p + |pattern|] == s[p..p + |pattern|];
  }

  predicate OccursAt(s: string, pattern: string, p: nat) {
    p + |pattern| <= |s| && s[p..p + |pattern|] == pattern
  }

  /** The last occurrence. */
  function RFind(s: string, pattern: string): (r: Option<nat>)
    ensures r.Some? ==> OccursAt(s, pattern, r.value) && forall p: nat :: OccursAt(s, pattern, p) ==> p <= r.value
    ensures r.None? ==> forall p: nat :: !OccursAt(s, pattern, p)
  {
    if |s| < |pattern| then None
    else if EndsWith(s, pattern) then Some(|s| - |pattern|)
    else
      assert forall p: nat :: OccursAt(s, pattern, p) ==> OccursAt(s[..|s| - 1], pattern, p) by {
        forall p: nat | OccursAt(s, pattern, p) ensures OccursAt(s[..|s| - 1], pattern, p) {
          assert p + |pattern| < |s|;
          assert s[..|s| - 1][p..p + |pattern|] == s[p..p + |pattern|];
        }
      }
      var r := RFind(s[..|s| - 1], pattern);
      assert r.Some? ==> s[..|s| - 1][r.value..r.value + |pattern|] == s[r.value..r.value + |pattern|];
      r
  }

  /** The line with its tag and indicator replaced. */
  function Replaced(line: string, index: nat): string {
    var at := RFind(line, TAG);
    line[..if at.Some? then at.value else |line|] + Sentinel(index)
  }

  lemma EndsWithPair(s: string, x: char, y: char)
    requires EndsWith(s, [x, y])
    ensures |s| >= 2 && s[|s| - 2] == x && s[|s| - 1] == y
  {
    assert s[|s| - 2..][0] == s[|s| - 2] && s[|s| - 2..][1] == s[|s| - 1];
  }

  /** The tag, then `|` and perhaps a chomping sign. */
  ghost predicate HeaderShaped(t: string) {
    || (|t| >= 10 && OccursAt(t, TAG, |t| - 10) && t[|t| - 1] == '|')
    || (|t| >= 11 && OccursAt(t, TAG, |t| - 11) && t[|t| - 2] == '|' && Sign(t[|t| - 1]))
  }

  lemma OpenShape(t: string)
    requires EndsWith(t, TAG + "|")
    ensures HeaderShaped(t)
  {
    EndsWithTwo(t, TAG, "|");
    EndsWithLast(t, "|");
    hide EndsWith;
    hide OccursAt;
  }

  lemma ChompShape(t: string, chomp: char)
    requires EndsWith(t, TAG + ['|', chomp]) && Sign(chomp)
    ensures HeaderShaped(t)
  {
    EndsWithTwo(t, TAG, ['|', chomp]);
    EndsWithPair(t, '|', chomp);
    hide EndsWith;
    hide OccursAt;
  }

  lemma HeaderShape(line: string)
    requires IsBinaryHeader(line)
    ensures HeaderShaped(TrimEnd(line))
  {
    hide EndsWith;
    hide OccursAt;
    hide TrimEnd;
    hide HeaderShaped;
    var t := TrimEnd(line);
    if EndsWith(t, OPEN) {
      OpenShape(t);
    } else if EndsWith(t, OPEN_STRIP) {
      ChompShape(t, '-');
    } else {
      ChompShape(t, '+');
    }
  }

  lemma ShapedHasTag(line: string, n: nat)
    requires n <= |line| && HeaderShaped(line[..n])
    ensures RFind(line, TAG).Some?
  {
    hide OccursAt;
    if n >= 10 && OccursAt(line[..n], TAG, n - 10) {
      OccursInPrefix(line, n, TAG, n - 10);
    } else {
      OccursInPrefix(line, n, TAG, n - 11);
    }
  }

  lemma HeaderHasTag(line: string)
    requires IsBinaryHeader(line)
    ensures RFind(line, TAG).Some?
  {
    hide RFind;
    hide HeaderShaped;
    HeaderShape(line);
    var t := TrimEnd(line);
    assert line[..|t|] == t;
    ShapedHasTag(line, |t|);
  }

  lemma TagEndsInSpace(t: string, p: nat)
    requires OccursAt(t, TAG, p)
    ensures t[p + 8] == ' ' && t[p] == '!'
  {
    assert t[p + 8] == t[p..p + 9][8] && t[p] == t[p..p + 9][0];
  }

  lemma OpensByShape(t: string, n: nat)
    requires 2 <= n <= |t| <= n + 1 && t[n - 1] == '|' && t[n - 2] == ' ' && (n < |t| ==> Sign(t[n]))
    ensures OpensBlock(t)
  {
    var u := t[..n];
    assert TrimEndWhile(u, Sign) == u && TrimEndWhile(u, AsciiDigit) == u;
    if n < |t| {
      assert t[..|t| - 1] == u;
    } else {
      assert t == u;
    }
  }

  lemma ShapedOpens(t: string)
    requires HeaderShaped(t)
    ensures OpensBlock(t)
  {
    hide OpensBlock;
    hide OccursAt;
    if t[|t| - 1] == '|' {
      TagEndsInSpace(t, |t| - 10);
      OpensByShape(t, |t|);
    } else {
      TagEndsInSpace(t, |t| - 11);
      OpensByShape(t, |t| - 1);
    }
  }

  /** A header that is not decoded is copied as the block scalar it also opens. */
  lemma HeaderOpensBlock(line: string)
    requires IsBinaryHeader(line)
    ensures OpensBlock(TrimEnd(line))
  {
    HeaderShape(line);
    ShapedOpens(TrimEnd(line));
  }

  lemma {:induction false} SameStart(a: string, b: string, n: nat)
    requires n <= |a| && n <= |b| && a[..n] == b[..n]
    requires n < |a| && n < |b| && !IsSpace(a[n]) && !IsSpace(b[n])
    ensures Indent(a) == Indent(b) && !Blank(a) && !Blank(b)
  {
    if n > 0 {
      assert a[0] == a[..n][0] == b[..n][0] == b[0];
      assert a[1..][..n - 1] == a[..n][1..] && b[1..][..n - 1] == b[..n][1..];
      if IsSpace(a[0]) {
        SameStart(a[1..], b[1..], n - 1);
      }
    }
  }

  /** A sentinel line stands where its header stood, and opens nothing itself. */
  lemma ReplacedIsPlain(line: string, index: nat)
    requires IsBinaryHeader(line)
    ensures var r := Replaced(line, index);
            Indent(r) == Indent(line) && Blank(r) == Blank(line) && !IsBinaryHeader(r) && !OpensBlock(TrimEnd(r))
  {
    HeaderHasTag(line);
    var pos := RFind(line, TAG).value;
    var r, tail := Replaced(line, index), Sentinel(index);
    TagEndsInSpace(line, pos);
    SentinelEnds(index);
    assert r == line[..pos] + tail;
    assert r[pos] == tail[0] && r[|r| - 1] == tail[|tail| - 1];
    SameStart(line, r, pos);
    assert TrimEnd(r) == r;
    PlainEnd(r);
  }

  lemma SentinelEnds(index: nat)
    ensures var s := Sentinel(index);
            s != "" && s[0] == '_' && s[|s| - 1] == '_'
  {
    var front := SENTINEL_PREFIX + Decimal.Decimal(index);
    var s := Sentinel(index);
    assert s[0] == front[0] == SENTINEL_PREFIX[0];
    assert s[|s| - 1] == SENTINEL_SUFFIX[1];
  }

  lemma PlainEnd(r: string)
    requires r != "" && r[|r| - 1] == '_'
    ensures !OpensBlock(r) && !EndsWith(r, OPEN) && !EndsWith(r, OPEN_STRIP) && !EndsWith(r, OPEN_KEEP)
  {
    assert OPEN[|OPEN| - 1] == '|' && OPEN_STRIP[|OPEN_STRIP| - 1] == '-' && OPEN_KEEP[|OPEN_KEEP| - 1] == '+';
    if EndsWith(r, OPEN) { EndsWithLast(r, OPEN); }
    if EndsWith(r, OPEN_STRIP) { EndsWithLast(r, OPEN_STRIP); }
    if EndsWith(r, OPEN_KEEP) { EndsWithLast(r, OPEN_KEEP); }
  }

  function Trim(line: string): string {
    TrimStart(TrimEnd(line))
  }

  lemma {:induction false} TrimBlank(line: string)
    requires Blank(line)
    ensures TrimEnd(line) == "" && Trim(line) == ""
  {
    if line != "" {
      assert line[|line| - 1] in line;
      TrimBlank(line[..|line| - 1]);
    }
  }

  // --- The rewriter ---

  function Yaml(): Syntax<string> {
    Syntax(
      (l: string) => Indent(l), (l: string) => Blank(l), (l: string) => IsBinaryHeader(l),
      (l: string) => OpensBlock(TrimEnd(l)), (l: string) => Trim(l), (l: string, n: nat) => Replaced(l, n))
  }

  lemma YamlIsLawful()
    ensures Lawful(Yaml())
  {
    forall l | IsBinaryHeader(l) ensures OpensBlock(TrimEnd(l)) {
      HeaderOpensBlock(l);
    }
    forall l, n: nat | IsBinaryHeader(l) ensures BlockScalars.ReplacedIsPlain(Yaml(), l, n) {
      ReplacedIsPlain(l, n);
    }
    forall l | Blank(l) ensures Trim(l) == "" {
      TrimBlank(l);
    }
  }

  function PiecesOf(lines: seq<string>, decode: Decoder): seq<Piece<string>> {
    Pieces(Yaml(), lines, decode)
  }

  function OutputOf(lines: seq<string>, decode: Decoder): seq<string> {
    Output(Yaml(), PiecesOf(lines, decode), 0)
  }

  function PayloadsOf(lines: seq<string>, decode: Decoder): seq<seq<nat>> {
    Payloads(PiecesOf(lines, decode))
  }

  method ExtractBinaryScalars(lines: seq<string>, decode: Decoder) returns (out: seq<string>, binaries: seq<seq<nat>>)
    ensures out == OutputOf(lines, decode) && binaries == PayloadsOf(lines, decode)
  {
    YamlIsLawful();
    out, binaries := Extract(Yaml(), lines, decode);
  }

  /** Each input line is copied unchanged or belongs to exactly one replaced block. */
  lemma EachLineOnce(lines: seq<string>, decode: Decoder)
    ensures Sources(PiecesOf(lines, decode)) == lines
  {
    PiecesCover(Yaml(), lines, decode);
  }

  /** A second pass changes nothing and extracts nothing. */
  lemma SecondPassChangesNothing(lines: seq<string>, decode: Decoder)
    ensures var out := OutputOf(lines, decode);
            OutputOf(out, decode) == out && PayloadsOf(out, decode) == []
  {
    YamlIsLawful();
    SecondPassIsIdentity(Yaml(), lines, decode);
  }

  /** The line replacing a decoded block is its header up to the tag, then the sentinel that resolves to its payload. */
  lemma SentinelsResolve(lines: seq<string>, decode: Decoder, p: nat)
    requires p < |PiecesOf(lines, decode)| && PiecesOf(lines, decode)[p].Binary?
    ensures var pieces := PiecesOf(lines, decode);
            var k := |Payloads(pieces[..p])|;
            && k < |PayloadsOf(lines, decode)| && PayloadsOf(lines, decode)[k] == pieces[p].payload
            && OutputOf(lines, decode) ==
               Output(Yaml(), pieces[..p], 0) + ([Replaced(pieces[p].header, k)] + Output(Yaml(), pieces[p + 1..], k + 1))
            && EndsWith(Replaced(pieces[p].header, k), Sentinel(k)) && SentinelIndex(Sentinel(k)) == Some(k)
  {
    NumberedInOrder(Yaml(), PiecesOf(lines, decode), p);
    SentinelResolves(|Payloads(PiecesOf(lines, decode)[..p])|);
  }

  const MARK := "!!binary"

  predicate Occurs(s: string, pattern: string) {
    exists p: nat :: p <= |s| && OccursAt(s, pattern, p)
  }

  predicate Tagged(line: string) {
    Occurs(line, MARK)
  }

  lemma HeaderIsTagged(line: string)
    requires IsBinaryHeader(line)
    ensures Tagged(line)
  {
    HeaderHasTag(line);
    var p := RFind(line, TAG).value;
    assert TAG[..8] == MARK;
    assert line[p..p + 8] == line[p..p + 9][..8];
    assert OccursAt(line, MARK, p);
  }

  /** Text without the tag passes through, which is what the early return relies on. */
  lemma UntaggedPasses(lines: seq<string>, decode: Decoder)
    requires forall i :: 0 <= i < |lines| ==> !Tagged(lines[i])
    ensures OutputOf(lines, decode) == lines && PayloadsOf(lines, decode) == []
  {
    forall i | 0 <= i < |lines| ensures !IsBinaryHeader(lines[i]) {
      if IsBinaryHeader(lines[i]) {
        HeaderIsTagged(lines[i]);
      }
    }
    NoHeaderPasses(Yaml(), lines, decode, 0);
  }

  // --- Blocks as PyYAML writes them ---

  function Spaces(k: nat): (r: string)
    ensures |r| == k && forall i :: 0 <= i < k ==> r[i] == ' '
  {
    seq(k, _ => ' ')
  }

  ghost predicate Solid(s: string) {
    s != "" && forall i :: 0 <= i < |s| ==> !IsSpace(s[i])
  }

  lemma {:induction false} IndentedLine(k: nat, chunk: string)
    requires Solid(chunk)
    ensures Indent(Spaces(k) + chunk) == k && !Blank(Spaces(k) + chunk)
    ensures TrimStart(Spaces(k) + chunk) == chunk
  {
    var line := Spaces(k) + chunk;
    assert line[k] == chunk[0] && line[k] in line;
    if k == 0 {
      assert line == chunk;
    } else {
      assert line[1..] == Spaces(k - 1) + chunk && line[0] == ' ';
      IndentedLine(k - 1, chunk);
    }
  }

  lemma TrimmedLine(k: nat, chunk: string)
    requires Solid(chunk)
    ensures Trim(Spaces(k) + chunk) == chunk
  {
    var line := Spaces(k) + chunk;
    assert line[|line| - 1] == chunk[|chunk| - 1];
    assert TrimEnd(line) == line;
    IndentedLine(k, chunk);
  }

  function BodyOf(k: nat, chunks: seq<string>): (r: seq<string>)
    ensures |r| == |chunks| && forall i :: 0 <= i < |r| ==> r[i] == Spaces(k) + chunks[i]
  {
    seq(|chunks|, i requires 0 <= i < |chunks| => Spaces(k) + chunks[i])
  }

  function Glue(chunks: seq<string>): string {
    if chunks == [] then "" else chunks[0] + Glue(chunks[1..])
  }

  lemma {:induction false} GlueSnoc(chunks: seq<string>, last: string)
    ensures Glue(chunks + [last]) == Glue(chunks) + last
  {
    if chunks == [] {
      assert chunks + [last] == [last] && [last][1..] == [];
      assert Glue([last]) == last + "";
    } else {
      assert (chunks + [last])[1..] == chunks[1..] + [last];
      GlueSnoc(chunks[1..], last);
      Concat(chunks[0], Glue(chunks[1..]), last);
    }
  }

  lemma {:induction false} JoinedTexts(y: Syntax<string>, lines: seq<string>, chunks: seq<string>, n: nat)
    requires n <= |chunks| <= |lines| && forall i :: 0 <= i < |chunks| ==> y.text(lines[i]) == chunks[i]
    ensures Joined(y, lines, n) == Glue(chunks[..n])
  {
    if n > 0 {
      JoinedTexts(y, lines, chunks, n - 1);
      assert chunks[..n] == chunks[..n - 1] + [chunks[n - 1]];
      GlueSnoc(chunks[..n - 1], chunks[n - 1]);
    }
  }

  /** The block's lines are deeper than its header and none is blank; their text is the chunks. */
  lemma ChunksAreBody(k: nat, chunks: seq<string>, rest: seq<string>, indent: nat)
    requires indent < k && forall i :: 0 <= i < |chunks| ==> Solid(chunks[i])
    ensures forall i :: 0 <= i < |chunks| ==> !Blank(BodyOf(k, chunks)[i]) && Indent(BodyOf(k, chunks)[i]) > indent
    ensures Joined(Yaml(), BodyOf(k, chunks) + rest, |chunks|) == Glue(chunks)
  {
    var after := BodyOf(k, chunks) + rest;
    forall i | 0 <= i < |chunks|
      ensures !Blank(BodyOf(k, chunks)[i]) && Indent(BodyOf(k, chunks)[i]) > indent
    {
      IndentedLine(k, chunks[i]);
    }
    forall i | 0 <= i < |chunks| ensures Yaml().text(after[i]) == chunks[i] {
      TrimmedLine(k, chunks[i]);
    }
    JoinedTexts(Yaml(), after, chunks, |chunks|);
    assert chunks[..|chunks|] == chunks;
  }

  /** A header as PyYAML writes it, after whatever introduces the value. */
  function HeaderOf(prefix: string, sign: string): string {
    prefix + "!!binary |" + sign
  }

  lemma EndsWithSuffix(s: string, suffix: string)
    ensures EndsWith(s + suffix, suffix)
  {}

  lemma TrimsNothing(s: string, last: char)
    requires !IsSpace(last)
    ensures TrimEnd(s + [last]) == s + [last]
  {}

  lemma HeaderRecognized(prefix: string, sign: string)
    requires sign == "" || sign == "-" || sign == "+"
    ensures IsBinaryHeader(HeaderOf(prefix, sign))
  {
    var line := HeaderOf(prefix, sign);
    assert TrimEnd(line) == line by {
      TrimsNothing(line[..|line| - 1], line[|line| - 1]);
      assert line == line[..|line| - 1] + [line[|line| - 1]];
    }
    hide TrimEnd;
    hide EndsWith;
    assert "!!binary |" + sign == if sign == "" then OPEN else if sign == "-" then OPEN_STRIP else OPEN_KEEP;
    Concat(prefix, "!!binary |", sign);
    EndsWithSuffix(prefix, "!!binary |" + sign);
  }

  lemma HeaderReplaced(prefix: string, sign: string, n: nat)
    requires sign == "" || sign == "-" || sign == "+"
    ensures Replaced(HeaderOf(prefix, sign), n) == prefix + Sentinel(n)
  {
    var line, p := HeaderOf(prefix, sign), |prefix|;
    assert line[p..p + 9] == TAG;
    assert OccursAt(line, TAG, p);
    var r := RFind(line, TAG).value;
    assert OccursAt(line, TAG, r) && r >= p;
    assert line[r..r + 9][0] == line[r] == '!' && line[r..r + 9][1] == line[r + 1] == '!';
    assert line[p + 2] == 'b' && line[p + 3] == 'i';
    assert r == p;
    assert line[..p] == prefix;
  }

  lemma BinaryLines(
      header: string, body: seq<string>, rest: seq<string>, decode: Decoder, payload: seq<nat>)
    requires IsBinaryHeader(header) && Ends(Yaml(), rest, Indent(header))
    requires forall i :: 0 <= i < |body| ==> !Blank(body[i]) && Indent(body[i]) > Indent(header)
    requires decode(Joined(Yaml(), body + rest, |body|)) == Some(payload)
    ensures var lines := [header] + (body + rest);
            && PayloadsOf(lines, decode) == [payload] + PayloadsOf(rest, decode)
            && OutputOf(lines, decode) == [Replaced(header, 0)] + Output(Yaml(), PiecesOf(rest, decode), 1)
  {
    hide IsBinaryHeader;
    hide Blank;
    hide Indent;
    hide Replaced;
    hide Joined;
    hide Ends;
    hide Pieces;
    BinaryFirst(Yaml(), header, body, rest, decode, payload);
  }

  /** A binary block as PyYAML writes it, one value of a document: decoded from its indented chunks, and replaced by one
      line, whatever introduces it and whichever chomping sign it has. What follows, blank lines first, is read on as if
      it stood alone. */
  lemma PyYamlBlock(
      prefix: string, sign: string, k: nat, chunks: seq<string>, rest: seq<string>, decode: Decoder, payload: seq<nat>)
    requires sign == "" || sign == "-" || sign == "+"
    requires Indent(HeaderOf(prefix, sign)) < k && forall i :: 0 <= i < |chunks| ==> Solid(chunks[i])
    requires Ends(Yaml(), rest, Indent(HeaderOf(prefix, sign))) && decode(Glue(chunks)) == Some(payload)
    ensures var lines := [HeaderOf(prefix, sign)] + (BodyOf(k, chunks) + rest);
            && PayloadsOf(lines, decode) == [payload] + PayloadsOf(rest, decode)
            && OutputOf(lines, decode) == [prefix + Sentinel(0)] + Output(Yaml(), PiecesOf(rest, decode), 1)
  {
    hide *;
    HeaderRecognized(prefix, sign);
    HeaderReplaced(prefix, sign, 0);
    ChunksAreBody(k, chunks, rest, Indent(HeaderOf(prefix, sign)));
    BinaryLines(HeaderOf(prefix, sign), BodyOf(k, chunks), rest, decode, payload);
  }

  lemma IndicatorLeft(t: string, digits: string, signs: string)
    requires (forall d | d in digits :: '0' <= d <= '9') && forall d | d in signs :: d == '-' || d == '+'
    requires t != "" && !AsciiDigit(t[|t| - 1]) && !Sign(t[|t| - 1])
    ensures TrimEndWhile(TrimEndWhile(t + digits + signs, Sign), AsciiDigit) == t
  {
    TrimTail(t + digits, signs, Sign);
    TrimTail(t, digits, AsciiDigit);
    if digits != "" {
      assert (t + digits)[|t + digits| - 1] == digits[|digits| - 1] && digits[|digits| - 1] in digits;
    }
    TrimStops(t + digits, Sign);
    TrimStops(t, AsciiDigit);
  }

  /** What opens a block scalar that is copied: an indicator in value position, with or without digits and signs. */
  lemma OpensIs(prefix: string, c: char, digits: string, signs: string)
    requires (forall d | d in digits :: '0' <= d <= '9') && forall d | d in signs :: d == '-' || d == '+'
    requires !('0' <= c <= '9') && c != '-' && c != '+'
    ensures OpensBlock(prefix + [c] + digits + signs) <==>
            (c == '|' || c == '>') && (prefix == "" || prefix[|prefix| - 1] == ' ' || prefix[|prefix| - 1] == '\t')
  {
    IndicatorLeft(prefix + [c], digits, signs);
    hide TrimEndWhile;
    assert |prefix| > 0 ==> (prefix + [c])[|prefix| - 1] == prefix[|prefix| - 1];
  }

  lemma TrimStops(s: string, p: char -> bool)
    requires s != "" && !p(s[|s| - 1])
    ensures TrimEndWhile(s, p) == s
  {}

  lemma {:induction false} TrimTail(s: string, tail: string, p: char -> bool)
    requires forall d | d in tail :: p(d)
    ensures TrimEndWhile(s + tail, p) == TrimEndWhile(s, p)
  {
    if tail == "" {
      assert s + tail == s;
    } else {
      var n := |tail| - 1;
      assert tail[n] in tail && (s + tail)[..|s + tail| - 1] == s + tail[..n];
      assert forall d | d in tail[..n] :: d in tail;
      TrimTail(s, tail[..n], p);
    }
  }

  // --- The text as a whole ---

  lemma OccursPointwise(s: string, pattern: string, p: nat)
    ensures OccursAt(s, pattern, p) <==>
            p + |pattern| <= |s| && forall i :: 0 <= i < |pattern| ==> s[p + i] == pattern[i]
  {
    if p + |pattern| <= |s| {
      var part := s[p..p + |pattern|];
      assert forall i :: 0 <= i < |pattern| ==> part[i] == s[p + i];
    }
  }

  lemma OccursInPart(s: string, pattern: string, part: string, from: nat)
    requires from + |part| <= |s| && part == s[from..from + |part|] && Occurs(part, pattern)
    ensures Occurs(s, pattern)
  {
    var p: nat :| p <= |part| && OccursAt(part, pattern, p);
    OccursPointwise(part, pattern, p);
    OccursPointwise(s, pattern, from + p);
    assert OccursAt(s, pattern, from + p);
  }

  lemma BesideBreak(before: string, c: char, after: string, pattern: string, p: nat)
    requires c !in pattern && pattern != "" && OccursAt(before + [c] + after, pattern, p)
    ensures Occurs(before, pattern) || Occurs(after, pattern)
  {
    var s, n := before + [c] + after, |before|;
    OccursPointwise(s, pattern, p);
    forall k | p <= k < p + |pattern| ensures s[k] != c {
      assert pattern[k - p] in pattern && s[p + (k - p)] == pattern[k - p];
    }
    assert s[n] == c;
    if p > n {
      OccursPointwise(after, pattern, p - n - 1);
      assert OccursAt(after, pattern, p - n - 1);
    } else {
      OccursPointwise(before, pattern, p);
      assert OccursAt(before, pattern, p);
    }
  }

  /** A pattern lies on one side of a character it does not hold. */
  lemma OccursInOnePart(before: string, c: char, after: string, pattern: string)
    requires c !in pattern && pattern != ""
    ensures Occurs(before + [c] + after, pattern) <==> Occurs(before, pattern) || Occurs(after, pattern)
  {
    var s := before + [c] + after;
    if Occurs(before, pattern) { OccursInPart(s, pattern, before, 0); }
    if Occurs(after, pattern) { OccursInPart(s, pattern, after, |before| + 1); }
    if Occurs(s, pattern) {
      var p: nat :| p <= |s| && OccursAt(s, pattern, p);
      BesideBreak(before, c, after, pattern, p);
    }
  }

  lemma TagWithoutReturn(line: string)
    ensures Tagged(WithoutReturn(line)) <==> Tagged(line)
  {
    if WithoutReturn(line) != line {
      OccursInOnePart(WithoutReturn(line), '\r', "", MARK);
      assert line == WithoutReturn(line) + ['\r'] + "";
    }
  }

  ghost predicate SomeTagged(lines: seq<string>) {
    exists k :: 0 <= k < |lines| && Tagged(lines[k])
  }

  lemma SomeTaggedCons(line: string, rest: seq<string>)
    ensures SomeTagged([line] + rest) <==> Tagged(line) || SomeTagged(rest)
  {
    var lines := [line] + rest;
    if Tagged(line) { assert Tagged(lines[0]); }
    if SomeTagged(rest) {
      var k :| 0 <= k < |rest| && Tagged(rest[k]);
      assert Tagged(lines[k + 1]);
    }
    if SomeTagged(lines) {
      var k :| 0 <= k < |lines| && Tagged(lines[k]);
      assert k > 0 ==> lines[k] == rest[k - 1];
    }
  }

  /** A text holds the tag exactly when one of its lines does. */
  lemma {:induction false} TagOnOneLine(content: string)
    ensures Tagged(content) <==> SomeTagged(LinesOf(content))
    decreases |content|
  {
    if content == "" {
      assert !Tagged("");
    } else {
      match SplitAt(content, '\n')
      case NotFound => assert LinesOf(content)[0] == content;
      case Found(before, after) =>
        OccursInOnePart(before, '\n', after, MARK);
        TagWithoutReturn(before);
        TagOnOneLine(after);
        SomeTaggedCons(WithoutReturn(before), LinesOf(after));
    }
  }

  /** The function itself, early return included: the payloads are those of the scan over all lines either way. */
  method ExtractFromText(content: string, decode: Decoder) returns (text: string, binaries: seq<seq<nat>>)
    ensures text == if SomeTagged(LinesOf(content)) then Join(OutputOf(LinesOf(content), decode)) else content
    ensures binaries == PayloadsOf(LinesOf(content), decode)
  {
    TagOnOneLine(content);
    if !Tagged(content) {
      UntaggedPasses(LinesOf(content), decode);
      return content, [];
    }
    var out;
    out, binaries := ExtractBinaryScalars(LinesOf(content), decode);
    text := Join(out);
  }

  /** What the early return leaves as it is, the scan would normalize: they give the same text exactly when no line break
      follows a carriage return or ends the text. */
  lemma EarlyReturnAgreesIff(content: string, decode: Decoder)
    requires !Tagged(content)
    ensures Join(OutputOf(LinesOf(content), decode)) == content <==> Settled(content)
  {
    TagOnOneLine(content);
    UntaggedPasses(LinesOf(content), decode);
    JoinedLinesIff(content);
  }
}
