/** `diff_responses`: what verify mode makes of a recorded and a live response. */
module ResponseDiff {
  import opened CanonicalText
  import opened ComparedHeaders
  import opened Decimal
  import opened DiffText
  import opened Json
  import opened JsonReader
  import opened Options
  import opened PrettyText
  import opened Protocol
  import S = Sorting
  import SortKeys
  import opened TextLines
  import opened Tolerance

  /** `events` reads a text as server-sent events. */
  datatype Compare = Compare(headers: seq<string>, jsonIgnore: seq<string>, sse: bool, events: string -> seq<Value>, near: Near)

  datatype Shown = JsonShown(value: Value) | TextShown(text: string) | BinaryShown(bytes: seq<nat>) | NothingShown

  datatype Response = Response(status: nat, headers: seq<HeaderValue>, kind: string, body: Shown)

  // --- normalize ---

  function TypeName(body: BodyContent): (r: string)
    ensures ':' !in r
  {
    match body case JsonBody(_) => "json" case TextBody(_) => "text" case BinaryBody(_) => "binary" case NoBody => "none"
  }

  function Dropped(compare: Compare, v: Value): Value {
    DropValid(v, compare.jsonIgnore);
    DropPaths(v, compare.jsonIgnore, "")
  }

  function DroppedAll(compare: Compare, events: seq<Value>): (r: seq<Json>)
    ensures |r| == |events| && forall x | x in r :: Valid(x)
    ensures forall i :: 0 <= i < |r| ==> r[i] == DropPaths(events[i], compare.jsonIgnore, "")
  {
    seq(|events|, i requires 0 <= i < |events| => Dropped(compare, events[i]))
  }

  function ShownBody(compare: Compare, body: BodyContent): Shown {
    match body
    case JsonBody(v) => JsonShown(Dropped(compare, v))
    case TextBody(text) =>
      if compare.sse then JsonShown(Array(DroppedAll(compare, compare.events(text)))) else TextShown(text)
    case BinaryBody(bytes) => BinaryShown(bytes)
    case NoBody => NothingShown
  }

  function Normalize(compare: Compare, r: HttpResponse): Response {
    Response(r.status, Compared(compare.headers, r.headers), TypeName(r.body), ShownBody(compare, r.body))
  }

  /** `live` with its numbers near the recorded ones replaced by them. */
  function Tolerated(compare: Compare, recorded: Response, live: Response): Response {
    if recorded.body.JsonShown? && live.body.JsonShown? then
      TolerateValid(recorded.body.value, live.body.value, compare.near);
      live.(body := JsonShown(Tolerate(recorded.body.value, live.body.value, compare.near)))
    else live
  }

  // --- render ---

  /** `escape_ascii` of one byte. */
  function EscapeByte(b: nat): (r: string)
    ensures r != "" && (r[0] == '\\' ==> |r| >= 2)
  {
    if b == 9 then "\\t" else if b == 10 then "\\n" else if b == 13 then "\\r" else if b == 34 then "\\\""
    else if b == 39 then "\\\'" else if b == 92 then "\\\\" else if 0x20 <= b < 0x7F then [b as char]
    else "\\x" + [HexDigit(b / 16 % 16), HexDigit(b % 16)]
  }

  function EscapeBytes(bytes: seq<nat>): string {
    if bytes == [] then "\'" else EscapeByte(bytes[0]) + EscapeBytes(bytes[1..])
  }

  function BodyLines(body: Shown): seq<string> {
    match body
    case JsonShown(v) => LinesOf(SortedText(v))
    case TextShown(text) => SplitLines(text)
    case BinaryShown(bytes) => ["b\'" + EscapeBytes(bytes)]
    case NothingShown => ["null"]
  }

  function HeaderLine(h: HeaderValue): string {
    h.name + ": " + h.value
  }

  function HeaderLines(headers: seq<HeaderValue>): (r: seq<string>)
    ensures |r| == |headers| && forall i :: 0 <= i < |r| ==> r[i] == HeaderLine(headers[i])
  {
    seq(|headers|, i requires 0 <= i < |headers| => HeaderLine(headers[i]))
  }

  function Marker(kind: string): string {
    "@@ " + kind + " body @@"
  }

  function Render(r: Response): (lines: seq<string>)
    ensures |lines| >= 3
  {
    ["status: " + Decimal.Decimal(r.status), "@@ headers @@"] +
    (HeaderLines(r.headers) + ([Marker(r.kind)] + BodyLines(r.body)))
  }

  // --- The lines tell responses apart ---

  /** Header lines hold a colon and the marker after them does not, so the lines fall into their parts in one way. */
  lemma PartsUnique(a: seq<string>, m: string, s: seq<string>, b: seq<string>, n: string, t: seq<string>)
    requires (forall line | line in a :: ':' in line) && (forall line | line in b :: ':' in line)
    requires ':' !in m && ':' !in n
    ensures a + ([m] + s) == b + ([n] + t) <==> a == b && m == n && s == t
  {
    var x, y := a + ([m] + s), b + ([n] + t);
    if x == y {
      assert x[|a|] == m && y[|b|] == n;
      assert forall k :: 0 <= k < |a| ==> x[k] == a[k] && a[k] in a;
      assert forall k :: 0 <= k < |b| ==> y[k] == b[k] && b[k] in b;
      assert x[..|a|] == a && y[..|b|] == b;
      assert x[|a| + 1..] == s && y[|b| + 1..] == t;
    }
  }

  lemma HeaderLinesHaveColons(headers: seq<HeaderValue>)
    ensures forall line | line in HeaderLines(headers) :: ':' in line
  {
    forall line | line in HeaderLines(headers) ensures ':' in line {
      var i :| 0 <= i < |headers| && HeaderLines(headers)[i] == line;
      assert HeaderLine(headers[i])[|headers[i].name|] == ':';
    }
  }

  lemma HeaderLineSplits(h: HeaderValue)
    requires ':' !in h.name
    ensures SplitAt(HeaderLine(h), ':') == Found(h.name, " " + h.value)
  {
    hide SplitAt;
    SplitFinds(h.name, ':', " " + h.value);
    assert HeaderLine(h) == h.name + [':'] + (" " + h.value);
  }

  lemma HeaderLineDecides(a: HeaderValue, b: HeaderValue)
    requires ':' !in a.name && ':' !in b.name && HeaderLine(a) == HeaderLine(b)
    ensures a == b
  {
    hide SplitAt;
    hide HeaderLine;
    HeaderLineSplits(a);
    HeaderLineSplits(b);
    assert (" " + a.value)[1..] == a.value && (" " + b.value)[1..] == b.value;
  }

  /** Header lines tell headers apart, as no field name holds a colon. */
  lemma HeaderLinesDecide(a: seq<HeaderValue>, b: seq<HeaderValue>)
    requires (forall h | h in a :: ':' !in h.name) && forall h | h in b :: ':' !in h.name
    ensures HeaderLines(a) == HeaderLines(b) <==> a == b
  {
    if HeaderLines(a) == HeaderLines(b) {
      forall i | 0 <= i < |a| ensures a[i] == b[i] {
        assert HeaderLines(a)[i] == HeaderLines(b)[i] && a[i] in a && b[i] in b;
        HeaderLineDecides(a[i], b[i]);
      }
    }
  }

  lemma MarkerDecides(a: string, b: string)
    ensures ':' !in a ==> ':' !in Marker(a)
    ensures Marker(a) == Marker(b) <==> a == b
  {
    assert Marker(a)[3..|Marker(a)| - 8] == a && Marker(b)[3..|Marker(b)| - 8] == b;
  }

  lemma StatusDecides(a: nat, b: nat)
    ensures "status: " + Decimal.Decimal(a) == "status: " + Decimal.Decimal(b) <==> a == b
  {
    ParseDecimal(a);
    ParseDecimal(b);
    assert ("status: " + Decimal.Decimal(a))[8..] == Decimal.Decimal(a);
    assert ("status: " + Decimal.Decimal(b))[8..] == Decimal.Decimal(b);
  }

  lemma RenderDecides(x: Response, y: Response)
    requires ':' !in x.kind && ':' !in y.kind
    ensures Render(x) == Render(y) <==>
            x.status == y.status && HeaderLines(x.headers) == HeaderLines(y.headers) && x.kind == y.kind &&
            BodyLines(x.body) == BodyLines(y.body)
  {
    StatusDecides(x.status, y.status);
    HeaderLinesHaveColons(x.headers);
    HeaderLinesHaveColons(y.headers);
    MarkerDecides(x.kind, y.kind);
    MarkerDecides(y.kind, x.kind);
    hide BodyLines;
    hide Marker;
    hide HeaderLine;
    PartsUnique(HeaderLines(x.headers), Marker(x.kind), BodyLines(x.body),
                HeaderLines(y.headers), Marker(y.kind), BodyLines(y.body));
    SameFront(["status: " + Decimal.Decimal(x.status), "@@ headers @@"], ["status: " + Decimal.Decimal(y.status), "@@ headers @@"],
              HeaderLines(x.headers) + ([Marker(x.kind)] + BodyLines(x.body)),
              HeaderLines(y.headers) + ([Marker(y.kind)] + BodyLines(y.body)));
  }

  lemma SameFront(a: seq<string>, b: seq<string>, s: seq<string>, t: seq<string>)
    requires |a| == |b| == 2 && a[1] == b[1]
    ensures a + s == b + t <==> a[0] == b[0] && s == t
  {
    if a + s == b + t {
      assert (a + s)[0] == a[0] && (b + t)[0] == b[0];
      assert (a + s)[2..] == s && (b + t)[2..] == t;
    }
  }

  // --- The bodies' lines ---

  /** The byte a one-letter escape stands for. */
  function LetterByte(c: char): Option<nat> {
    if c == 't' then Some(9) else if c == 'n' then Some(10) else if c == 'r' then Some(13)
    else if c == '\"' || c == '\'' || c == '\\' then Some(c as int)
    else None
  }

  /** The first byte of an escaped byte string, and what follows it. */
  function ReadByte(s: string): (r: Option<(nat, string)>)
    ensures r.Some? ==> |r.value.1| < |s|
  {
    if s == "" then None
    else if s[0] != '\\' then Some((s[0] as int, s[1..]))
    else if |s| < 2 then None
    else if s[1] == 'x' then
      if |s| < 4 then None
      else
        var high, low := HexValue(s[2]), HexValue(s[3]);
        if high.Some? && low.Some? then Some((16 * high.value + low.value, s[4..])) else None
    else
      var letter := LetterByte(s[1]);
      if letter.Some? then Some((letter.value, s[2..])) else None
  }

  /** The bytes of an escaped byte string up to its closing quote. */
  function ReadBytes(s: string): Option<seq<nat>>
    decreases |s|
  {
    if s != "" && s[0] == '\'' then (if |s| == 1 then Some([]) else None)
    else
      match ReadByte(s)
      case None => None
      case Some((b, after)) =>
        var rest := ReadBytes(after);
        if rest.Some? then Some([b] + rest.value) else None
  }

  lemma ByteReads(b: nat, rest: string)
    requires b < 256
    ensures ReadByte(EscapeByte(b) + rest) == Some((b, rest)) && EscapeByte(b)[0] != '\''
  {
    hide HexDigit;
    hide HexValue;
    var e := EscapeByte(b);
    var s := e + rest;
    if |e| == 4 {
      HexDigitValue(b / 16 % 16);
      HexDigitValue(b % 16);
      assert s[0] == e[0] && s[1] == e[1] && s[2] == e[2] && s[3] == e[3] && s[4..] == rest;
    } else if |e| == 2 {
      assert s[0] == e[0] && s[1] == e[1] && s[2..] == rest;
    } else {
      assert s[0] == e[0] && s[1..] == rest;
    }
  }

  /** As `escape_ascii` writes it: printable text, one letter for the common escapes, two lower-case digits for the rest. */
  lemma EscapeByteIs(b: nat)
    ensures var e := EscapeByte(b);
            && (forall c | c in e :: 0x20 <= c as int < 0x7F && (|e| == 4 ==> !('A' <= c <= 'Z')))
            && |e| == if b in {9, 10, 13, 34, 39, 92} then 2 else if 0x20 <= b < 0x7F then 1 else 4
  {
    DigitShape(b / 16 % 16);
    DigitShape(b % 16);
    hide HexDigit;
  }

  lemma DigitShape(n: nat)
    requires n < 16
    ensures var c := HexDigit(n); 0x20 <= c as int < 0x7F && !('A' <= c <= 'Z')
  {}

  /** A binary body can be read back from its line. */
  lemma {:induction false} BytesRead(bytes: seq<nat>)
    requires SortKeys.Octets(bytes)
    ensures ReadBytes(EscapeBytes(bytes)) == Some(bytes)
  {
    if bytes != [] {
      assert bytes[0] in bytes && forall x | x in bytes[1..] :: x in bytes;
      ByteReads(bytes[0], EscapeBytes(bytes[1..]));
      BytesRead(bytes[1..]);
      assert bytes == [bytes[0]] + bytes[1..];
    }
  }

  /** Bodies of one kind print the same lines exactly when they are the same, JSON up to the order of keys. */
  lemma BodyLinesDecide(a: Shown, b: Shown)
    requires a.JsonShown? == b.JsonShown? && a.TextShown? == b.TextShown? && a.BinaryShown? == b.BinaryShown?
    requires a.BinaryShown? ==> SortKeys.Octets(a.bytes) && SortKeys.Octets(b.bytes)
    ensures BodyLines(a) == BodyLines(b) <==> if a.JsonShown? then Text(a.value) == Text(b.value) else a == b
  {
    match a
    case JsonShown(v) => LinesDecide(v, b.value);
    case TextShown(text) =>
      JoinSplit(text);
      JoinSplit(b.text);
    case BinaryShown(bytes) =>
      var x, y := "b\'" + EscapeBytes(bytes), "b\'" + EscapeBytes(b.bytes);
      assert x[2..] == EscapeBytes(bytes) && y[2..] == EscapeBytes(b.bytes);
      if BodyLines(a) == BodyLines(b) {
        assert BodyLines(a)[0] == x && BodyLines(b)[0] == y;
        BytesRead(bytes);
        BytesRead(b.bytes);
      }
    case NothingShown =>
  }

  // --- Main result ---

  predicate BodiesAlike(compare: Compare, recorded: Shown, live: Shown) {
    if recorded.JsonShown? && live.JsonShown? then Within(recorded.value, live.value, compare.near, true)
    else recorded == live
  }

  /** The responses agree: status, compared headers, kind of body, and the body, numbers within the tolerance. */
  predicate Alike(compare: Compare, recorded: HttpResponse, live: HttpResponse) {
    && recorded.status == live.status
    && HeaderLines(Compared(compare.headers, recorded.headers)) == HeaderLines(Compared(compare.headers, live.headers))
    && TypeName(recorded.body) == TypeName(live.body)
    && BodiesAlike(compare, ShownBody(compare, recorded.body), ShownBody(compare, live.body))
  }

  function Expected(compare: Compare, recorded: HttpResponse): seq<string> {
    Render(Normalize(compare, recorded))
  }

  function Actual(compare: Compare, recorded: HttpResponse, live: HttpResponse): seq<string> {
    Render(Tolerated(compare, Normalize(compare, recorded), Normalize(compare, live)))
  }

  /** The rendered responses are the same lines exactly when the responses agree. */
  lemma AlikeIff(compare: Compare, recorded: HttpResponse, live: HttpResponse)
    requires SortKeys.PlainBody(recorded.body) && SortKeys.PlainBody(live.body)
    ensures Expected(compare, recorded) == Actual(compare, recorded, live) <==> Alike(compare, recorded, live)
  {
    var x, y := Normalize(compare, recorded), Normalize(compare, live);
    RenderDecides(x, Tolerated(compare, x, y));
    if x.kind == y.kind {
      BodyLinesDecide(x.body, Tolerated(compare, x, y).body);
      if x.body.JsonShown? {
        NoDiffIff(x.body.value, y.body.value, compare.near);
      }
    }
  }

  ghost predicate NoColons(headers: seq<Header>) {
    forall h | h in headers :: ':' !in h.name
  }

  /** The bodies agree, spelled out by kind. */
  ghost predicate SameBodies(compare: Compare, a: BodyContent, b: BodyContent) {
    match (a, b)
    case (JsonBody(v), JsonBody(w)) =>
      Within(DropPaths(v, compare.jsonIgnore, ""), DropPaths(w, compare.jsonIgnore, ""), compare.near, true)
    case (TextBody(s), TextBody(t)) =>
      if compare.sse then SameEvents(compare, compare.events(s), compare.events(t)) else s == t
    case (BinaryBody(x), BinaryBody(y)) => x == y
    case (NoBody, NoBody) => true
    case _ => false
  }

  ghost predicate SameEvents(compare: Compare, a: seq<Value>, b: seq<Value>) {
    |a| == |b| && forall i :: 0 <= i < |a| ==>
      Within(DropPaths(a[i], compare.jsonIgnore, ""), DropPaths(b[i], compare.jsonIgnore, ""), compare.near, true)
  }

  /** When two responses agree: the status, the values under every header name that some listed pattern matches, and the
      bodies, of one kind, within the tolerance outside the ignored paths. */
  ghost predicate Agree(compare: Compare, recorded: HttpResponse, live: HttpResponse) {
    && recorded.status == live.status
    && (forall name :: Wanted(compare.headers, name) ==>
          ValuesUnder(recorded.headers, name) == ValuesUnder(live.headers, name))
    && SameBodies(compare, recorded.body, live.body)
  }

  lemma {:induction false} LowerNoColon(s: string)
    requires ':' !in s
    ensures ':' !in Lower(s)
  {
    if s != "" {
      assert s[0] in s;
      LowerNoColon(s[1..]);
    }
  }

  lemma {:induction false} FlatNames(headers: seq<Header>)
    requires NoColons(headers)
    ensures forall v | v in Flat(headers) :: ':' !in v.name
  {
    if headers != [] {
      assert headers[0] in headers;
      FlatNames(headers[1..]);
    }
  }

  lemma ComparedNames(patterns: seq<string>, headers: seq<Header>)
    requires NoColons(headers)
    ensures forall v | v in Compared(patterns, headers) :: ':' !in v.name
  {
    var values := Flat(S.Filter(headers, Selecting(patterns)));
    FlatNames(S.Filter(headers, Selecting(patterns)));
    S.SortElements(values, ComparedHeaders.ByName());
    var sorted := S.StableSort(values, ComparedHeaders.ByName());
    forall v | v in Compared(patterns, headers) ensures ':' !in v.name {
      var i :| 0 <= i < |sorted| && Compared(patterns, headers)[i] == v;
      assert sorted[i] in sorted;
      LowerNoColon(sorted[i].name);
    }
  }

  lemma SameBodiesIff(compare: Compare, a: BodyContent, b: BodyContent)
    ensures TypeName(a) == TypeName(b) && BodiesAlike(compare, ShownBody(compare, a), ShownBody(compare, b)) <==>
            SameBodies(compare, a, b)
  {
    if a.TextBody? && b.TextBody? && compare.sse {
      var x, y := compare.events(a.text), compare.events(b.text);
      assert Within(Array(DroppedAll(compare, x)), Array(DroppedAll(compare, y)), compare.near, true) <==>
             SameEvents(compare, x, y);
    }
  }

  lemma AgreeIff(compare: Compare, recorded: HttpResponse, live: HttpResponse)
    requires NoColons(recorded.headers) && NoColons(live.headers)
    ensures Alike(compare, recorded, live) <==> Agree(compare, recorded, live)
  {
    ComparedNames(compare.headers, recorded.headers);
    ComparedNames(compare.headers, live.headers);
    HeaderLinesDecide(Compared(compare.headers, recorded.headers), Compared(compare.headers, live.headers));
    ComparedDecide(compare.headers, recorded.headers, live.headers);
    SameBodiesIff(compare, recorded.body, live.body);
  }

  /** No diff exactly when the responses agree; otherwise a text that turns the one rendered response into the other, and
      in reverse. */
  method DiffResponses(compare: Compare, recorded: HttpResponse, live: HttpResponse)
    returns (diff: Option<string>, ghost lines: seq<string>)
    requires SortKeys.PlainBody(recorded.body) && SortKeys.PlainBody(live.body)
    ensures diff.None? <==> Alike(compare, recorded, live)
    ensures NoColons(recorded.headers) && NoColons(live.headers) ==> (diff.None? <==> Agree(compare, recorded, live))
    ensures diff.Some? ==>
              diff.value == Join(lines) &&
              IsPatchText(lines, Expected(compare, recorded), Actual(compare, recorded, live))
  {
    AlikeIff(compare, recorded, live);
    if NoColons(recorded.headers) && NoColons(live.headers) {
      AgreeIff(compare, recorded, live);
    }
    var expected, actual := Expected(compare, recorded), Actual(compare, recorded, live);
    if expected == actual {
      return None, [];
    }
    var text;
    text, lines := PrintDiff(expected, actual);
    diff := Some(text);
  }
}
