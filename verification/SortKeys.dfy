/** What the sort key tells apart. */
module SortKeys {
  import opened CanonicalText
  import opened Json
  import opened JsonReader
  import opened Options
  import opened Matching
  import opened Protocol

  predicate Octets(bytes: seq<nat>) {
    forall b | b in bytes :: b < 256
  }

  /** Bodies of one kind: the key text of a JSON string may be that of a text body. */
  predicate SameKind(a: BodyContent, b: BodyContent) {
    a.JsonBody? == b.JsonBody? && a.TextBody? == b.TextBody? && a.BinaryBody? == b.BinaryBody?
  }

  /** Bytes are below 256. */
  predicate PlainBody(body: BodyContent) {
    body.BinaryBody? ==> Octets(body.bytes)
  }

  /** What matching asks beyond equal keys: the key maps methods to upper case beyond ASCII too, leaves headers out, and
      does not tell body kinds apart. */
  predicate BeyondKey(a: HttpRequest, b: HttpRequest, config: MatchConfig) {
    && (ByMethod in config.matchOn ==> EqIgnoreAsciiCase(a.method_, b.method_))
    && (ByHeaders in config.matchOn ==> HeadersMatch(a, b, config.lower))
    && (ByBody in config.matchOn || ByJsonBody in config.matchOn ==> SameKind(a.body, b.body))
  }

  lemma UpperDecides(a: string, b: string, table: map<char, string>)
    requires AsciiText(a) && AsciiText(b) && ToUpper(a, table) == ToUpper(b, table)
    ensures EqIgnoreAsciiCase(a, b)
  {
    AsciiUpper(a, table);
    AsciiUpper(b, table);
    forall i | 0 <= i < |a| ensures AsciiLower(a[i]) == AsciiLower(b[i]) {
      assert ToUpper(a, table)[i] == ToUpper(b, table)[i];
    }
  }

  function UpperOf(c: char): char {
    if 'a' <= c <= 'z' then (c as int - 32) as char else c
  }

  lemma {:induction false} AsciiUpper(s: string, table: map<char, string>)
    requires AsciiText(s)
    ensures |ToUpper(s, table)| == |s| && forall i :: 0 <= i < |s| ==> ToUpper(s, table)[i] == UpperOf(s[i])
  {
    if s != "" {
      assert s[0] in s;
      assert forall c | c in s[1..] :: c in s;
      AsciiUpper(s[1..], table);
    }
  }

  lemma HexStep(bytes: seq<nat>)
    requires bytes != [] && Octets(bytes)
    ensures bytes[0] < 256 && |Hex(bytes)| >= 2 && Hex(bytes)[2..] == Hex(bytes[1..]) && Octets(bytes[1..])
    ensures Hex(bytes)[0] == HexDigit(bytes[0] / 16) && Hex(bytes)[1] == HexDigit(bytes[0] % 16)
  {
    assert bytes[0] in bytes;
    assert forall b | b in bytes[1..] :: b in bytes;
    assert bytes[0] / 16 % 16 == bytes[0] / 16;
  }

  /** Two hexadecimal digits for each byte, the high one first. */
  function ReadHex(s: string): Option<seq<nat>> {
    if s == "" then Some([])
    else if |s| == 1 then None
    else
      var high, low, rest := HexValue(s[0]), HexValue(s[1]), ReadHex(s[2..]);
      if high.Some? && low.Some? && rest.Some? then Some([16 * high.value + low.value] + rest.value) else None
  }

  lemma ReadPair(s: string, h: nat, l: nat, rest: seq<nat>)
    requires |s| >= 2 && HexValue(s[0]) == Some(h) && HexValue(s[1]) == Some(l) && ReadHex(s[2..]) == Some(rest)
    ensures ReadHex(s) == Some([16 * h + l] + rest)
  {
    hide HexValue;
  }

  /** The key of binary content can be read back as its bytes. */
  lemma {:induction false} HexReads(bytes: seq<nat>)
    requires Octets(bytes)
    ensures ReadHex(Hex(bytes)) == Some(bytes)
  {
    hide HexDigit;
    hide HexValue;
    if bytes != [] {
      HexStep(bytes);
      HexReads(bytes[1..]);
      HexDigitValue(bytes[0] / 16);
      HexDigitValue(bytes[0] % 16);
      hide ReadHex;
      hide Hex;
      ReadPair(Hex(bytes), bytes[0] / 16, bytes[0] % 16, bytes[1..]);
      assert bytes == [bytes[0]] + bytes[1..];
    }
  }

  lemma HexDecides(a: seq<nat>, b: seq<nat>)
    requires Octets(a) && Octets(b) && Hex(a) == Hex(b)
    ensures a == b
  {
    HexReads(a);
    HexReads(b);
  }

  lemma {:induction false} ExactIsEqual(a: Json, b: Json)
    requires Valid(a) && Valid(b) && Equal(a, b, true)
    ensures Equal(a, b, false)
  {
    match a
    case Array(items) =>
      forall i | 0 <= i < |items| ensures Equal(items[i], b.items[i], false) {
        ExactIsEqual(items[i], b.items[i]);
      }
    case Object(members) =>
      forall m | m in members ensures Get(b.members, m.key).Some? && Equal(m.value, Get(b.members, m.key).value, false) {
        ExactIsEqual(m.value, Get(b.members, m.key).value);
      }
    case _ =>
  }

  lemma SameTextMatches(a: BodyContent, b: BodyContent, ignore: seq<string>)
    requires SameKind(a, b) && BodyText(a, ignore) == BodyText(b, ignore)
    requires (a.BinaryBody? ==> Octets(a.bytes)) && (b.BinaryBody? ==> Octets(b.bytes))
    ensures JsonBodyMatch(a, b, ignore)
  {
    if a.JsonBody? {
      var v, w := FilterPaths(a.value, ignore, ""), FilterPaths(b.value, ignore, "");
      FilterValid(a.value, ignore, "");
      FilterValid(b.value, ignore, "");
      TextDecidesEqual(v, w);
      ExactIsEqual(v, w);
    } else if a.BinaryBody? {
      HexDecides(a.bytes, b.bytes);
    }
  }

  lemma SamePartMatches(a: HttpRequest, b: HttpRequest, m: Matcher, config: MatchConfig)
    requires PlainBody(a.body) && PlainBody(b.body) && BeyondKey(a, b, config)
    requires m in config.matchOn && !m.Unknown? && KeyPart(a, m, config) == KeyPart(b, m, config)
    ensures FieldMatches(a, b, m, config)
  {
    match m
    case ByBody =>
      SameTextMatches(a.body, b.body, []);
      PlainBodyMatch(a.body, b.body);
    case ByJsonBody => SameTextMatches(a.body, b.body, config.ignoreJsonPaths);
    case _ =>
  }

  /** Keys agree exactly when they agree matcher by matcher. */
  lemma {:induction false} KeysAgreeByPart(a: HttpRequest, b: HttpRequest, matchOn: seq<Matcher>, config: MatchConfig)
    ensures KeyOf(a, matchOn, config) == KeyOf(b, matchOn, config) <==>
            forall m | m in matchOn :: KeyPart(a, m, config) == KeyPart(b, m, config)
  {
    if matchOn != [] {
      var m := matchOn[0];
      var x, y := KeyOf(a, matchOn, config), KeyOf(b, matchOn, config);
      var n := |KeyPart(a, m, config)|;
      assert n == |KeyPart(b, m, config)|;
      KeysAgreeByPart(a, b, matchOn[1..], config);
      assert x[..n] == KeyPart(a, m, config) && y[..n] == KeyPart(b, m, config);
      assert x[n..] == KeyOf(a, matchOn[1..], config) && y[n..] == KeyOf(b, matchOn[1..], config);
    }
  }

  /** The JSON bodies a matcher compares are equal with the signs of zeros. */
  predicate SameZeros(a: HttpRequest, b: HttpRequest, config: MatchConfig) {
    a.body.JsonBody? && b.body.JsonBody? ==>
      && (ByBody in config.matchOn ==> Equal(a.body.value, b.body.value, true))
      && (ByJsonBody in config.matchOn ==>
            Equal(FilterPaths(a.body.value, config.ignoreJsonPaths, ""),
                  FilterPaths(b.body.value, config.ignoreJsonPaths, ""), true))
  }

  lemma MatchedBodyText(p: BodyContent, a: BodyContent, b: BodyContent, ignore: seq<string>)
    requires JsonBodyMatch(p, a, ignore) && JsonBodyMatch(p, b, ignore)
    ensures BodyText(a, ignore) == BodyText(b, ignore) <==>
            (a.JsonBody? && b.JsonBody? ==> Equal(FilterPaths(a.value, ignore, ""), FilterPaths(b.value, ignore, ""), true))
  {
    if p.JsonBody? {
      FilterValid(a.value, ignore, "");
      FilterValid(b.value, ignore, "");
      TextDecidesEqual(FilterPaths(a.value, ignore, ""), FilterPaths(b.value, ignore, ""));
    } else if a.JsonBody? {
      assert false;
    }
  }

  lemma MatchedPart(p: HttpRequest, a: HttpRequest, b: HttpRequest, m: Matcher, config: MatchConfig)
    requires FieldMatches(p, a, m, config) && FieldMatches(p, b, m, config)
    ensures KeyPart(a, m, config) == KeyPart(b, m, config) <==> SameZeros(a, b, config.(matchOn := [m]))
  {
    match m
    case ByMethod =>
      SameUpper(p.method_, a.method_, config.upper);
      SameUpper(p.method_, b.method_, config.upper);
    case ByBody =>
      PlainBodyMatch(p.body, a.body);
      PlainBodyMatch(p.body, b.body);
      MatchedBodyText(p.body, a.body, b.body, []);
      if a.body.JsonBody? { FilterNothing(a.body.value, ""); }
      if b.body.JsonBody? { FilterNothing(b.body.value, ""); }
    case ByJsonBody => MatchedBodyText(p.body, a.body, b.body, config.ignoreJsonPaths);
    case _ =>
  }

  /** Two recordings one request matches have the same key exactly when their matched bodies agree in the signs of zeros
      too, whatever the `headers` matcher let through. */
  lemma MatchesShareKeyIff(p: HttpRequest, a: HttpRequest, b: HttpRequest, config: MatchConfig)
    requires Matches(p, a, config) && Matches(p, b, config)
    ensures Key(a, config) == Key(b, config) <==> SameZeros(a, b, config)
  {
    KeysAgreeByPart(a, b, config.matchOn, config);
    forall m | m in config.matchOn
      ensures KeyPart(a, m, config) == KeyPart(b, m, config) <==> SameZeros(a, b, config.(matchOn := [m]))
    {
      MatchedPart(p, a, b, m, config);
    }
  }

  lemma SamePartsAreExact(a: HttpRequest, b: HttpRequest, config: MatchConfig)
    requires Key(a, config) == Key(b, config)
    ensures SameZeros(a, b, config)
  {
    KeysAgreeByPart(a, b, config.matchOn, config);
    if a.body.JsonBody? && b.body.JsonBody? {
      FilterValid(a.body.value, config.ignoreJsonPaths, "");
      FilterValid(b.body.value, config.ignoreJsonPaths, "");
      FilterNothing(a.body.value, "");
      FilterNothing(b.body.value, "");
      TextDecidesEqual(a.body.value, b.body.value);
      TextDecidesEqual(FilterPaths(a.body.value, config.ignoreJsonPaths, ""),
                       FilterPaths(b.body.value, config.ignoreJsonPaths, ""));
      assert ByBody in config.matchOn ==> KeyPart(a, ByBody, config)[0] == KeyPart(b, ByBody, config)[0];
      assert ByJsonBody in config.matchOn ==> KeyPart(a, ByJsonBody, config)[0] == KeyPart(b, ByJsonBody, config)[0];
    }
  }

  /** How fine the key is: requests match, up to the signs of zeros, exactly when they share a key and agree in what the
      key leaves out. */
  lemma SameKeyIffMatching(a: HttpRequest, b: HttpRequest, config: MatchConfig)
    requires config.Valid() && PlainBody(a.body) && PlainBody(b.body)
    ensures Matches(a, b, config) && SameZeros(a, b, config) <==> Key(a, config) == Key(b, config) && BeyondKey(a, b, config)
  {
    if Key(a, config) == Key(b, config) && BeyondKey(a, b, config) {
      SamePartsAreExact(a, b, config);
      KeysAgreeByPart(a, b, config.matchOn, config);
      forall m | m in config.matchOn ensures FieldMatches(a, b, m, config) {
        SamePartMatches(a, b, m, config);
      }
    }
    if Matches(a, b, config) {
      MatchesItself(a, config);
      MatchesShareKeyIff(a, a, b, config);
      MatchesBeyondKey(a, b, config);
    }
  }

  /** Equal keys already mean that ASCII methods agree. */
  lemma AsciiMethodsAgree(a: HttpRequest, b: HttpRequest, config: MatchConfig)
    requires ByMethod in config.matchOn && AsciiText(a.method_) && AsciiText(b.method_)
    requires Key(a, config) == Key(b, config)
    ensures EqIgnoreAsciiCase(a.method_, b.method_)
  {
    KeysAgreeByPart(a, b, config.matchOn, config);
    assert KeyPart(a, ByMethod, config)[0] == KeyPart(b, ByMethod, config)[0];
    UpperDecides(a.method_, b.method_, config.upper);
  }

  lemma MatchesBeyondKey(a: HttpRequest, b: HttpRequest, config: MatchConfig)
    requires Matches(a, b, config)
    ensures BeyondKey(a, b, config)
  {
    assert ByMethod in config.matchOn ==> FieldMatches(a, b, ByMethod, config);
    assert ByHeaders in config.matchOn ==> FieldMatches(a, b, ByHeaders, config);
    assert ByBody in config.matchOn ==> FieldMatches(a, b, ByBody, config);
    assert ByJsonBody in config.matchOn ==> FieldMatches(a, b, ByJsonBody, config);
  }

  /** A text body and a JSON string body with the same text share a key without matching: the kinds must agree. */
  lemma KindsCollide(text: string, config: MatchConfig)
    requires config.matchOn == [ByBody]
    ensures var a := HttpRequest("POST", "/", [], JsonBody(String(text)));
            var b := HttpRequest("POST", "/", [], TextBody(Text(String(text))));
            Key(a, config) == Key(b, config) && !Matches(a, b, config)
  {
    var a := HttpRequest("POST", "/", [], JsonBody(String(text)));
    var b := HttpRequest("POST", "/", [], TextBody(Text(String(text))));
    FilterNothing(String(text), "");
    assert KeyPart(a, ByBody, config) == KeyPart(b, ByBody, config);
    KeysAgreeByPart(a, b, config.matchOn, config);
    assert !FieldMatches(a, b, config.matchOn[0], config);
  }

  lemma UpperCons(c: char, s: string, table: map<char, string>)
    ensures ToUpper([c] + s, table) == UpperChar(c, table) + ToUpper(s, table)
  {
    assert ([c] + s)[1..] == s;
  }

  /** Beyond ASCII upper case merges methods that the matcher tells apart: a sharp s becomes two letters. */
  lemma MethodsCollide(config: MatchConfig)
    requires config.matchOn == [ByMethod] && '\U{DF}' in config.upper && config.upper['\U{DF}'] == "SS"
    ensures var a := HttpRequest("\U{DF}", "/", [], NoBody);
            var b := HttpRequest("SS", "/", [], NoBody);
            Key(a, config) == Key(b, config) && !Matches(a, b, config)
  {
    var a := HttpRequest("\U{DF}", "/", [], NoBody);
    var b := HttpRequest("SS", "/", [], NoBody);
    UpperCons('\U{DF}', "", config.upper);
    UpperCons('S', "", config.upper);
    UpperCons('S', "S", config.upper);
    var sharp, single, double := ['\U{DF}'] + "", ['S'] + "", ['S'] + "S";
    assert sharp == a.method_ && single == "S" && double == b.method_;
    assert ToUpper(a.method_, config.upper) == "SS" + "" == "SS";
    assert ToUpper(b.method_, config.upper) == "S" + ToUpper(single, config.upper);
    assert ToUpper(single, config.upper) == "S" + "" == "S";
    assert KeyPart(a, ByMethod, config) == KeyPart(b, ByMethod, config);
    KeysAgreeByPart(a, b, config.matchOn, config);
    assert !FieldMatches(a, b, config.matchOn[0], config);
  }
}
