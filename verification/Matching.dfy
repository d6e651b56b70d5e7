/** Request matching, and the sort key derived from it. */
module Matching {
  import opened CanonicalText
  import opened Decimal
  import opened Json
  import opened Options
  import opened Protocol
  import opened Sorting

  datatype Matcher = ByMethod | ByUri | ByHeaders | ByBody | ByJsonBody | Unknown(name: string)

  /** `upper` and `lower` hold the part of Unicode case mapping that lies beyond ASCII. */
  datatype MatchConfig = MatchConfig(
    matchOn: seq<Matcher>, ignoreJsonPaths: seq<string>, upper: map<char, string>, lower: map<char, string>)
  {
    /** What `validate_matchers` accepts. */
    predicate Valid() {
      matchOn != [] && forall m | m in matchOn :: !m.Unknown?
    }

    predicate UsesMethodUriIndex() {
      ByMethod in matchOn && ByUri in matchOn
    }
  }

  // --- Letter case ---

  function AsciiLower(c: char): char {
    if 'A' <= c <= 'Z' then (c as int + 32) as char else c
  }

  predicate AsciiText(s: string) {
    forall c | c in s :: c as int < 128
  }

  predicate EqIgnoreAsciiCase(a: string, b: string) {
    |a| == |b| && forall i :: 0 <= i < |a| ==> AsciiLower(a[i]) == AsciiLower(b[i])
  }

  function UpperChar(c: char, table: map<char, string>): string {
    if 'a' <= c <= 'z' then [(c as int - 32) as char]
    else if c as int < 128 || c !in table then [c]
    else table[c]
  }

  function LowerChar(c: char, table: map<char, string>): string {
    if c as int < 128 || c !in table then [AsciiLower(c)] else table[c]
  }

  function ToUpper(s: string, table: map<char, string>): string {
    if s == "" then "" else UpperChar(s[0], table) + ToUpper(s[1..], table)
  }

  function ToLower(s: string, table: map<char, string>): string {
    if s == "" then "" else LowerChar(s[0], table) + ToLower(s[1..], table)
  }

  lemma {:induction false} SameUpper(a: string, b: string, table: map<char, string>)
    requires EqIgnoreAsciiCase(a, b)
    ensures ToUpper(a, table) == ToUpper(b, table)
  {
    if a != "" {
      assert AsciiLower(a[0]) == AsciiLower(b[0]);
      assert EqIgnoreAsciiCase(a[1..], b[1..]) by {
        forall i | 0 <= i < |a| - 1 ensures AsciiLower(a[1..][i]) == AsciiLower(b[1..][i]) {
          assert AsciiLower(a[i + 1]) == AsciiLower(b[i + 1]);
        }
      }
      SameUpper(a[1..], b[1..], table);
    }
  }

  lemma {:induction false} EqualLowersAlike(a: string, b: string, table: map<char, string>)
    requires EqIgnoreAsciiCase(a, b)
    ensures ToLower(a, table) == ToLower(b, table)
  {
    if a != "" {
      assert AsciiLower(a[0]) == AsciiLower(b[0]);
      forall i | 0 <= i < |a[1..]| ensures AsciiLower(a[1..][i]) == AsciiLower(b[1..][i]) {
        assert AsciiLower(a[i + 1]) == AsciiLower(b[i + 1]);
      }
      EqualLowersAlike(a[1..], b[1..], table);
    }
  }

  lemma {:induction false} AsciiLowered(s: string, table: map<char, string>)
    requires AsciiText(s)
    ensures |ToLower(s, table)| == |s| && forall i :: 0 <= i < |s| ==> ToLower(s, table)[i] == AsciiLower(s[i])
  {
    if s != "" {
      assert s[0] in s;
      assert forall c | c in s[1..] :: c in s;
      AsciiLowered(s[1..], table);
    }
  }

  lemma AsciiLowersAlike(a: string, b: string, table: map<char, string>)
    requires AsciiText(a) && AsciiText(b) && ToLower(a, table) == ToLower(b, table)
    ensures EqIgnoreAsciiCase(a, b)
  {
    AsciiLowered(a, table);
    AsciiLowered(b, table);
    forall i | 0 <= i < |a| ensures AsciiLower(a[i]) == AsciiLower(b[i]) {
      assert ToLower(a, table)[i] == ToLower(b, table)[i];
    }
  }

  // --- Matchers ---

  function FindName(headers: seq<Header>, name: string): Option<seq<string>> {
    if headers == [] then None
    else if headers[0].name == name then Some(headers[0].values)
    else FindName(headers[1..], name)
  }

  function FindLower(headers: seq<Header>, lowered: string, table: map<char, string>): Option<seq<string>> {
    if headers == [] then None
    else if ToLower(headers[0].name, table) == lowered then Some(headers[0].values)
    else FindLower(headers[1..], lowered, table)
  }

  /** The values `incoming` carries under `name`, in the given case or else in any. */
  function FindHeader(incoming: seq<Header>, name: string, table: map<char, string>): Option<seq<string>> {
    var found := FindName(incoming, name);
    if found.Some? then found else FindLower(incoming, ToLower(name, table), table)
  }

  predicate HeadersMatch(incoming: HttpRequest, recorded: HttpRequest, table: map<char, string>) {
    forall h | h in recorded.headers :: FindHeader(incoming.headers, h.name, table) == Some(h.values)
  }

  // --- What header matching means for names in ASCII ---

  ghost predicate AsciiNames(headers: seq<Header>) {
    forall h | h in headers :: AsciiText(h.name)
  }

  /** No two names are equal up to ASCII case. */
  ghost predicate NamesApart(headers: seq<Header>) {
    forall i, j :: 0 <= i < j < |headers| ==> !EqIgnoreAsciiCase(headers[i].name, headers[j].name)
  }

  /** Somewhere a header of this name, in any letter case, has these values. */
  ghost predicate Carries(headers: seq<Header>, name: string, values: seq<string>) {
    exists g :: g in headers && EqIgnoreAsciiCase(g.name, name) && g.values == values
  }

  lemma {:induction false} FindNameIs(headers: seq<Header>, name: string)
    ensures FindName(headers, name).Some? ==> Header(name, FindName(headers, name).value) in headers
    ensures FindName(headers, name).None? ==> forall h | h in headers :: h.name != name
  {
    if headers != [] {
      FindNameIs(headers[1..], name);
    }
  }

  lemma {:induction false} FindLowerIs(headers: seq<Header>, lowered: string, table: map<char, string>)
    ensures var found := FindLower(headers, lowered, table);
            && (found.Some? ==> exists g :: g in headers && ToLower(g.name, table) == lowered && found == Some(g.values))
            && (found.None? ==> forall h | h in headers :: ToLower(h.name, table) != lowered)
  {
    if headers != [] {
      if ToLower(headers[0].name, table) == lowered {
        assert headers[0] in headers;
      } else {
        FindLowerIs(headers[1..], lowered, table);
      }
    }
  }

  lemma ApartNames(headers: seq<Header>, g: Header, h: Header)
    requires NamesApart(headers) && g in headers && h in headers && EqIgnoreAsciiCase(g.name, h.name)
    ensures g == h
  {
    var i :| 0 <= i < |headers| && headers[i] == g;
    var j :| 0 <= j < |headers| && headers[j] == h;
    assert EqIgnoreAsciiCase(h.name, g.name);
  }

  /** Looking a header up finds the one whose name is the same up to letter case. */
  lemma FindHeaderIff(headers: seq<Header>, name: string, values: seq<string>, table: map<char, string>)
    requires AsciiNames(headers) && AsciiText(name) && NamesApart(headers)
    ensures FindHeader(headers, name, table) == Some(values) <==> Carries(headers, name, values)
  {
    FindNameIs(headers, name);
    FindLowerIs(headers, ToLower(name, table), table);
    var found := FindHeader(headers, name, table);
    if found.Some? {
      var g :| g in headers && ToLower(g.name, table) == ToLower(name, table) && found == Some(g.values);
      AsciiLowersAlike(g.name, name, table);
      forall h | h in headers && EqIgnoreAsciiCase(h.name, name) ensures h == g {
        SameCase(h.name, g.name, name);
        ApartNames(headers, h, g);
      }
    } else {
      forall h | h in headers ensures !EqIgnoreAsciiCase(h.name, name) {
        if EqIgnoreAsciiCase(h.name, name) {
          EqualLowersAlike(h.name, name, table);
        }
      }
    }
  }

  lemma SameCase(a: string, b: string, c: string)
    requires EqIgnoreAsciiCase(a, c) && EqIgnoreAsciiCase(b, c)
    ensures EqIgnoreAsciiCase(a, b)
  {}

  /** The same headers under names that may differ in letter case. */
  ghost predicate Recased(a: seq<Header>, b: seq<Header>) {
    |a| == |b| && forall i :: 0 <= i < |a| ==> EqIgnoreAsciiCase(a[i].name, b[i].name) && a[i].values == b[i].values
  }

  lemma RecasedBack(a: seq<Header>, b: seq<Header>)
    requires Recased(a, b)
    ensures Recased(b, a)
  {
    forall i | 0 <= i < |a| ensures EqIgnoreAsciiCase(b[i].name, a[i].name) {
      SameCase(b[i].name, a[i].name, b[i].name);
    }
  }

  lemma RecasedStillCarries(a: seq<Header>, b: seq<Header>, name: string, values: seq<string>)
    requires Recased(a, b) && Carries(a, name, values)
    ensures Carries(b, name, values)
  {
    var g :| g in a && EqIgnoreAsciiCase(g.name, name) && g.values == values;
    var i :| 0 <= i < |a| && a[i] == g;
    SameCase(b[i].name, name, a[i].name);
    hide EqIgnoreAsciiCase;
    assert b[i] in b;
  }

  lemma RecasedCarries(a: seq<Header>, b: seq<Header>, name: string, values: seq<string>)
    requires Recased(a, b)
    ensures Carries(a, name, values) <==> Carries(b, name, values)
  {
    RecasedBack(a, b);
    hide *;
    if Carries(a, name, values) { RecasedStillCarries(a, b, name, values); }
    if Carries(b, name, values) { RecasedStillCarries(b, a, name, values); }
  }

  lemma RecasedNames(a: seq<Header>, b: seq<Header>)
    requires Recased(a, b) && AsciiNames(a) && NamesApart(a)
    ensures AsciiNames(b) && NamesApart(b)
  {
    forall h | h in b ensures AsciiText(h.name) {
      var i :| 0 <= i < |b| && b[i] == h;
      assert a[i] in a;
      forall c | c in h.name ensures c as int < 128 {
        var k :| 0 <= k < |h.name| && h.name[k] == c;
        assert a[i].name[k] in a[i].name && AsciiLower(a[i].name[k]) == AsciiLower(c);
      }
    }
    forall i, j | 0 <= i < j < |b| ensures !EqIgnoreAsciiCase(b[i].name, b[j].name) {
      SameCases(a[i].name, a[j].name, b[i].name, b[j].name);
    }
  }

  lemma SameCases(a: string, b: string, a': string, b': string)
    requires EqIgnoreAsciiCase(a, a') && EqIgnoreAsciiCase(b, b')
    ensures EqIgnoreAsciiCase(a, b) <==> EqIgnoreAsciiCase(a', b')
  {}

  /** Every recorded header is carried by the request, in whatever letter case. */
  ghost predicate CarriesAll(incoming: seq<Header>, recorded: seq<Header>) {
    forall h | h in recorded :: Carries(incoming, h.name, h.values)
  }

  lemma HeadersMatchIff(incoming: HttpRequest, recorded: HttpRequest, table: map<char, string>)
    requires AsciiNames(incoming.headers) && AsciiNames(recorded.headers) && NamesApart(incoming.headers)
    ensures HeadersMatch(incoming, recorded, table) <==> CarriesAll(incoming.headers, recorded.headers)
  {
    forall h | h in recorded.headers
      ensures FindHeader(incoming.headers, h.name, table) == Some(h.values) <==> Carries(incoming.headers, h.name, h.values)
    {
      FindHeaderIff(incoming.headers, h.name, h.values, table);
    }
  }

  /** For names in ASCII, of which the request has each once: every recorded header is carried, in whatever letter case. */
  method MatchHeaders(incoming: HttpRequest, recorded: HttpRequest, table: map<char, string>) returns (matched: bool)
    ensures matched == HeadersMatch(incoming, recorded, table)
    ensures AsciiNames(incoming.headers) && AsciiNames(recorded.headers) && NamesApart(incoming.headers) ==>
              (matched <==> CarriesAll(incoming.headers, recorded.headers))
  {
    if AsciiNames(incoming.headers) && AsciiNames(recorded.headers) && NamesApart(incoming.headers) {
      HeadersMatchIff(incoming, recorded, table);
    }
    hide CarriesAll;
    hide AsciiNames;
    hide NamesApart;
    for i := 0 to |recorded.headers|
      invariant forall k :: 0 <= k < i ==>
        FindHeader(incoming.headers, recorded.headers[k].name, table) == Some(recorded.headers[k].values)
    {
      var header := recorded.headers[i];
      match FindName(incoming.headers, header.name) {
        case Some(values) =>
          if values != header.values {
            assert header in recorded.headers;
            return false;
          }
        case None =>
          var found := FindLower(incoming.headers, ToLower(header.name, table), table);
          if found != Some(header.values) {
            assert header in recorded.headers;
            return false;
          }
      }
    }
    return true;
  }

  predicate BodyMatch(incoming: BodyContent, recorded: BodyContent) {
    if incoming.JsonBody? && recorded.JsonBody? then Equal(incoming.value, recorded.value, false)
    else incoming == recorded
  }

  /** Bodies of one kind with the same content, where float zeros count alike: what the canonical text says of JSON. */
  predicate SameContent(a: BodyContent, b: BodyContent) {
    match (a, b)
    case (JsonBody(v), JsonBody(w)) => Text(WithZeros(v, "0.0")) == Text(WithZeros(w, "0.0"))
    case (TextBody(s), TextBody(t)) => s == t
    case (BinaryBody(x), BinaryBody(y)) => x == y
    case (NoBody, NoBody) => true
    case _ => false
  }

  lemma BodyMatchIff(a: BodyContent, b: BodyContent)
    ensures BodyMatch(a, b) <==> SameContent(a, b)
  {
    if a.JsonBody? && b.JsonBody? {
      MatcherEqualByText(a.value, b.value);
    }
  }

  lemma BodyMatchesItself(body: BodyContent)
    ensures BodyMatch(body, body)
  {
    if body.JsonBody? {
      EqualReflexive(body.value, false);
    }
  }

  /** The path of a member, or of an item, below `current`. */
  function MemberPath(current: string, key: string): string {
    if current == "" then key else current + "." + key
  }

  function ItemPath(current: string, index: nat): string {
    current + "[" + Decimal.Decimal(index) + "]"
  }

  function FilterPaths(v: Json, paths: seq<string>, current: string): Json
    decreases v, 1
  {
    if current in paths then Null
    else
      match v
      case Object(members) => Object(FilterMembers(members, paths, current))
      case Array(items) => Array(FilterItems(items, paths, current))
      case _ => v
  }

  function FilterItems(items: seq<Json>, paths: seq<string>, current: string): (r: seq<Json>)
    ensures |r| == |items|
    ensures forall i :: 0 <= i < |r| ==> r[i] == FilterPaths(items[i], paths, ItemPath(current, i))
    decreases items, 0
  {
    seq(|items|, i requires 0 <= i < |items| => FilterPaths(items[i], paths, ItemPath(current, i)))
  }

  function FilterMembers(members: seq<Member>, paths: seq<string>, current: string): seq<Member>
    decreases members, 0
  {
    if members == [] then []
    else
      var path := MemberPath(current, members[0].key);
      var rest := FilterMembers(members[1..], paths, current);
      if path in paths then rest
      else [Member(members[0].key, FilterPaths(members[0].value, paths, path))] + rest
  }

  lemma {:induction false} FilterMembersKeys(members: seq<Member>, paths: seq<string>, current: string)
    requires Distinct(Keys(members))
    ensures Distinct(Keys(FilterMembers(members, paths, current)))
    ensures forall k | k in Keys(FilterMembers(members, paths, current)) :: k in Keys(members)
  {
    if members != [] {
      var rest := FilterMembers(members[1..], paths, current);
      assert Keys(members)[1..] == Keys(members[1..]);
      assert members[0].key !in Keys(members[1..]);
      FilterMembersKeys(members[1..], paths, current);
      KeysCons(Member(members[0].key, FilterPaths(members[0].value, paths, MemberPath(current, members[0].key))), rest);
      forall k | k in Keys(FilterMembers(members, paths, current)) ensures k in Keys(members) {
        assert k == Keys(members)[0] || k in Keys(members)[1..];
      }
    }
  }

  /** Dropping paths keeps a JSON value well formed. */
  lemma {:induction false} FilterValid(v: Json, paths: seq<string>, current: string)
    requires Valid(v)
    ensures Valid(FilterPaths(v, paths, current))
    decreases v, 1
  {
    if current !in paths {
      match v
      case Object(members) =>
        FilterMembersKeys(members, paths, current);
        FilterMembersValid(members, paths, current);
      case Array(items) =>
        forall x | x in FilterItems(items, paths, current) ensures Valid(x) {
          var i :| 0 <= i < |items| && FilterItems(items, paths, current)[i] == x;
          FilterValid(items[i], paths, ItemPath(current, i));
        }
      case _ =>
    }
  }

  lemma {:induction false} FilterMembersValid(members: seq<Member>, paths: seq<string>, current: string)
    requires forall m | m in members :: Valid(m.value)
    ensures forall m | m in FilterMembers(members, paths, current) :: Valid(m.value)
    decreases members, 0
  {
    if members != [] {
      FilterValid(members[0].value, paths, MemberPath(current, members[0].key));
      FilterMembersValid(members[1..], paths, current);
    }
  }

  /** With nothing to ignore the filter is the identity. */
  lemma {:induction false} FilterNothing(v: Json, current: string)
    ensures FilterPaths(v, [], current) == v
    decreases v, 1
  {
    match v
    case Object(members) => FilterNoMembers(members, current);
    case Array(items) =>
      forall i | 0 <= i < |items| ensures FilterItems(items, [], current)[i] == items[i] {
        FilterNothing(items[i], ItemPath(current, i));
      }
      assert FilterItems(items, [], current) == items;
    case _ =>
  }

  lemma {:induction false} FilterNoMembers(members: seq<Member>, current: string)
    ensures FilterMembers(members, [], current) == members
    decreases members, 0
  {
    if members != [] {
      FilterNothing(members[0].value, MemberPath(current, members[0].key));
      FilterNoMembers(members[1..], current);
      assert members == [members[0]] + members[1..];
    }
  }

  method FilterJsonPaths(value: Json, ignorePaths: seq<string>, current: string) returns (filtered: Json)
    ensures filtered == FilterPaths(value, ignorePaths, current)
    decreases value
  {
    if current in ignorePaths {
      return Null;
    }
    match value {
      case Object(members) =>
        var kept: seq<Member> := [];
        for i := 0 to |members|
          invariant kept + FilterMembers(members[i..], ignorePaths, current) ==
                    FilterMembers(members, ignorePaths, current)
        {
          assert members[i..][1..] == members[i + 1..];
          var path := MemberPath(current, members[i].key);
          if path !in ignorePaths {
            var inner := FilterJsonPaths(members[i].value, ignorePaths, path);
            assert kept + ([Member(members[i].key, inner)] + FilterMembers(members[i + 1..], ignorePaths, current)) ==
                   kept + [Member(members[i].key, inner)] + FilterMembers(members[i + 1..], ignorePaths, current);
            kept := kept + [Member(members[i].key, inner)];
          }
        }
        assert kept + [] == kept;
        return Object(kept);
      case Array(items) =>
        var kept: seq<Json> := [];
        for i := 0 to |items|
          invariant kept == FilterItems(items, ignorePaths, current)[..i]
        {
          var inner := FilterJsonPaths(items[i], ignorePaths, ItemPath(current, i));
          kept := kept + [inner];
        }
        assert kept == FilterItems(items, ignorePaths, current);
        return Array(kept);
      case _ =>
        return value;
    }
  }

  predicate JsonBodyMatch(incoming: BodyContent, recorded: BodyContent, ignore: seq<string>) {
    if incoming.JsonBody? && recorded.JsonBody? then
      Equal(FilterPaths(incoming.value, ignore, ""), FilterPaths(recorded.value, ignore, ""), false)
    else BodyMatch(incoming, recorded)
  }

  predicate FieldMatches(incoming: HttpRequest, recorded: HttpRequest, m: Matcher, config: MatchConfig) {
    match m
    case ByMethod => EqIgnoreAsciiCase(incoming.method_, recorded.method_)
    case ByUri => incoming.uri == recorded.uri
    case ByHeaders => HeadersMatch(incoming, recorded, config.lower)
    case ByBody => BodyMatch(incoming.body, recorded.body)
    case ByJsonBody => JsonBodyMatch(incoming.body, recorded.body, config.ignoreJsonPaths)
    case Unknown(_) => false
  }

  predicate Matches(incoming: HttpRequest, recorded: HttpRequest, config: MatchConfig) {
    forall m | m in config.matchOn :: FieldMatches(incoming, recorded, m, config)
  }

  method MatchesAll(incoming: HttpRequest, recorded: HttpRequest, config: MatchConfig) returns (matched: bool)
    ensures matched == Matches(incoming, recorded, config)
  {
    for i := 0 to |config.matchOn|
      invariant forall k :: 0 <= k < i ==> FieldMatches(incoming, recorded, config.matchOn[k], config)
    {
      var field := config.matchOn[i];
      match field {
        case ByHeaders => matched := MatchHeaders(incoming, recorded, config.lower);
        case _ => matched := FieldMatches(incoming, recorded, field, config);
      }
      if !matched {
        assert field in config.matchOn;
        return false;
      }
    }
    return true;
  }

  /** In what letter case a request spells its header names makes no difference. */
  lemma RecasedMatches(a: HttpRequest, b: HttpRequest, recorded: HttpRequest, config: MatchConfig)
    requires b == a.(headers := b.headers) && Recased(a.headers, b.headers)
    requires AsciiNames(a.headers) && NamesApart(a.headers) && AsciiNames(recorded.headers)
    ensures Matches(a, recorded, config) <==> Matches(b, recorded, config)
  {
    RecasedNames(a.headers, b.headers);
    HeadersMatchIff(a, recorded, config.lower);
    HeadersMatchIff(b, recorded, config.lower);
    forall h | h in recorded.headers
      ensures Carries(a.headers, h.name, h.values) <==> Carries(b.headers, h.name, h.values)
    {
      RecasedCarries(a.headers, b.headers, h.name, h.values);
    }
    assert forall m | m in config.matchOn :: FieldMatches(a, recorded, m, config) <==> FieldMatches(b, recorded, m, config);
  }

  // --- The sort key ---

  function Hex(bytes: seq<nat>): string {
    if bytes == [] then "" else [HexDigit(bytes[0] / 16 % 16), HexDigit(bytes[0] % 16)] + Hex(bytes[1..])
  }

  function BodyText(content: BodyContent, ignore: seq<string>): string {
    match content
    case JsonBody(value) => Text(FilterPaths(value, ignore, ""))
    case TextBody(text) => text
    case BinaryBody(bytes) => Hex(bytes)
    case NoBody => ""
  }

  method CanonicalBody(content: BodyContent, ignore: seq<string>) returns (text: string)
    ensures text == BodyText(content, ignore)
  {
    match content {
      case JsonBody(value) =>
        var filtered := FilterJsonPaths(value, ignore, "");
        FilterValid(value, ignore, "");
        text := WriteCanonical(filtered, "");
      case _ =>
        text := BodyText(content, ignore);
    }
  }

  /** The strings one matcher contributes to the key. */
  function KeyPart(request: HttpRequest, m: Matcher, config: MatchConfig): seq<string> {
    match m
    case ByMethod => [ToUpper(request.method_, config.upper)]
    case ByUri => [request.uri]
    case ByBody => [BodyText(request.body, [])]
    case ByJsonBody => [BodyText(request.body, config.ignoreJsonPaths)]
    case _ => []
  }

  function KeyOf(request: HttpRequest, matchOn: seq<Matcher>, config: MatchConfig): seq<string> {
    if matchOn == [] then []
    else KeyPart(request, matchOn[0], config) + KeyOf(request, matchOn[1..], config)
  }

  function Key(request: HttpRequest, config: MatchConfig): seq<string> {
    KeyOf(request, config.matchOn, config)
  }

  method SortKey(request: HttpRequest, config: MatchConfig) returns (key: seq<string>)
    ensures key == Key(request, config)
  {
    key := [];
    for i := 0 to |config.matchOn|
      invariant key + KeyOf(request, config.matchOn[i..], config) == Key(request, config)
    {
      assert config.matchOn[i..][1..] == config.matchOn[i + 1..];
      var part: seq<string> := [];
      match config.matchOn[i] {
        case ByMethod => part := [ToUpper(request.method_, config.upper)];
        case ByUri => part := [request.uri];
        case ByBody =>
          var text := CanonicalBody(request.body, []);
          part := [text];
        case ByJsonBody =>
          var text := CanonicalBody(request.body, config.ignoreJsonPaths);
          part := [text];
        case _ =>
      }
      assert part == KeyPart(request, config.matchOn[i], config);
      Concat(key, part, KeyOf(request, config.matchOn[i + 1..], config));
      key := key + part;
    }
    assert key + [] == key;
  }

  // --- Requests that can match the same probe share their key ---

  /** No negative float zero in the part of the JSON body a matcher compares. */
  predicate ZeroSafe(request: HttpRequest, config: MatchConfig) {
    request.body.JsonBody? ==>
      && (ByBody in config.matchOn ==> !Mentions(request.body.value, "-0.0"))
      && (ByJsonBody in config.matchOn ==>
            !Mentions(FilterPaths(request.body.value, config.ignoreJsonPaths, ""), "-0.0"))
  }

  lemma BodiesShareText(probe: BodyContent, a: BodyContent, b: BodyContent, ignore: seq<string>)
    requires JsonBodyMatch(probe, a, ignore) && JsonBodyMatch(probe, b, ignore)
    requires a.JsonBody? ==> !Mentions(FilterPaths(a.value, ignore, ""), "-0.0")
    requires b.JsonBody? ==> !Mentions(FilterPaths(b.value, ignore, ""), "-0.0")
    ensures BodyText(a, ignore) == BodyText(b, ignore)
  {
    if probe.JsonBody? {
      FilterValid(probe.value, ignore, "");
      FilterValid(a.value, ignore, "");
      FilterValid(b.value, ignore, "");
      EqualValuesShareText(
        FilterPaths(probe.value, ignore, ""), FilterPaths(a.value, ignore, ""), FilterPaths(b.value, ignore, ""));
    }
  }

  lemma PlainBodyMatch(incoming: BodyContent, recorded: BodyContent)
    ensures BodyMatch(incoming, recorded) <==> JsonBodyMatch(incoming, recorded, [])
  {
    if incoming.JsonBody? { FilterNothing(incoming.value, ""); }
    if recorded.JsonBody? { FilterNothing(recorded.value, ""); }
  }

  lemma MatchersShareKeyPart(probe: HttpRequest, a: HttpRequest, b: HttpRequest, m: Matcher, config: MatchConfig)
    requires m in config.matchOn
    requires FieldMatches(probe, a, m, config) && FieldMatches(probe, b, m, config)
    requires ZeroSafe(a, config) && ZeroSafe(b, config)
    ensures KeyPart(a, m, config) == KeyPart(b, m, config)
  {
    match m
    case ByMethod =>
      SameUpper(probe.method_, a.method_, config.upper);
      SameUpper(probe.method_, b.method_, config.upper);
    case ByBody =>
      PlainBodyMatch(probe.body, a.body);
      PlainBodyMatch(probe.body, b.body);
      if a.body.JsonBody? { FilterNothing(a.body.value, ""); }
      if b.body.JsonBody? { FilterNothing(b.body.value, ""); }
      BodiesShareText(probe.body, a.body, b.body, []);
    case ByJsonBody => BodiesShareText(probe.body, a.body, b.body, config.ignoreJsonPaths);
    case _ =>
  }

  /** Any two recordings one request can match have the same sort key, whatever the `headers` matcher let through. */
  lemma MatchesShareKey(probe: HttpRequest, a: HttpRequest, b: HttpRequest, config: MatchConfig)
    requires Matches(probe, a, config) && Matches(probe, b, config)
    requires ZeroSafe(a, config) && ZeroSafe(b, config)
    ensures Key(a, config) == Key(b, config)
  {
    KeyPartsAgree(probe, a, b, config.matchOn, config);
  }

  lemma {:induction false} KeyPartsAgree(
      probe: HttpRequest, a: HttpRequest, b: HttpRequest, matchOn: seq<Matcher>, config: MatchConfig)
    requires Matches(probe, a, config) && Matches(probe, b, config)
    requires ZeroSafe(a, config) && ZeroSafe(b, config)
    requires forall m | m in matchOn :: m in config.matchOn
    ensures KeyOf(a, matchOn, config) == KeyOf(b, matchOn, config)
  {
    if matchOn != [] {
      assert matchOn[0] in config.matchOn;
      MatchersShareKeyPart(probe, a, b, matchOn[0], config);
      KeyPartsAgree(probe, a, b, matchOn[1..], config);
    }
  }

  // --- A recorded request matches itself ---

  lemma {:induction false} FindOwnName(headers: seq<Header>, h: Header)
    requires Distinct(Names(headers)) && h in headers
    ensures FindName(headers, h.name) == Some(h.values)
  {
    if headers[0].name == h.name {
      var i :| 0 <= i < |headers| && headers[i] == h;
      assert Names(headers)[0] == Names(headers)[i];
    } else {
      assert Names(headers)[1..] == Names(headers[1..]);
      FindOwnName(headers[1..], h);
    }
  }

  lemma FieldMatchesItself(request: HttpRequest, m: Matcher, config: MatchConfig)
    ensures FieldMatches(request, request, m, config) <==> !m.Unknown?
  {
    forall h | h in request.headers
      ensures FindHeader(request.headers, h.name, config.lower) == Some(h.values)
    {
      FindOwnName(request.headers, h);
    }
    if request.body.JsonBody? {
      EqualReflexive(request.body.value, false);
      FilterValid(request.body.value, config.ignoreJsonPaths, "");
      EqualReflexive(FilterPaths(request.body.value, config.ignoreJsonPaths, ""), false);
    }
  }

  lemma MatchesItself(request: HttpRequest, config: MatchConfig)
    requires config.Valid()
    ensures Matches(request, request, config)
  {
    forall m | m in config.matchOn ensures FieldMatches(request, request, m, config) {
      FieldMatchesItself(request, m, config);
    }
  }
}
