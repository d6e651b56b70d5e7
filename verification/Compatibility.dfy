/** When one request can match two recordings, read off the recordings alone. */
module Compatibility {
  import opened CanonicalText
  import opened Matching
  import opened Options
  import opened Protocol
  import opened Sorting

  /** Headers of the same name carry the same values. */
  predicate HeadersAgree(a: seq<Header>, b: seq<Header>) {
    forall h | h in a :: forall g | g in b :: h.name == g.name ==> h.values == g.values
  }

  predicate CompatibleOn(a: HttpRequest, b: HttpRequest, m: Matcher, config: MatchConfig) {
    if m.ByHeaders? then HeadersAgree(a.headers, b.headers) else FieldMatches(a, b, m, config)
  }

  /** The two recorded requests match each other field by field, and their headers do not contradict each other. */
  predicate Compatible(a: HttpRequest, b: HttpRequest, config: MatchConfig) {
    forall m | m in config.matchOn :: CompatibleOn(a, b, m, config)
  }

  // --- A request that matches both ---

  function Missing(a: seq<Header>, b: seq<Header>): seq<Header> {
    Filter(b, (h: Header) => h.name !in Names(a))
  }

  lemma NamedBy(headers: seq<Header>, name: string) returns (h: Header)
    requires name in Names(headers)
    ensures h in headers && h.name == name
  {
    var i :| 0 <= i < |headers| && Names(headers)[i] == name;
    h := headers[i];
  }

  lemma DistinctNames(a: seq<Header>, b: seq<Header>)
    requires Distinct(Names(a)) && Distinct(Names(b))
    requires forall h | h in b :: h.name !in Names(a)
    ensures Distinct(Names(a + b))
  {
    var names := Names(a + b);
    forall i, j | 0 <= i < j < |names| ensures names[i] != names[j] {
      if j < |a| {
        assert names[i] == Names(a)[i] && names[j] == Names(a)[j];
      } else if i >= |a| {
        assert names[i] == Names(b)[i - |a|] && names[j] == Names(b)[j - |a|];
      } else {
        assert names[i] == Names(a)[i] && b[j - |a|] in b && names[j] == b[j - |a|].name;
      }
    }
  }

  lemma {:induction false} FilterKeepsNamesDistinct(headers: seq<Header>, p: Header -> bool)
    requires Distinct(Names(headers))
    ensures Distinct(Names(Filter(headers, p)))
  {
    if headers != [] {
      var head, tail := headers[0], headers[1..];
      assert Names(headers)[1..] == Names(tail);
      FilterKeepsNamesDistinct(tail, p);
      var rest := Filter(tail, p);
      forall h | h in tail ensures h.name != head.name {
        var i :| 0 <= i < |tail| && tail[i] == h;
        assert Names(headers)[i + 1] == h.name;
      }
      assert forall k :: 0 <= k < |rest| ==> rest[k] in tail;
      assert Names([head] + rest) == [head.name] + Names(rest);
    }
  }

  /** The headers of `a`, and those of `b` under names `a` lacks. */
  function Merged(a: Headers, b: Headers): Headers {
    FilterKeepsNamesDistinct(b, (h: Header) => h.name !in Names(a));
    DistinctNames(a, Missing(a, b));
    a + Missing(a, b)
  }

  lemma FindInMerged(a: Headers, b: Headers, h: Header, table: map<char, string>)
    requires h in a || (h in b && HeadersAgree(a, b))
    ensures FindHeader(Merged(a, b), h.name, table) == Some(h.values)
  {
    if h in a {
      FindOwnName(Merged(a, b), h);
    } else if h.name in Names(a) {
      var g := NamedBy(a, h.name);
      FindOwnName(Merged(a, b), g);
    } else {
      FindOwnName(Merged(a, b), h);
    }
  }

  function Witness(a: HttpRequest, b: HttpRequest): HttpRequest {
    a.(headers := Merged(a.headers, b.headers))
  }

  lemma WitnessMatches(a: HttpRequest, b: HttpRequest, config: MatchConfig)
    requires Compatible(a, b, config)
    ensures Matches(Witness(a, b), a, config) && Matches(Witness(a, b), b, config)
  {
    var p := Witness(a, b);
    forall m | m in config.matchOn ensures FieldMatches(p, a, m, config) && FieldMatches(p, b, m, config) {
      assert CompatibleOn(a, b, m, config);
      FieldMatchesItself(a, m, config);
      if m.ByHeaders? {
        forall h | h in a.headers ensures FindHeader(p.headers, h.name, config.lower) == Some(h.values) {
          FindInMerged(a.headers, b.headers, h, config.lower);
        }
        forall h | h in b.headers ensures FindHeader(p.headers, h.name, config.lower) == Some(h.values) {
          FindInMerged(a.headers, b.headers, h, config.lower);
        }
      }
    }
  }

  // --- Two recordings one request matches ---

  lemma BodiesMatch(p: BodyContent, a: BodyContent, b: BodyContent, ignore: seq<string>)
    requires JsonBodyMatch(p, a, ignore) && JsonBodyMatch(p, b, ignore)
    ensures JsonBodyMatch(a, b, ignore)
  {
    if p.JsonBody? {
      FilterValid(p.value, ignore, "");
      FilterValid(a.value, ignore, "");
      FilterValid(b.value, ignore, "");
      var x, y, z := FilterPaths(a.value, ignore, ""), FilterPaths(p.value, ignore, ""), FilterPaths(b.value, ignore, "");
      MatcherEqualIsEquivalence(y, x, y);
      MatcherEqualIsEquivalence(x, y, z);
    }
  }

  lemma MatchedAreCompatible(p: HttpRequest, a: HttpRequest, b: HttpRequest, config: MatchConfig)
    requires Matches(p, a, config) && Matches(p, b, config)
    ensures Compatible(a, b, config)
  {
    forall m | m in config.matchOn ensures CompatibleOn(a, b, m, config) {
      assert FieldMatches(p, a, m, config) && FieldMatches(p, b, m, config);
      match m
      case ByMethod =>
        forall i | 0 <= i < |a.method_| ensures AsciiLower(a.method_[i]) == AsciiLower(b.method_[i]) {
          assert AsciiLower(p.method_[i]) == AsciiLower(a.method_[i]);
          assert AsciiLower(p.method_[i]) == AsciiLower(b.method_[i]);
        }
      case ByBody =>
        PlainBodyMatch(p.body, a.body);
        PlainBodyMatch(p.body, b.body);
        BodiesMatch(p.body, a.body, b.body, []);
        PlainBodyMatch(a.body, b.body);
      case ByJsonBody => BodiesMatch(p.body, a.body, b.body, config.ignoreJsonPaths);
      case _ =>
    }
  }

  /** Some request matches both recordings exactly when they are compatible. */
  lemma CompatibleIff(a: HttpRequest, b: HttpRequest, config: MatchConfig)
    ensures Compatible(a, b, config) <==> exists p :: Matches(p, a, config) && Matches(p, b, config)
  {
    if Compatible(a, b, config) {
      WitnessMatches(a, b, config);
    }
    if p :| Matches(p, a, config) && Matches(p, b, config) {
      MatchedAreCompatible(p, a, b, config);
    }
  }
}
