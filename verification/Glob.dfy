/** Two matchers for `*`: the backtracking `glob` of `compare.rs` and the greedy `glob_match` of `headers.rs`. */
module GlobMatching {
  import opened Options

  /** Backtracking over `*` (any run) and, where `wild` allows it, `?` (any one character). `glob` is the wild form. */
  predicate Glob(pattern: string, text: string, wild: bool)
    decreases |pattern|, 0
  {
    if pattern == "" then text == ""
    else if pattern[0] == '*' then AnySuffix(pattern[1..], text, wild)
    else text != "" && ((wild && pattern[0] == '?') || pattern[0] == text[0]) && Glob(pattern[1..], text[1..], wild)
  }

  predicate AnySuffix(pattern: string, text: string, wild: bool)
    decreases |pattern|, |text| + 1
  {
    Glob(pattern, text, wild) || (text != "" && AnySuffix(pattern, text[1..], wild))
  }

  lemma {:induction false} SuffixMatches(pattern: string, text: string, wild: bool) returns (k: nat)
    requires AnySuffix(pattern, text, wild)
    ensures k <= |text| && Glob(pattern, text[k..], wild)
    decreases |text|
  {
    if Glob(pattern, text, wild) {
      assert text[0..] == text;
      return 0;
    }
    var j := SuffixMatches(pattern, text[1..], wild);
    assert text[1..][j..] == text[j + 1..];
    return j + 1;
  }

  lemma {:induction false} SuffixSuffices(pattern: string, text: string, wild: bool, k: nat)
    requires k <= |text| && Glob(pattern, text[k..], wild)
    ensures AnySuffix(pattern, text, wild)
    decreases |text|
  {
    if k == 0 {
      assert text[0..] == text;
    } else {
      assert text[1..][k - 1..] == text[k..];
      SuffixSuffices(pattern, text[1..], wild, k - 1);
    }
  }

  // --- What a pattern means, without backtracking ---

  /** What one character of a pattern may stand for. */
  predicate StandsFor(c: char, piece: string, wild: bool) {
    c == '*' || (if wild && c == '?' then |piece| == 1 else piece == [c])
  }

  ghost predicate Fills(pattern: string, pieces: seq<string>, wild: bool) {
    |pieces| == |pattern| && forall i :: 0 <= i < |pattern| ==> StandsFor(pattern[i], pieces[i], wild)
  }

  function Glued(pieces: seq<string>): string {
    if pieces == [] then "" else pieces[0] + Glued(pieces[1..])
  }

  lemma {:induction false} PiecesOf(pattern: string, text: string, wild: bool) returns (pieces: seq<string>)
    requires Glob(pattern, text, wild)
    ensures Fills(pattern, pieces, wild) && Glued(pieces) == text
    decreases |pattern|
  {
    if pattern == "" {
      return [];
    }
    var k := 1;
    if pattern[0] == '*' {
      k := SuffixMatches(pattern[1..], text, wild);
    }
    var rest := PiecesOf(pattern[1..], text[k..], wild);
    pieces := [text[..k]] + rest;
    assert pieces[1..] == rest && text == text[..k] + text[k..];
  }

  lemma {:induction false} FilledMatch(pattern: string, pieces: seq<string>, wild: bool)
    requires Fills(pattern, pieces, wild)
    ensures Glob(pattern, Glued(pieces), wild)
    decreases |pattern|
  {
    if pattern != "" {
      assert StandsFor(pattern[0], pieces[0], wild);
      forall i | 0 <= i < |pattern[1..]| ensures StandsFor(pattern[1..][i], pieces[1..][i], wild) {
        assert StandsFor(pattern[i + 1], pieces[i + 1], wild);
      }
      FilledMatch(pattern[1..], pieces[1..], wild);
      var text := Glued(pieces);
      assert text[|pieces[0]|..] == Glued(pieces[1..]);
      if pattern[0] == '*' {
        SuffixSuffices(pattern[1..], text, wild, |pieces[0]|);
      }
    }
  }

  /** A pattern matches a text exactly when the text falls into one piece for each of its characters: anything for a star,
      one character for a question mark where it is wild, and itself otherwise. */
  lemma GlobIff(pattern: string, text: string, wild: bool)
    ensures Glob(pattern, text, wild) <==> exists pieces :: Fills(pattern, pieces, wild) && Glued(pieces) == text
  {
    if Glob(pattern, text, wild) {
      var pieces := PiecesOf(pattern, text, wild);
    }
    if pieces :| Fills(pattern, pieces, wild) && Glued(pieces) == text {
      FilledMatch(pattern, pieces, wild);
    }
  }

  lemma {:induction false} AnythingEnds(text: string, wild: bool)
    ensures Glob("*", text, wild)
  {
    assert "*"[1..] == "" && text[|text|..] == "";
    SuffixSuffices("", text, wild, |text|);
  }

  /** `p*` matches exactly the texts that start with `p`. */
  lemma {:induction false} PrefixPattern(p: string, text: string, wild: bool)
    requires '*' !in p && '?' !in p
    ensures Glob(p + "*", text, wild) <==> p <= text
  {
    if p == "" {
      AnythingEnds(text, wild);
      assert p + "*" == "*";
    } else if text != "" {
      assert (p + "*")[1..] == p[1..] + "*" && (p + "*")[0] == p[0];
      PrefixPattern(p[1..], text[1..], wild);
      assert p == [p[0]] + p[1..] && text == [text[0]] + text[1..];
      assert p <= text <==> p[0] == text[0] && p[1..] <= text[1..];
    }
  }

  // --- Parts between stars ---

  function Split(pattern: string): (r: seq<string>)
    ensures r != [] && forall part | part in r :: '*' !in part
  {
    if pattern == "" then [""]
    else
      var rest := Split(pattern[1..]);
      assert rest[0] in rest;
      if pattern[0] == '*' then [""] + rest else [[pattern[0]] + rest[0]] + rest[1..]
  }

  function Join(parts: seq<string>): string
    requires parts != []
  {
    if |parts| == 1 then parts[0] else parts[0] + ("*" + Join(parts[1..]))
  }

  lemma {:induction false} JoinSplit(pattern: string)
    ensures Join(Split(pattern)) == pattern
  {
    if pattern != "" {
      var rest := Split(pattern[1..]);
      JoinSplit(pattern[1..]);
      if pattern[0] == '*' {
        assert ([""] + rest)[1..] == rest;
      } else {
        assert ([[pattern[0]] + rest[0]] + rest[1..])[1..] == rest[1..];
        assert Join(Split(pattern)) == [pattern[0]] + Join(rest);
      }
    }
  }

  /** The first place `part` occurs in `text`. */
  function Find(text: string, part: string): (r: Option<nat>)
    ensures r.Some? ==> r.value + |part| <= |text| && part == text[r.value..][..|part|]
    ensures r.Some? ==> forall k :: 0 <= k < r.value ==> !(part <= text[k..])
    ensures r.None? ==> forall k :: 0 <= k <= |text| ==> !(part <= text[k..])
  {
    if part <= text then Some(0)
    else if text == "" then None
    else
      var later := Find(text[1..], part);
      assert forall k :: 1 <= k <= |text| ==> text[k..] == text[1..][k - 1..];
      if later.Some? then Some(later.value + 1) else None
  }

  predicate EndsWith(text: string, last: string) {
    |text| >= |last| && text[|text| - |last|..] == last
  }

  // --- What backtracking accepts, part by part ---

  lemma {:induction false} GlobLiteral(part: string, pattern: string, text: string)
    requires '*' !in part
    ensures Glob(part + pattern, text, false) <==> part <= text && Glob(pattern, text[|part|..], false)
  {
    if part == "" {
      assert part + pattern == pattern && text[0..] == text;
    } else {
      assert (part + pattern)[1..] == part[1..] + pattern;
      if text != "" && part[0] == text[0] {
        GlobLiteral(part[1..], pattern, text[1..]);
        assert part[1..] <= text[1..] <==> part <= text;
        if part <= text {
          assert text[1..][|part| - 1..] == text[|part|..];
        }
      }
    }
  }

  lemma GlobStar(pattern: string, text: string)
    ensures Glob("*" + pattern, text, false) <==> AnySuffix(pattern, text, false)
  {
    assert ("*" + pattern)[1..] == pattern;
  }

  /** A star may swallow any prefix. */
  lemma GlobStarSkips(pattern: string, text: string, k: nat)
    requires k <= |text| && Glob("*" + pattern, text[k..], false)
    ensures Glob("*" + pattern, text, false)
  {
    GlobStar(pattern, text);
    GlobStar(pattern, text[k..]);
    var j := SuffixMatches(pattern, text[k..], false);
    assert text[k..][j..] == text[k + j..];
    SuffixSuffices(pattern, text, false, k + j);
  }

  /** Taking the leftmost occurrence of a part loses nothing: any other leaves less for the star after it. */
  lemma LeftmostIsEnough(part: string, pattern: string, text: string)
    requires '*' !in part && Glob("*" + (part + ("*" + pattern)), text, false)
    ensures Find(text, part).Some? && Glob("*" + pattern, text[Find(text, part).value + |part|..], false)
  {
    var tail := "*" + pattern;
    GlobStar(part + tail, text);
    var k := SuffixMatches(part + tail, text, false);
    GlobLiteral(part, tail, text[k..]);
    assert part <= text[k..];
    var i := Find(text, part).value;
    assert text[k..][|part|..] == text[i + |part|..][k - i..];
    GlobStarSkips(pattern, text[i + |part|..], k - i);
  }

  lemma LeftmostIsSound(part: string, pattern: string, text: string)
    requires '*' !in part && Find(text, part).Some?
    requires Glob("*" + pattern, text[Find(text, part).value + |part|..], false)
    ensures Glob("*" + (part + ("*" + pattern)), text, false)
  {
    var tail, i := "*" + pattern, Find(text, part).value;
    assert text[i..][|part|..] == text[i + |part|..];
    GlobLiteral(part, tail, text[i..]);
    SuffixSuffices(part + tail, text, false, i);
    GlobStar(part + tail, text);
  }

  lemma GlobMiddle(part: string, pattern: string, text: string)
    requires '*' !in part
    ensures Glob("*" + (part + ("*" + pattern)), text, false) <==>
            Find(text, part).Some? && Glob("*" + pattern, text[Find(text, part).value + |part|..], false)
  {
    if Glob("*" + (part + ("*" + pattern)), text, false) {
      LeftmostIsEnough(part, pattern, text);
    } else if Find(text, part).Some? && Glob("*" + pattern, text[Find(text, part).value + |part|..], false) {
      LeftmostIsSound(part, pattern, text);
    }
  }

  lemma GlobLast(last: string, text: string)
    requires '*' !in last
    ensures Glob("*" + last, text, false) <==> EndsWith(text, last)
  {
    GlobStar(last, text);
    assert last + "" == last;
    if Glob("*" + last, text, false) {
      var k := SuffixMatches(last, text, false);
      GlobLiteral(last, "", text[k..]);
      assert text[k..] == last;
    }
    if EndsWith(text, last) {
      var k := |text| - |last|;
      GlobLiteral(last, "", text[k..]);
      SuffixSuffices(last, text, false, k);
    }
  }

  lemma GlobParts(pattern: string, name: string)
    ensures var parts := Split(pattern);
            && parts[0] in parts
            && (|parts| == 1 ==> (Glob(pattern, name, false) <==> name == parts[0]))
            && (|parts| > 1 ==>
                  (Glob(pattern, name, false) <==>
                   parts[0] <= name && Glob("*" + Join(parts[1..]), name[|parts[0]|..], false)))
  {
    var parts := Split(pattern);
    JoinSplit(pattern);
    assert parts[0] + "" == parts[0];
    GlobLiteral(parts[0], if |parts| == 1 then "" else "*" + Join(parts[1..]), name);
    assert parts[0] <= name && name[|parts[0]|..] == "" ==> name == parts[0];
  }

  lemma MiddleStep(parts: seq<string>, i: nat, rest: string)
    requires 0 < i < |parts| - 1 && '*' !in parts[i]
    ensures Glob("*" + Join(parts[i..]), rest, false) <==>
            Find(rest, parts[i]).Some? &&
            Glob("*" + Join(parts[i + 1..]), rest[Find(rest, parts[i]).value + |parts[i]|..], false)
  {
    hide Glob;
    hide AnySuffix;
    hide Find;
    assert parts[i..][1..] == parts[i + 1..];
    GlobMiddle(parts[i], Join(parts[i + 1..]), rest);
  }

  lemma LastStep(parts: seq<string>, rest: string)
    requires |parts| > 1 && '*' !in parts[|parts| - 1]
    ensures Glob("*" + Join(parts[|parts| - 1..]), rest, false) <==> EndsWith(rest, parts[|parts| - 1])
  {
    assert parts[|parts| - 1..] == [parts[|parts| - 1]];
    GlobLast(parts[|parts| - 1], rest);
  }

  /** The greedy matcher accepts exactly what backtracking without `?` accepts. */
  method GlobMatch(pattern: string, name: string) returns (matched: bool)
    ensures matched == Glob(pattern, name, false)
  {
    var parts := Split(pattern);
    GlobParts(pattern, name);
    var first := parts[0];
    if !(first <= name) {
      return false;
    }
    var rest := name[|first|..];
    if |parts| == 1 {
      return rest == "";
    }
    for i := 1 to |parts| - 1
      invariant Glob(pattern, name, false) <==> Glob("*" + Join(parts[i..]), rest, false)
    {
      assert parts[i] in parts;
      MiddleStep(parts, i, rest);
      match Find(rest, parts[i]) {
        case None => return false;
        case Some(index) => rest := rest[index + |parts[i]|..];
      }
    }
    var last := parts[|parts| - 1];
    assert last in parts;
    LastStep(parts, rest);
    return EndsWith(rest, last);
  }

  // --- The two matchers agree exactly on patterns without `?` ---

  lemma {:induction false} WildIsNeeded(pattern: string, text: string)
    requires '?' !in pattern
    ensures Glob(pattern, text, true) <==> Glob(pattern, text, false)
    decreases |pattern|
  {
    if pattern != "" {
      if pattern[0] == '*' {
        if AnySuffix(pattern[1..], text, true) {
          var k := SuffixMatches(pattern[1..], text, true);
          WildIsNeeded(pattern[1..], text[k..]);
          SuffixSuffices(pattern[1..], text, false, k);
        }
        if AnySuffix(pattern[1..], text, false) {
          var k := SuffixMatches(pattern[1..], text, false);
          WildIsNeeded(pattern[1..], text[k..]);
          SuffixSuffices(pattern[1..], text, true, k);
        }
      } else if text != "" {
        WildIsNeeded(pattern[1..], text[1..]);
      }
    }
  }

  lemma {:induction false} LiteralMarkNeeded(pattern: string, text: string)
    requires '?' in pattern && Glob(pattern, text, false)
    ensures '?' in text
    decreases |pattern|
  {
    if pattern[0] == '*' {
      var k := SuffixMatches(pattern[1..], text, false);
      LiteralMarkNeeded(pattern[1..], text[k..]);
    } else if pattern[0] != '?' {
      LiteralMarkNeeded(pattern[1..], text[1..]);
    }
  }

  function Filled(pattern: string): (r: string)
    ensures |r| == |pattern| && '?' !in r
  {
    if pattern == "" then "" else [if pattern[0] == '?' then 'x' else pattern[0]] + Filled(pattern[1..])
  }

  lemma {:induction false} FilledMatches(pattern: string)
    ensures Glob(pattern, Filled(pattern), true)
  {
    if pattern != "" {
      FilledMatches(pattern[1..]);
      assert Filled(pattern)[1..] == Filled(pattern[1..]);
      if pattern[0] == '*' {
        SuffixSuffices(pattern[1..], Filled(pattern), true, 1);
      }
    }
  }

  lemma GreedyAgreesIff(pattern: string)
    ensures (forall name :: Glob(pattern, name, true) <==> Glob(pattern, name, false)) <==> '?' !in pattern
  {
    if '?' in pattern {
      FilledMatches(pattern);
      if Glob(pattern, Filled(pattern), false) {
        LiteralMarkNeeded(pattern, Filled(pattern));
      }
      assert Glob(pattern, Filled(pattern), true) != Glob(pattern, Filled(pattern), false);
    } else {
      forall name ensures Glob(pattern, name, true) <==> Glob(pattern, name, false) {
        WildIsNeeded(pattern, name);
      }
    }
  }
}
