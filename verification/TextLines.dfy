/** Text and its lines: splitting, joining, and the library's `lines`. */
module TextLines {
  datatype Split = NotFound | Found(before: string, after: string)

  function SplitAt(s: string, c: char): (r: Split)
    ensures r.NotFound? <==> c !in s
    ensures r.Found? ==> c !in r.before && s == r.before + [c] + r.after
  {
    if s == "" then NotFound
    else if s[0] == c then Found("", s[1..])
    else
      match SplitAt(s[1..], c)
      case NotFound => NotFound
      case Found(before, after) =>
        assert s == [s[0]] + s[1..];
        Found([s[0]] + before, after)
  }

  lemma {:induction false} SplitFinds(before: string, c: char, after: string)
    requires c !in before
    ensures SplitAt(before + [c] + after, c) == Found(before, after)
  {
    var s := before + [c] + after;
    if before == "" {
      assert s[1..] == after;
    } else {
      assert s[1..] == before[1..] + [c] + after;
      SplitFinds(before[1..], c, after);
      assert [before[0]] + before[1..] == before;
    }
  }

  function Join(lines: seq<string>): string {
    if lines == [] then "" else if |lines| == 1 then lines[0] else lines[0] + ['\n'] + Join(lines[1..])
  }

  lemma JoinCons(line: string, rest: seq<string>)
    ensures Join([line] + rest) == if rest == [] then line else line + ['\n'] + Join(rest)
  {
    assert ([line] + rest)[1..] == rest;
  }

  function SplitLines(s: string): (r: seq<string>)
    decreases |s|
  {
    match SplitAt(s, '\n')
    case NotFound => [s]
    case Found(before, after) => [before] + SplitLines(after)
  }

  /** No line breaks inside a line. */
  ghost predicate Unbroken(lines: seq<string>) {
    forall line | line in lines :: '\n' !in line
  }

  lemma {:induction false} SplitJoined(lines: seq<string>)
    requires lines != [] && Unbroken(lines)
    ensures SplitLines(Join(lines)) == lines
  {
    assert lines[0] in lines;
    if |lines| > 1 {
      SplitFinds(lines[0], '\n', Join(lines[1..]));
      SplitJoined(lines[1..]);
    }
  }

  /** Splitting at line breaks loses nothing. */
  lemma {:induction false} JoinSplit(s: string)
    ensures SplitLines(s) != [] && Join(SplitLines(s)) == s && Unbroken(SplitLines(s))
    decreases |s|
  {
    match SplitAt(s, '\n')
    case NotFound =>
    case Found(before, after) =>
      JoinSplit(after);
      JoinCons(before, SplitLines(after));
  }

  // --- `str::lines` ---

  function WithoutReturn(line: string): string {
    if line != "" && line[|line| - 1] == '\r' then line[..|line| - 1] else line
  }

  /** The lines of a text: a line break may be preceded by a carriage return, and one at the end starts no line. */
  function LinesOf(s: string): (r: seq<string>)
    ensures s != "" ==> r != []
    decreases |s|
  {
    if s == "" then []
    else
      match SplitAt(s, '\n')
      case NotFound => [s]
      case Found(before, after) => [WithoutReturn(before)] + LinesOf(after)
  }

  /** No line break follows a carriage return or ends the text. */
  predicate Settled(s: string) {
    (s != "" ==> s[|s| - 1] != '\n') && forall i :: 0 < i < |s| && s[i] == '\n' ==> s[i - 1] != '\r'
  }

  lemma SettledStep(before: string, after: string)
    requires '\n' !in before
    ensures Settled(before + ['\n'] + after) <==> WithoutReturn(before) == before && after != "" && Settled(after)
  {
    var s, n := before + ['\n'] + after, |before|;
    assert s[n] == '\n' && (n > 0 ==> s[n - 1] == before[n - 1]);
    assert forall i :: 0 <= i < |after| ==> s[n + 1 + i] == after[i];
    if Settled(s) {
      forall i | 0 < i < |after| && after[i] == '\n' ensures after[i - 1] != '\r' {
        assert s[n + 1 + i] == '\n';
      }
    }
    if WithoutReturn(before) == before && after != "" && Settled(after) {
      assert forall i :: 0 <= i < n ==> s[i] == before[i] && before[i] in before;
      forall i | 0 < i < |s| && s[i] == '\n' ensures s[i - 1] != '\r' {
        if i > n + 1 {
          assert after[i - n - 1] == '\n' && after[i - n - 2] == s[i - 1];
        }
      }
    }
  }

  lemma {:induction false} JoinedNoLonger(s: string)
    ensures |Join(LinesOf(s))| <= |s|
    decreases |s|
  {
    if s != "" {
      match SplitAt(s, '\n')
      case NotFound =>
      case Found(before, after) =>
        JoinedNoLonger(after);
        JoinCons(WithoutReturn(before), LinesOf(after));
    }
  }

  /** Taking a text apart into lines and joining them gives it back exactly when it is settled. */
  lemma {:induction false} JoinedLinesIff(s: string)
    ensures Join(LinesOf(s)) == s <==> Settled(s)
    decreases |s|
  {
    if s != "" {
      match SplitAt(s, '\n')
      case NotFound =>
      case Found(before, after) =>
        SettledStep(before, after);
        JoinCons(WithoutReturn(before), LinesOf(after));
        JoinedLinesIff(after);
        JoinedNoLonger(after);
        SameHead(before, after, WithoutReturn(before), Join(LinesOf(after)));
    }
  }

  lemma SameHead(before: string, after: string, head: string, tail: string)
    requires head <= before && |tail| <= |after|
    ensures before + ['\n'] + after == head + ['\n'] + tail <==> before == head && after == tail
  {
    var s, t := before + ['\n'] + after, head + ['\n'] + tail;
    if s == t {
      assert s[|before| + 1..] == after && t[|head| + 1..] == tail;
    }
  }

  /** Lines that no break follows lose nothing: only the last may end in a carriage return, and it is not empty. */
  predicate SettledLines(lines: seq<string>) {
    && (lines != [] ==> lines[|lines| - 1] != "")
    && forall k :: 0 <= k < |lines| - 1 ==> WithoutReturn(lines[k]) == lines[k]
  }

  lemma SettledCons(line: string, rest: seq<string>)
    requires rest != []
    ensures SettledLines([line] + rest) <==> WithoutReturn(line) == line && SettledLines(rest)
  {
    var lines := [line] + rest;
    assert forall k :: 0 <= k < |rest| ==> rest[k] == lines[k + 1];
    if SettledLines(lines) {
      forall k | 0 <= k < |rest| - 1 ensures WithoutReturn(rest[k]) == rest[k] {
        assert WithoutReturn(lines[k + 1]) == lines[k + 1];
      }
      assert WithoutReturn(lines[0]) == lines[0];
    }
    if WithoutReturn(line) == line && SettledLines(rest) {
      forall k | 0 <= k < |lines| - 1 ensures WithoutReturn(lines[k]) == lines[k] {
        assert lines[k] == if k == 0 then line else rest[k - 1];
      }
    }
  }

  /** Joining lines and taking the text apart again gives the lines back exactly when they are settled. */
  lemma {:induction false} LinesJoinedIff(lines: seq<string>)
    requires Unbroken(lines)
    ensures LinesOf(Join(lines)) == lines <==> SettledLines(lines)
  {
    if lines != [] {
      assert lines[0] in lines;
      LinesJoinedStep(lines[0], lines[1..]);
      assert lines == [lines[0]] + lines[1..];
      if |lines| > 1 {
        LinesJoinedIff(lines[1..]);
        SettledCons(lines[0], lines[1..]);
      }
    }
  }

  lemma LinesJoinedStep(line: string, rest: seq<string>)
    requires '\n' !in line
    ensures LinesOf(Join([line] + rest)) ==
            if rest == [] then (if line == "" then [] else [line]) else [WithoutReturn(line)] + LinesOf(Join(rest))
  {
    JoinCons(line, rest);
    if rest != [] {
      SplitFinds(line, '\n', Join(rest));
    }
  }
}
