/** The indented JSON text of `serde_json::to_string_pretty`, and that it says no less than the compact text. */
module PrettyText {
  import opened CanonicalText
  import opened Json
  import opened Sorting
  import opened TextLines

  function Indent(depth: nat): string {
    seq(2 * depth, _ => ' ')
  }

  /** A new line, indented. */
  function Break(depth: nat): string {
    ['\n'] + Indent(depth)
  }

  function Pretty(v: Json, depth: nat): string
    decreases v, 1
  {
    match v
    case Array(items) =>
      if items == [] then "[]" else "[" + (Break(depth + 1) + (Pretty(items[0], depth + 1) + PrettyItems(items[1..], depth)))
    case Object(members) =>
      if members == [] then "{}"
      else "{" + (Break(depth + 1) + (PrettyEntry(members[0], depth + 1) + PrettyMembers(members[1..], depth)))
    case _ => Print(v)
  }

  function PrettyEntry(m: Member, depth: nat): string
    decreases m, 2
  {
    Quote(m.key) + (": " + Pretty(m.value, depth))
  }

  function PrettyItems(items: seq<Json>, depth: nat): string
    decreases items, 0
  {
    if items == [] then Break(depth) + "]"
    else "," + (Break(depth + 1) + (Pretty(items[0], depth + 1) + PrettyItems(items[1..], depth)))
  }

  function PrettyMembers(members: seq<Member>, depth: nat): string
    decreases members, 0
  {
    if members == [] then Break(depth) + "}"
    else "," + (Break(depth + 1) + (PrettyEntry(members[0], depth + 1) + PrettyMembers(members[1..], depth)))
  }

  /** Two spaces for each level, one item on a line, and the closing bracket under the line that opened. */
  lemma ArrayLayout(x: Json, y: Json, depth: nat)
    ensures Break(0) == "\n" && Break(depth + 1) == Break(depth) + "  "
    ensures Pretty(Array([x, y]), depth) ==
            "[" + (Break(depth + 1) + (Pretty(x, depth + 1) +
            ("," + (Break(depth + 1) + (Pretty(y, depth + 1) + (Break(depth) + "]"))))))
  {
    BreakGrows(depth);
    hide Break;
    assert [x, y][1..] == [y] && [y][1..] == [];
    assert PrettyItems([], depth) == Break(depth) + "]";
  }

  lemma BreakGrows(depth: nat)
    ensures Break(0) == "\n" && Break(depth + 1) == Break(depth) + "  "
  {}

  // --- Dropping the white space outside strings ---

  datatype Place = Outside | Inside | Escaped

  function Compact(s: string, place: Place): string {
    if s == "" then ""
    else
      match place
      case Outside =>
        if s[0] == ' ' || s[0] == '\n' then Compact(s[1..], Outside)
        else [s[0]] + Compact(s[1..], if s[0] == '\"' then Inside else Outside)
      case Inside =>
        [s[0]] + Compact(s[1..], if s[0] == '\\' then Escaped else if s[0] == '\"' then Outside else Inside)
      case Escaped => [s[0]] + Compact(s[1..], Inside)
  }

  lemma CompactStep(c: char, rest: string, place: Place)
    ensures Compact([c] + rest, place) ==
            match place
            case Outside => if c == ' ' || c == '\n' then Compact(rest, Outside)
                            else [c] + Compact(rest, if c == '\"' then Inside else Outside)
            case Inside => [c] + Compact(rest, if c == '\\' then Escaped else if c == '\"' then Outside else Inside)
            case Escaped => [c] + Compact(rest, Inside)
  {
    assert ([c] + rest)[1..] == rest;
  }

  predicate Solid(c: char) {
    c != ' ' && c != '\n' && c != '\"'
  }

  /** Outside strings, text without white space or quotes stays. */
  lemma {:induction false} CompactSolid(a: string, rest: string)
    requires forall c | c in a :: Solid(c)
    ensures Compact(a + rest, Outside) == a + Compact(rest, Outside)
  {
    if a == "" {
      assert a + rest == rest;
    } else {
      assert a + rest == [a[0]] + (a[1..] + rest) && a[0] in a;
      CompactStep(a[0], a[1..] + rest, Outside);
      assert forall c | c in a[1..] :: c in a;
      CompactSolid(a[1..], rest);
      assert a == [a[0]] + a[1..];
    }
  }

  lemma {:induction false} CompactSpaces(n: nat, rest: string)
    ensures Compact(seq(n, _ => ' ') + rest, Outside) == Compact(rest, Outside)
  {
    var spaces := seq(n, _ => ' ');
    if n == 0 {
      assert spaces + rest == rest;
    } else {
      assert spaces + rest == [' '] + (seq(n - 1, _ => ' ') + rest);
      CompactStep(' ', seq(n - 1, _ => ' ') + rest, Outside);
      CompactSpaces(n - 1, rest);
    }
  }

  lemma CompactBreak(depth: nat, rest: string)
    ensures Compact(Break(depth) + rest, Outside) == Compact(rest, Outside)
  {
    assert Break(depth) + rest == ['\n'] + (Indent(depth) + rest);
    CompactStep('\n', Indent(depth) + rest, Outside);
    CompactSpaces(2 * depth, rest);
  }

  predicate Ordinary(c: char) {
    c != '\"' && c != '\\'
  }

  lemma {:induction false} CompactInside(a: string, rest: string)
    requires forall c | c in a :: Ordinary(c)
    ensures Compact(a + rest, Inside) == a + Compact(rest, Inside)
  {
    if a == "" {
      assert a + rest == rest;
    } else {
      assert a + rest == [a[0]] + (a[1..] + rest) && a[0] in a;
      CompactStep(a[0], a[1..] + rest, Inside);
      assert forall c | c in a[1..] :: c in a;
      CompactInside(a[1..], rest);
      assert a == [a[0]] + a[1..];
    }
  }

  /** An escape is one ordinary character, or a backslash, any character, and ordinary ones. */
  lemma EscapeShape(c: char)
    ensures var e := EscapeChar(c);
            || (e == [c] && Ordinary(c))
            || (|e| >= 2 && e[0] == '\\' && forall i :: 2 <= i < |e| ==> Ordinary(e[i]))
  {}

  lemma CompactEscape(c: char, rest: string)
    ensures Compact(EscapeChar(c) + rest, Inside) == EscapeChar(c) + Compact(rest, Inside)
  {
    EscapeShape(c);
    var e := EscapeChar(c);
    hide EscapeChar;
    if e == [c] && Ordinary(c) {
      CompactStep(c, rest, Inside);
    } else {
      CompactBackslash(e[1], e[2..], rest);
      assert e == [e[0]] + ([e[1]] + e[2..]);
    }
  }

  lemma CompactBackslash(c: char, more: string, rest: string)
    requires forall d | d in more :: Ordinary(d)
    ensures Compact(['\\'] + ([c] + more) + rest, Inside) == ['\\'] + ([c] + more) + Compact(rest, Inside)
  {
    Concat(['\\'], [c] + more, rest);
    Concat([c], more, rest);
    CompactStep('\\', [c] + (more + rest), Inside);
    CompactStep(c, more + rest, Escaped);
    CompactInside(more, rest);
    Concat(['\\'], [c] + more, Compact(rest, Inside));
    Concat([c], more, Compact(rest, Inside));
  }

  lemma {:induction false} CompactTail(s: string, rest: string)
    ensures Compact(EscapeTail(s) + rest, Inside) == EscapeTail(s) + Compact(rest, Outside)
  {
    if s == "" {
      CompactStep('\"', rest, Inside);
    } else {
      Concat(EscapeChar(s[0]), EscapeTail(s[1..]), rest);
      CompactEscape(s[0], EscapeTail(s[1..]) + rest);
      CompactTail(s[1..], rest);
      Concat(EscapeChar(s[0]), EscapeTail(s[1..]), Compact(rest, Outside));
    }
  }

  lemma CompactQuote(s: string, rest: string)
    ensures Compact(Quote(s) + rest, Outside) == Quote(s) + Compact(rest, Outside)
  {
    CompactTail(s, rest);
    hide Compact;
    hide EscapeTail;
    Concat(['\"'], EscapeTail(s), rest);
    CompactStep('\"', EscapeTail(s) + rest, Outside);
    Concat(['\"'], EscapeTail(s), Compact(rest, Outside));
  }

  // --- The indented text says what the compact text says ---

  /** Wherever it stands outside strings, `a` comes down to `b`. */
  ghost predicate Says(a: string, b: string) {
    forall rest :: Compact(a + rest, Outside) == b + Compact(rest, Outside)
  }

  lemma SaysBoth(a: string, b: string, c: string, d: string)
    requires Says(a, b) && Says(c, d)
    ensures Says(a + c, b + d)
  {
    forall rest ensures Compact(a + c + rest, Outside) == b + d + Compact(rest, Outside) {
      Concat(a, c, rest);
      assert Compact(a + (c + rest), Outside) == b + Compact(c + rest, Outside);
      Concat(b, d, Compact(rest, Outside));
    }
  }

  lemma SaysSolid(a: string)
    requires forall c | c in a :: Solid(c)
    ensures Says(a, a)
  {
    forall rest ensures Compact(a + rest, Outside) == a + Compact(rest, Outside) {
      CompactSolid(a, rest);
    }
  }

  lemma SaysBreak(depth: nat)
    ensures Says(Break(depth), "")
  {
    forall rest ensures Compact(Break(depth) + rest, Outside) == "" + Compact(rest, Outside) {
      CompactBreak(depth, rest);
    }
  }

  lemma SaysQuote(s: string)
    ensures Says(Quote(s), Quote(s))
  {
    forall rest ensures Compact(Quote(s) + rest, Outside) == Quote(s) + Compact(rest, Outside) {
      CompactQuote(s, rest);
    }
  }

  lemma SaysColon()
    ensures Says(": ", ":")
  {
    forall rest ensures Compact(": " + rest, Outside) == ":" + Compact(rest, Outside) {
      assert ": " + rest == [':'] + ([' '] + rest);
      CompactStep(':', [' '] + rest, Outside);
      CompactStep(' ', rest, Outside);
    }
  }

  /** `open`, a new line, a first part and a tail. */
  lemma SaysLine(open: string, depth: nat, first: string, first': string, tail: string, tail': string)
    requires (forall c | c in open :: Solid(c)) && Says(first, first') && Says(tail, tail')
    ensures Says(open + (Break(depth) + (first + tail)), open + first' + tail')
  {
    hide Says;
    SaysSolid(open);
    SaysBreak(depth);
    SaysBoth(first, first', tail, tail');
    SaysBoth(Break(depth), "", first + tail, first' + tail');
    assert "" + (first' + tail') == first' + tail';
    SaysBoth(open, open, Break(depth) + (first + tail), first' + tail');
    Concat(open, first', tail');
  }

  lemma SaysClose(depth: nat, close: string)
    requires forall c | c in close :: Solid(c)
    ensures Says(Break(depth) + close, close)
  {
    hide Says;
    SaysBreak(depth);
    SaysSolid(close);
    SaysBoth(Break(depth), "", close, close);
    assert "" + close == close;
  }

  lemma {:induction false} PrettySays(v: Json, depth: nat)
    requires Valid(v)
    ensures Says(Pretty(v, depth), Print(v))
    decreases v, 1
  {
    hide Says;
    match v
    case String(s) => SaysQuote(s);
    case Array(items) =>
      if items == [] {
        SaysSolid("[]");
      } else {
        PrettySays(items[0], depth + 1);
        ItemsSay(items[1..], depth);
        SaysLine("[", depth + 1, Pretty(items[0], depth + 1), Print(items[0]), PrettyItems(items[1..], depth), ItemsTail(items[1..]));
      }
    case Object(members) =>
      if members == [] {
        SaysSolid("{}");
      } else {
        EntrySays(members[0], depth + 1);
        MembersSay(members[1..], depth);
        SaysLine("{", depth + 1, PrettyEntry(members[0], depth + 1), Entry(members[0]),
                 PrettyMembers(members[1..], depth), MembersTail(members[1..]));
      }
    case _ => SaysSolid(Print(v));
  }

  lemma {:induction false} EntrySays(m: Member, depth: nat)
    requires Valid(m.value)
    ensures Says(PrettyEntry(m, depth), Entry(m))
    decreases m, 2
  {
    hide Says;
    SaysQuote(m.key);
    SaysColon();
    PrettySays(m.value, depth);
    SaysBoth(": ", ":", Pretty(m.value, depth), Print(m.value));
    SaysBoth(Quote(m.key), Quote(m.key), ": " + Pretty(m.value, depth), ":" + Print(m.value));
    Concat(Quote(m.key), ":", Print(m.value));
  }

  lemma {:induction false} ItemsSay(items: seq<Json>, depth: nat)
    requires forall x | x in items :: Valid(x)
    ensures Says(PrettyItems(items, depth), ItemsTail(items))
    decreases items, 0
  {
    hide Says;
    if items == [] {
      SaysClose(depth, "]");
    } else {
      PrettySays(items[0], depth + 1);
      ItemsSay(items[1..], depth);
      SaysLine(",", depth + 1, Pretty(items[0], depth + 1), Print(items[0]), PrettyItems(items[1..], depth), ItemsTail(items[1..]));
    }
  }

  lemma {:induction false} MembersSay(members: seq<Member>, depth: nat)
    requires forall m | m in members :: Valid(m.value)
    ensures Says(PrettyMembers(members, depth), MembersTail(members))
    decreases members, 0
  {
    hide Says;
    if members == [] {
      SaysClose(depth, "}");
    } else {
      EntrySays(members[0], depth + 1);
      MembersSay(members[1..], depth);
      SaysLine(",", depth + 1, PrettyEntry(members[0], depth + 1), Entry(members[0]),
               PrettyMembers(members[1..], depth), MembersTail(members[1..]));
    }
  }

  /** Dropping the white space outside strings gives the compact text. */
  lemma CompactPretty(v: Value, depth: nat)
    ensures Compact(Pretty(v, depth), Outside) == Print(v)
  {
    PrettySays(v, depth);
    var s := Pretty(v, depth);
    assert Compact(s + "", Outside) == Print(v) + Compact("", Outside);
    assert s + "" == s;
  }

  // --- Sorted keys, and lines ---

  /** What `render` prints for a JSON body. */
  function SortedText(v: Json): string {
    Pretty(Canonical(v), 0)
  }

  /** The indented text with sorted keys tells apart exactly what the compact canonical text tells apart. */
  lemma SortedDecides(a: Value, b: Value)
    ensures SortedText(a) == SortedText(b) <==> Text(a) == Text(b)
  {
    CanonicalValid(a);
    CanonicalValid(b);
    CompactPretty(Canonical(a), 0);
    CompactPretty(Canonical(b), 0);
    TextDecidesEqual(a, b);
    CanonicalDecidesEqual(a, b);
  }

  /** No carriage return, and no line break at the end. */
  predicate Tidy(s: string) {
    '\r' !in s && s != "" && s[|s| - 1] != '\n'
  }

  lemma TidyAppend(a: string, b: string)
    requires '\r' !in a && Tidy(b)
    ensures Tidy(a + b)
  {}

  lemma {:induction false} EscapeTidy(s: string)
    ensures Tidy(EscapeTail(s))
  {
    if s != "" {
      EscapeTidy(s[1..]);
      TidyAppend(EscapeChar(s[0]), EscapeTail(s[1..]));
    }
  }

  lemma PrintTidy(v: Json)
    requires Valid(v) && !v.Array? && !v.Object?
    ensures Tidy(Print(v))
  {
    match v
    case String(s) =>
      EscapeTidy(s);
      TidyAppend("\"", EscapeTail(s));
    case Number(t) => assert t[|t| - 1] in t;
    case _ =>
  }

  lemma LineTidy(open: string, depth: nat, first: string, tail: string)
    requires '\r' !in open && Tidy(first) && Tidy(tail)
    ensures Tidy(open + (Break(depth) + (first + tail)))
  {
    TidyAppend(first, tail);
    TidyAppend(Break(depth), first + tail);
    TidyAppend(open, Break(depth) + (first + tail));
  }

  lemma {:induction false} PrettyTidy(v: Json, depth: nat)
    requires Valid(v)
    ensures Tidy(Pretty(v, depth))
    decreases v, 1
  {
    hide Tidy;
    match v
    case Array(items) =>
      if items == [] {
        Brackets();
      } else {
        PrettyTidy(items[0], depth + 1);
        ItemsTidy(items[1..], depth);
        LineTidy("[", depth + 1, Pretty(items[0], depth + 1), PrettyItems(items[1..], depth));
      }
    case Object(members) =>
      if members == [] {
        Brackets();
      } else {
        EntryTidy(members[0], depth + 1);
        MembersTidy(members[1..], depth);
        LineTidy("{", depth + 1, PrettyEntry(members[0], depth + 1), PrettyMembers(members[1..], depth));
      }
    case _ => PrintTidy(v);
  }

  lemma Brackets()
    ensures Tidy("[]") && Tidy("{}") && Tidy("]") && Tidy("}")
  {}

  lemma {:induction false} EntryTidy(m: Member, depth: nat)
    requires Valid(m.value)
    ensures Tidy(PrettyEntry(m, depth))
    decreases m, 2
  {
    PrettyTidy(m.value, depth);
    EscapeTidy(m.key);
    TidyAppend(": ", Pretty(m.value, depth));
    TidyAppend(Quote(m.key), ": " + Pretty(m.value, depth));
  }

  lemma {:induction false} ItemsTidy(items: seq<Json>, depth: nat)
    requires forall x | x in items :: Valid(x)
    ensures Tidy(PrettyItems(items, depth))
    decreases items, 0
  {
    hide Tidy;
    if items == [] {
      Brackets();
      TidyAppend(Break(depth), "]");
    } else {
      PrettyTidy(items[0], depth + 1);
      ItemsTidy(items[1..], depth);
      LineTidy(",", depth + 1, Pretty(items[0], depth + 1), PrettyItems(items[1..], depth));
    }
  }

  lemma {:induction false} MembersTidy(members: seq<Member>, depth: nat)
    requires forall m | m in members :: Valid(m.value)
    ensures Tidy(PrettyMembers(members, depth))
    decreases members, 0
  {
    hide Tidy;
    if members == [] {
      Brackets();
      TidyAppend(Break(depth), "}");
    } else {
      EntryTidy(members[0], depth + 1);
      MembersTidy(members[1..], depth);
      LineTidy(",", depth + 1, PrettyEntry(members[0], depth + 1), PrettyMembers(members[1..], depth));
    }
  }

  lemma SortedSettled(v: Value)
    ensures Settled(SortedText(v))
  {
    CanonicalValid(v);
    PrettyTidy(Canonical(v), 0);
    var s := SortedText(v);
    assert forall i :: 0 <= i < |s| ==> s[i] in s && s[i] != '\r';
  }

  /** So do its lines. */
  lemma LinesDecide(a: Value, b: Value)
    ensures LinesOf(SortedText(a)) == LinesOf(SortedText(b)) <==> Text(a) == Text(b)
  {
    SortedSettled(a);
    SortedSettled(b);
    JoinedLinesIff(SortedText(a));
    JoinedLinesIff(SortedText(b));
    SortedDecides(a, b);
  }
}
