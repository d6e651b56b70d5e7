/** A reader of compact JSON text (RFC 8259): what the canonical writer writes is JSON, and of the value it was given. */
module JsonReader {
  import opened CanonicalText
  import opened Json
  import opened Options
  import opened Sorting

  // --- Strings ---

  function HexValue(c: char): Option<nat> {
    if '0' <= c <= '9' then Some(c as int - '0' as int)
    else if 'a' <= c <= 'f' then Some(c as int - 'a' as int + 10)
    else if 'A' <= c <= 'F' then Some(c as int - 'A' as int + 10)
    else None
  }

  /** The character four hexadecimal digits stand for; surrogates stand for none by themselves. */
  function HexChar(a: char, b: char, c: char, d: char): Option<char> {
    var w, x, y, z := HexValue(a), HexValue(b), HexValue(c), HexValue(d);
    if w.None? || x.None? || y.None? || z.None? then None
    else
      var n := ((w.value * 16 + x.value) * 16 + y.value) * 16 + z.value;
      if n < 0xD800 then Some(n as char) else None
  }

  /** The character after a backslash, for the escapes of one letter. */
  function ShortEscape(c: char): Option<char> {
    if c == '\"' || c == '\\' || c == '/' then Some(c)
    else if c == 'b' then Some(8 as char)
    else if c == 't' then Some(9 as char)
    else if c == 'n' then Some(10 as char)
    else if c == 'f' then Some(12 as char)
    else if c == 'r' then Some(13 as char)
    else None
  }

  /** The first character of a string's contents, and what follows it. */
  function ReadChar(s: string): (r: Option<(char, string)>)
    ensures r.Some? ==> |r.value.1| < |s|
  {
    if s == "" || s[0] as int < 32 then None
    else if s[0] != '\\' then Some((s[0], s[1..]))
    else if |s| < 2 then None
    else if s[1] == 'u' then
      if |s| < 6 then None
      else
        match HexChar(s[2], s[3], s[4], s[5])
        case None => None
        case Some(c) => Some((c, s[6..]))
    else
      match ShortEscape(s[1])
      case None => None
      case Some(c) => Some((c, s[2..]))
  }

  /** The contents of a string up to its closing quote, and what follows the quote. */
  function ReadString(s: string): (r: Option<(string, string)>)
    ensures r.Some? ==> |r.value.1| < |s|
    decreases |s|
  {
    if s != "" && s[0] == '\"' then Some(("", s[1..]))
    else
      match ReadChar(s)
      case None => None
      case Some((c, rest)) =>
        match ReadString(rest)
        case None => None
        case Some((text, after)) => Some(([c] + text, after))
  }

  lemma HexDigitValue(n: nat)
    requires n < 16
    ensures HexValue(HexDigit(n)) == Some(n)
  {}

  lemma ReadEscape(c: char, rest: string)
    ensures ReadChar(EscapeChar(c) + rest) == Some((c, rest))
    ensures EscapeChar(c)[0] != '\"'
  {
    var e := EscapeChar(c);
    var s := e + rest;
    if |e| == 6 {
      HexDigitValue(0);
      HexDigitValue(c as int / 16);
      HexDigitValue(c as int % 16);
      assert s[0] == '\\' && s[1] == 'u' && s[2] == '0' && s[3] == '0' && s[4] == e[4] && s[5] == e[5];
      assert s[6..] == rest;
    } else if |e| == 2 {
      assert s[0] == e[0] && s[1] == e[1] && s[2..] == rest;
    } else {
      assert s[0] == c && s[1..] == rest;
    }
  }

  /** As serde_json writes it: the escape of one letter where there is one, lower-case digits where there is none, and no
      other character escaped. */
  lemma EscapeIs(c: char, letter: char)
    ensures ShortEscape(letter) == Some(c) && letter != '/' ==> EscapeChar(c) == ['\\', letter]
    ensures c as int >= 32 && c != '\"' && c != '\\' ==> EscapeChar(c) == [c]
    ensures |EscapeChar(c)| == 6 ==> forall d | d in EscapeChar(c) :: !('A' <= d <= 'Z')
  {
    if |EscapeChar(c)| == 6 {
      DigitLower(c as int / 16);
      DigitLower(c as int % 16);
    }
  }

  lemma DigitLower(n: nat)
    requires n < 16
    ensures !('A' <= HexDigit(n) <= 'Z')
  {}

  /** Reading an escaped string gives the string back. */
  lemma {:induction false} ReadEscaped(x: string, rest: string)
    ensures ReadString(EscapeTail(x) + rest) == Some((x, rest))
  {
    if x == "" {
      assert ("\"" + rest)[1..] == rest;
    } else {
      ReadEscaped(x[1..], rest);
      ReadEscape(x[0], EscapeTail(x[1..]) + rest);
      Concat(EscapeChar(x[0]), EscapeTail(x[1..]), rest);
      var s := EscapeChar(x[0]) + (EscapeTail(x[1..]) + rest);
      assert s[0] == EscapeChar(x[0])[0];
      assert [x[0]] + x[1..] == x;
    }
  }

  // --- Values ---

  function NumberLength(s: string): (n: nat)
    ensures n <= |s| && (forall i :: 0 <= i < n ==> NumberChar(s[i])) && (n < |s| ==> !NumberChar(s[n]))
  {
    if s != "" && NumberChar(s[0]) then 1 + NumberLength(s[1..]) else 0
  }

  function ReadValue(s: string): (r: Option<(Json, string)>)
    ensures r.Some? ==> |r.value.1| < |s|
    decreases |s|, 1
  {
    if "null" <= s then Some((Null, s[4..]))
    else if "true" <= s then Some((Bool(true), s[4..]))
    else if "false" <= s then Some((Bool(false), s[5..]))
    else if "\"" <= s then
      match ReadString(s[1..])
      case None => None
      case Some((text, rest)) => Some((String(text), rest))
    else if "[]" <= s then Some((Array([]), s[2..]))
    else if "[" <= s then
      match ReadItems(s[1..])
      case None => None
      case Some((items, rest)) => Some((Array(items), rest))
    else if "{}" <= s then Some((Object([]), s[2..]))
    else if "{" <= s then
      match ReadMembers(s[1..])
      case None => None
      case Some((members, rest)) => Some((Object(members), rest))
    else
      var n := NumberLength(s);
      if NumberText(s[..n]) then Some((Number(s[..n]), s[n..])) else None
  }

  function ReadItems(s: string): (r: Option<(seq<Json>, string)>)
    ensures r.Some? ==> |r.value.1| < |s|
    decreases |s|, 2
  {
    match ReadValue(s)
    case None => None
    case Some((v, rest)) =>
      if "]" <= rest then Some(([v], rest[1..]))
      else if "," <= rest then
        match ReadItems(rest[1..])
        case None => None
        case Some((items, after)) => Some(([v] + items, after))
      else None
  }

  function ReadMember(s: string): (r: Option<(Member, string)>)
    ensures r.Some? ==> |r.value.1| < |s|
    decreases |s|, 2
  {
    if !("\"" <= s) then None
    else
      match ReadString(s[1..])
      case None => None
      case Some((key, rest)) =>
        if !(":" <= rest) then None
        else
          match ReadValue(rest[1..])
          case None => None
          case Some((v, after)) => Some((Member(key, v), after))
  }

  function ReadMembers(s: string): (r: Option<(seq<Member>, string)>)
    ensures r.Some? ==> |r.value.1| < |s|
    decreases |s|, 3
  {
    match ReadMember(s)
    case None => None
    case Some((m, rest)) =>
      if "}" <= rest then Some(([m], rest[1..]))
      else if "," <= rest then
        match ReadMembers(rest[1..])
        case None => None
        case Some((members, after)) => Some(([m] + members, after))
      else None
  }

  // --- Reading what was written ---

  lemma NumberEnds(t: string, rest: string)
    requires NumberText(t) && Stops(rest)
    ensures NumberLength(t + rest) == |t|
  {
    var s := t + rest;
    assert forall i :: 0 <= i < |t| ==> s[i] == t[i] && t[i] in t;
    if rest != "" {
      assert s[|t|] == rest[0];
    }
  }

  lemma ReadNumber(t: string, rest: string)
    requires NumberText(t) && Stops(rest)
    ensures ReadValue(t + rest) == Some((Number(t), rest))
  {
    var s := t + rest;
    NumberEnds(t, rest);
    assert s[0] == t[0] && s[..|t|] == t && s[|t|..] == rest;
  }

  lemma ReadWord(v: Json, rest: string)
    requires v.Null? || v.Bool?
    ensures ReadValue(Print(v) + rest) == Some((v, rest))
  {
    var word := Print(v);
    var s := word + rest;
    assert s[..|word|] == word && s[|word|..] == rest && s[0] == word[0];
  }

  /** Text that begins with a character of its own. */
  lemma Opened(c: char, tail: string)
    ensures ([c] + tail)[0] == c && ([c] + tail)[1..] == tail
  {}

  lemma ReadQuote(tail: string, x: string, rest: string)
    requires ReadString(tail) == Some((x, rest))
    ensures ReadValue(['\"'] + tail) == Some((String(x), rest))
  {
    hide ReadString;
    hide ReadItems;
    hide ReadMembers;
    Opened('\"', tail);
  }

  lemma ReadQuoted(x: string, rest: string)
    ensures ReadValue(Quote(x) + rest) == Some((String(x), rest))
  {
    ReadEscaped(x, rest);
    hide *;
    QuoteOpens(x, rest);
    ReadQuote(EscapeTail(x) + rest, x, rest);
  }

  lemma QuoteOpens(x: string, rest: string)
    ensures Quote(x) + rest == ['\"'] + (EscapeTail(x) + rest)
  {}

  lemma ReadEmpty(rest: string)
    ensures ReadValue("[]" + rest) == Some((Array([]), rest))
    ensures ReadValue("{}" + rest) == Some((Object([]), rest))
  {
    var a, o := "[]" + rest, "{}" + rest;
    assert a[0] == '[' && a[..2] == "[]" && a[2..] == rest;
    assert o[0] == '{' && o[..2] == "{}" && o[2..] == rest;
  }

  lemma ReadArray(inner: string, items: seq<Json>, rest: string)
    requires ReadItems(inner) == Some((items, rest)) && inner != "" && inner[0] != ']'
    ensures ReadValue(['['] + inner) == Some((Array(items), rest))
  {
    hide ReadItems;
    hide ReadMembers;
    var s := ['['] + inner;
    Opened('[', inner);
    assert s[1] == inner[0];
  }

  lemma ReadObject(inner: string, members: seq<Member>, rest: string)
    requires ReadMembers(inner) == Some((members, rest)) && inner != "" && inner[0] != '}'
    ensures ReadValue(['{'] + inner) == Some((Object(members), rest))
  {
    hide ReadItems;
    hide ReadMembers;
    var s := ['{'] + inner;
    Opened('{', inner);
    assert s[1] == inner[0];
  }

  lemma Continues(items: seq<Json>, members: seq<Member>, rest: string)
    ensures Stops(ItemsTail(items) + rest) && Stops(MembersTail(members) + rest)
  {}

  /** Reading what the compact writer writes gives the value back, and stops where it ends. */
  lemma {:induction false} ReadPrint(v: Json, rest: string)
    requires Valid(v) && Stops(rest)
    ensures ReadValue(Print(v) + rest) == Some((v, rest))
    decreases v, 1
  {
    hide ReadValue;
    match v
    case Number(t) => ReadNumber(t, rest);
    case String(x) => ReadQuoted(x, rest);
    case Array(items) =>
      if items == [] {
        ReadEmpty(rest);
      } else {
        var inner := Print(items[0]) + (ItemsTail(items[1..]) + rest);
        Peel("[", Print(items[0]), ItemsTail(items[1..]), rest);
        PrintHead(items[0], ItemsTail(items[1..]) + rest);
        ReadPrintedItems(items, rest);
        ReadArray(inner, items, rest);
      }
    case Object(members) =>
      if members == [] {
        ReadEmpty(rest);
      } else {
        var inner := Entry(members[0]) + (MembersTail(members[1..]) + rest);
        Peel("{", Entry(members[0]), MembersTail(members[1..]), rest);
        assert inner[0] == '\"';
        ReadPrintedMembers(members, rest);
        ReadObject(inner, members, rest);
      }
    case _ => ReadWord(v, rest);
  }

  lemma ItemThenEnd(first: string, v: Json, rest: string)
    requires ReadValue(first + ("]" + rest)) == Some((v, "]" + rest))
    ensures ReadItems(first + ("]" + rest)) == Some(([v], rest))
  {
    Opened(']', rest);
  }

  lemma ItemThenMore(first: string, v: Json, more: string, items: seq<Json>, rest: string)
    requires ReadValue(first + ("," + more)) == Some((v, "," + more)) && ReadItems(more) == Some((items, rest))
    ensures ReadItems(first + ("," + more)) == Some(([v] + items, rest))
  {
    Opened(',', more);
  }

  lemma {:induction false} ReadPrintedItems(items: seq<Json>, rest: string)
    requires items != [] && forall x | x in items :: Valid(x)
    ensures ReadItems(Print(items[0]) + (ItemsTail(items[1..]) + rest)) == Some((items, rest))
    decreases items, 0
  {
    hide ReadItems;
    var tail := items[1..];
    Continues(tail, [], rest);
    ReadPrint(items[0], ItemsTail(tail) + rest);
    if tail == [] {
      ItemThenEnd(Print(items[0]), items[0], rest);
      assert items == [items[0]];
    } else {
      ReadPrintedItems(tail, rest);
      Peel(",", Print(tail[0]), ItemsTail(tail[1..]), rest);
      ItemThenMore(Print(items[0]), items[0], Print(tail[0]) + (ItemsTail(tail[1..]) + rest), tail, rest);
      assert items == [items[0]] + tail;
    }
  }

  lemma ReadKeyed(key: string, v: Json, inner: string, rest: string)
    requires ReadValue(inner) == Some((v, rest))
    ensures ReadMember(['\"'] + (EscapeTail(key) + ([':'] + inner))) == Some((Member(key, v), rest))
  {
    hide ReadValue;
    hide ReadString;
    Opened(':', inner);
    Opened('\"', EscapeTail(key) + ([':'] + inner));
    ReadEscaped(key, [':'] + inner);
  }

  lemma EntryText(m: Member, rest: string)
    ensures Entry(m) + rest == ['\"'] + (EscapeTail(m.key) + ([':'] + (Print(m.value) + rest)))
  {
    Peel(Quote(m.key), ":", Print(m.value), rest);
    Concat("\"", EscapeTail(m.key), ":" + (Print(m.value) + rest));
  }

  lemma MemberThenEnd(first: string, m: Member, rest: string)
    requires ReadMember(first + ("}" + rest)) == Some((m, "}" + rest))
    ensures ReadMembers(first + ("}" + rest)) == Some(([m], rest))
  {
    Opened('}', rest);
  }

  lemma MemberThenMore(first: string, m: Member, more: string, members: seq<Member>, rest: string)
    requires ReadMember(first + ("," + more)) == Some((m, "," + more)) && ReadMembers(more) == Some((members, rest))
    ensures ReadMembers(first + ("," + more)) == Some(([m] + members, rest))
  {
    Opened(',', more);
  }

  lemma {:induction false} ReadPrintedMembers(members: seq<Member>, rest: string)
    requires members != [] && forall m | m in members :: Valid(m.value)
    ensures ReadMembers(Entry(members[0]) + (MembersTail(members[1..]) + rest)) == Some((members, rest))
    decreases members, 0
  {
    hide ReadMembers;
    hide ReadMember;
    var m, tail := members[0], members[1..];
    Continues([], tail, rest);
    ReadPrint(m.value, MembersTail(tail) + rest);
    ReadKeyed(m.key, m.value, Print(m.value) + (MembersTail(tail) + rest), MembersTail(tail) + rest);
    EntryText(m, MembersTail(tail) + rest);
    if tail == [] {
      MemberThenEnd(Entry(m), m, rest);
      assert members == [m];
    } else {
      ReadPrintedMembers(tail, rest);
      Peel(",", Entry(tail[0]), MembersTail(tail[1..]), rest);
      MemberThenMore(Entry(m), m, Entry(tail[0]) + (MembersTail(tail[1..]) + rest), tail, rest);
      assert members == [m] + tail;
    }
  }

  /** The canonical text is JSON: read back, it is the value with its keys sorted. */
  lemma CanonicalReads(v: Value)
    ensures ReadValue(Text(v)) == Some((Canonical(v), ""))
    ensures Equal(v, Canonical(v), true)
  {
    CanonicalValid(v);
    ReadPrint(Canonical(v), "");
    assert Text(v) + "" == Text(v);
    CanonicalIsEqual(v);
  }

  lemma SortedSize(members: seq<Member>)
    ensures |Canonical(Object(members)).members| == |members|
  {
    var x := CanonicalMembers(members);
    SortMultiset(x, ByName());
    assert |multiset(StableSort(x, ByName()))| == |multiset(x)|;
  }

  lemma CanonicalHas(members: seq<Member>, m: Member)
    requires Valid(Object(members)) && m in members
    ensures Get(Canonical(Object(members)).members, m.key) == Some(Canonical(m.value))
  {
    var x := CanonicalMembers(members);
    CanonicalValid(Object(members));
    var i :| 0 <= i < |members| && members[i] == m;
    assert x[i] == Member(m.key, Canonical(m.value));
    SortElements(x, ByName());
    GetMember(StableSort(x, ByName()), x[i]);
  }

  lemma {:induction false} CanonicalIsEqual(v: Json)
    requires Valid(v)
    ensures Equal(v, Canonical(v), true)
  {
    match v
    case Array(items) =>
      forall i | 0 <= i < |items| ensures Equal(items[i], CanonicalItems(items)[i], true) {
        CanonicalIsEqual(items[i]);
      }
    case Object(members) =>
      SortedSize(members);
      forall m | m in members
        ensures var found := Get(Canonical(v).members, m.key);
                found.Some? && Equal(m.value, found.value, true)
      {
        CanonicalHas(members, m);
        CanonicalIsEqual(m.value);
      }
    case _ =>
  }
}
