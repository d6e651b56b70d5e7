/** `filter_headers`: which headers are removed before an interaction is stored. */
module HeaderFilter {
  import opened GlobMatching
  import opened Matching
  import opened Protocol
  import S = Sorting

  predicate IsPlain(entry: string) {
    '*' !in entry && !("!" <= entry)
  }

  predicate Plain(filtered: seq<string>) {
    forall entry | entry in filtered :: IsPlain(entry)
  }

  /** Some plain entry is the name, up to ASCII case. */
  predicate Listed(name: string, filtered: seq<string>) {
    exists k :: 0 <= k < |filtered| && EqIgnoreAsciiCase(filtered[k], name)
  }

  predicate Names(entry: string, name: string) {
    !("!" <= entry) && Glob(entry, name, false)
  }

  predicate Spares(entry: string, name: string) {
    "!" <= entry && Glob(entry[1..], name, false)
  }

  /** No entry names the header, or an entry starting with `!` spares it. */
  predicate Spared(name: string, filtered: seq<string>) {
    (exists k :: 0 <= k < |filtered| && Spares(filtered[k], name)) ||
    !exists k :: 0 <= k < |filtered| && Names(filtered[k], name)
  }

  function Lowered(entries: seq<string>, table: map<char, string>): (r: seq<string>)
    ensures |r| == |entries| && forall k :: 0 <= k < |r| ==> r[k] == ToLower(entries[k], table)
  {
    seq(|entries|, k requires 0 <= k < |entries| => ToLower(entries[k], table))
  }

  predicate Stays(name: string, filtered: seq<string>, table: map<char, string>) {
    if Plain(filtered) then !Listed(name, filtered) else Spared(ToLower(name, table), Lowered(filtered, table))
  }

  function Staying(filtered: seq<string>, table: map<char, string>): Header -> bool {
    (h: Header) => Stays(h.name, filtered, table)
  }

  method AllPlain(filtered: seq<string>) returns (plain: bool)
    ensures plain <==> Plain(filtered)
  {
    for k := 0 to |filtered|
      invariant forall j :: 0 <= j < k ==> IsPlain(filtered[j])
    {
      if '*' in filtered[k] || "!" <= filtered[k] {
        assert filtered[k] in filtered;
        return false;
      }
    }
    return true;
  }

  method IsListed(name: string, filtered: seq<string>) returns (listed: bool)
    ensures listed <==> Listed(name, filtered)
  {
    for k := 0 to |filtered|
      invariant forall j :: 0 <= j < k ==> !EqIgnoreAsciiCase(filtered[j], name)
    {
      if EqIgnoreAsciiCase(filtered[k], name) {
        return true;
      }
    }
    return false;
  }

  method IsSpared(name: string, filtered: seq<string>) returns (kept: bool)
    ensures kept <==> Spared(name, filtered)
  {
    var named, spared := false, false;
    for k := 0 to |filtered|
      invariant named <==> exists j :: 0 <= j < k && Names(filtered[j], name)
      invariant spared <==> exists j :: 0 <= j < k && Spares(filtered[j], name)
    {
      var entry := filtered[k];
      var hit := GlobMatch(if "!" <= entry then entry[1..] else entry, name);
      if "!" <= entry {
        spared := spared || hit;
      } else {
        named := named || hit;
      }
    }
    return spared || !named;
  }

  /** Keeps, in their order, exactly the headers that stay. */
  method FilterHeaders(headers: seq<Header>, filtered: seq<string>, table: map<char, string>) returns (kept: seq<Header>)
    ensures kept == S.Filter(headers, Staying(filtered, table))
  {
    kept := [];
    var plain := AllPlain(filtered);
    for i := 0 to |headers|
      invariant kept == S.Filter(headers[..i], Staying(filtered, table))
    {
      var stays;
      if plain {
        var listed := IsListed(headers[i].name, filtered);
        stays := !listed;
      } else {
        stays := IsSpared(ToLower(headers[i].name, table), Lowered(filtered, table));
      }
      FilterNext(headers, i, Staying(filtered, table));
      if stays {
        kept := kept + [headers[i]];
      }
    }
    assert headers[..|headers|] == headers;
  }

  lemma FilterNext(headers: seq<Header>, i: nat, p: Header -> bool)
    requires i < |headers|
    ensures S.Filter(headers[..i + 1], p) == S.Filter(headers[..i], p) + if p(headers[i]) then [headers[i]] else []
  {
    assert headers[..i + 1] == headers[..i] + [headers[i]];
    S.FilterSnoc(headers[..i], headers[i], p);
  }

  // --- What stays, told from the entries ---

  ghost predicate Marked(entry: string) {
    entry != "" && entry[0] == '!'
  }

  /** Entry `k`, in lower case, is a pattern for the name; after its mark, if it has one. */
  ghost predicate Hits(filtered: seq<string>, k: nat, name: string, table: map<char, string>) {
    k < |filtered| &&
    var entry := ToLower(filtered[k], table);
    Glob(if Marked(entry) then entry[1..] else entry, ToLower(name, table), false)
  }

  /** Entries without stars and marks remove the headers they name up to ASCII case. Otherwise all are patterns in lower
      case, and a header stays if a marked one hits it or no other does. */
  lemma StaysIff(name: string, filtered: seq<string>, table: map<char, string>)
    ensures if forall k :: 0 <= k < |filtered| ==> '*' !in filtered[k] && !Marked(filtered[k])
            then Stays(name, filtered, table) <==> forall k :: 0 <= k < |filtered| ==> !EqIgnoreAsciiCase(filtered[k], name)
            else Stays(name, filtered, table) <==>
                 || (exists k: nat :: Hits(filtered, k, name, table) && Marked(ToLower(filtered[k], table)))
                 || !(exists k: nat :: Hits(filtered, k, name, table) && !Marked(ToLower(filtered[k], table)))
  {
    var lowered, low := Lowered(filtered, table), ToLower(name, table);
    PlainIff(filtered);
    forall k: nat | k < |filtered|
      ensures Spares(lowered[k], low) <==> Hits(filtered, k, name, table) && Marked(ToLower(filtered[k], table))
      ensures Names(lowered[k], low) <==> Hits(filtered, k, name, table) && !Marked(ToLower(filtered[k], table))
    {
      MarkIff(lowered[k]);
    }
  }

  lemma MarkIff(entry: string)
    ensures "!" <= entry <==> Marked(entry)
  {}

  lemma PlainIff(filtered: seq<string>)
    ensures Plain(filtered) <==> forall k :: 0 <= k < |filtered| ==> '*' !in filtered[k] && !Marked(filtered[k])
  {
    forall k | 0 <= k < |filtered| && Plain(filtered) ensures IsPlain(filtered[k]) {
      assert filtered[k] in filtered;
    }
    forall entry | entry in filtered ensures "!" <= entry <==> Marked(entry) {
      MarkIff(entry);
    }
  }

  // --- What entries with stars and exclamation marks do ---

  lemma {:induction false} LowerAppend(a: string, b: string, table: map<char, string>)
    ensures ToLower(a + b, table) == ToLower(a, table) + ToLower(b, table)
  {
    if a == "" {
      assert a + b == b;
    } else {
      assert (a + b)[1..] == a[1..] + b;
      LowerAppend(a[1..], b, table);
      S.Concat(LowerChar(a[0], table), ToLower(a[1..], table), ToLower(b, table));
    }
  }

  lemma LowerOne(c: char, table: map<char, string>)
    requires c as int < 128
    ensures ToLower([c], table) == [AsciiLower(c)]
  {
    assert [c][1..] == "";
  }

  /** The single entry `p*` removes exactly the headers whose names start with `p`, in any letter case. */
  lemma PrefixEntryRemoves(p: string, name: string, table: map<char, string>)
    requires '*' !in ToLower(p, table) && !("!" <= ToLower(p, table) + "*")
    ensures Stays(name, [p + "*"], table) <==> !(ToLower(p, table) <= ToLower(name, table))
  {
    var filtered, low := [p + "*"], ToLower(name, table);
    LowerAppend(p, "*", table);
    LowerOne('*', table);
    assert filtered[0] in filtered && filtered[0][|p|] == '*';
    assert !Plain(filtered);
    assert Lowered(filtered, table)[0] == ToLower(p, table) + "*";
    GlobLiteral(ToLower(p, table), "*", low);
    if ToLower(p, table) <= low {
      AnythingEnds(low[|ToLower(p, table)|..], false);
    }
  }

  /** An entry `!q` spares the header `q` and no other from an entry that removes everything. */
  lemma ExclamationSpares(q: string, name: string, table: map<char, string>)
    requires '*' !in ToLower(q, table)
    ensures Stays(name, ["*", "!" + q], table) <==> ToLower(name, table) == ToLower(q, table)
  {
    var filtered, low := ["*", "!" + q], ToLower(name, table);
    assert !IsPlain("*") && filtered[0] in filtered;
    LoweredMark(q, table);
    assert Lowered(filtered, table) == ["*", "!" + ToLower(q, table)];
    AllBut(ToLower(q, table), low);
  }

  lemma LoweredMark(q: string, table: map<char, string>)
    ensures ToLower("!" + q, table) == "!" + ToLower(q, table) && ToLower("*", table) == "*"
  {
    LowerAppend("!", q, table);
    LowerOne('!', table);
    LowerOne('*', table);
  }

  lemma AllBut(q: string, low: string)
    requires '*' !in q
    ensures Spared(low, ["*", "!" + q]) <==> low == q
  {
    var entries, spare := ["*", "!" + q], "!" + q;
    AnythingEnds(low, false);
    PlainGlob(q, low);
    assert spare[1..] == q;
    assert Names(entries[0], low) && !Spares(entries[0], low);
    assert Spares(entries[1], low) <==> q == low;
  }

  // --- The branch for plain entries ---

  /** Without a star a pattern matches its own text only. */
  lemma {:induction false} PlainGlob(pattern: string, name: string)
    requires '*' !in pattern
    ensures Glob(pattern, name, false) <==> pattern == name
  {
    if pattern != "" {
      if name != "" {
        PlainGlob(pattern[1..], name[1..]);
        assert pattern == [pattern[0]] + pattern[1..] && name == [name[0]] + name[1..];
      }
    }
  }

  /** What holds of Unicode lower-casing: no character vanishes or turns into a star, nor into text that begins with an
      exclamation mark. */
  ghost predicate Tame(table: map<char, string>) {
    forall c | c in table :: table[c] != "" && '*' !in table[c] && !("!" <= table[c])
  }

  /** Some entry is the name in lower case. */
  ghost predicate LowersAlike(name: string, filtered: seq<string>, table: map<char, string>) {
    exists k :: 0 <= k < |filtered| && ToLower(filtered[k], table) == ToLower(name, table)
  }

  /** Lower-casing invents no star and no leading mark, so a plain entry stays plain. */
  lemma {:induction false} LoweredPlain(entry: string, table: map<char, string>)
    requires Tame(table) && '*' !in entry
    ensures '*' !in ToLower(entry, table)
    ensures "!" <= ToLower(entry, table) ==> "!" <= entry
  {
    if entry != "" {
      LoweredPlain(entry[1..], table);
      var head := LowerChar(entry[0], table);
      assert entry[0] in entry && '*' !in head;
      assert ToLower(entry, table) == head + ToLower(entry[1..], table) && head[0] == ToLower(entry, table)[0];
    }
  }

  lemma ListedLowersAlike(name: string, filtered: seq<string>, table: map<char, string>)
    requires Listed(name, filtered)
    ensures LowersAlike(name, filtered, table)
  {
    var k :| 0 <= k < |filtered| && EqIgnoreAsciiCase(filtered[k], name);
    EqualLowersAlike(filtered[k], name, table);
  }

  /** What the general branch would do with plain entries: compare in lower case. */
  lemma PlainSpared(name: string, filtered: seq<string>, table: map<char, string>)
    requires Tame(table) && Plain(filtered)
    ensures Spared(ToLower(name, table), Lowered(filtered, table)) <==> !LowersAlike(name, filtered, table)
  {
    var lowered, low := Lowered(filtered, table), ToLower(name, table);
    forall k | 0 <= k < |filtered|
      ensures !Spares(lowered[k], low) && (Names(lowered[k], low) <==> lowered[k] == low)
    {
      assert IsPlain(filtered[k]) by { assert filtered[k] in filtered; }
      LoweredPlain(filtered[k], table);
      PlainGlob(lowered[k], low);
    }
  }

  /** The short cut for plain entries keeps what the general branch would keep, exactly when an entry that is the
      name in lower case comes with one that is it up to ASCII case. */
  lemma ShortCutAgreesIff(name: string, filtered: seq<string>, table: map<char, string>)
    requires Tame(table) && Plain(filtered)
    ensures (Listed(name, filtered) <==> !Spared(ToLower(name, table), Lowered(filtered, table))) <==>
            (LowersAlike(name, filtered, table) ==> Listed(name, filtered))
  {
    PlainSpared(name, filtered, table);
    if Listed(name, filtered) {
      ListedLowersAlike(name, filtered, table);
    }
  }

  lemma AsciiNeedsNoTable(s: string, table: map<char, string>)
    requires AsciiText(s)
    ensures ToLower(s, table) == ToLower(s, map[])
  {
    AsciiLowered(s, table);
    AsciiLowered(s, map[]);
  }

  /** So they agree on all names and entries in ASCII, whatever the table. */
  lemma ShortCutAgrees(name: string, filtered: seq<string>, table: map<char, string>)
    requires AsciiText(name) && Plain(filtered) && forall entry | entry in filtered :: AsciiText(entry)
    ensures Listed(name, filtered) <==> !Spared(ToLower(name, table), Lowered(filtered, table))
  {
    AsciiNeedsNoTable(name, table);
    forall k | 0 <= k < |filtered| ensures ToLower(filtered[k], table) == ToLower(filtered[k], map[]) {
      assert filtered[k] in filtered;
      AsciiNeedsNoTable(filtered[k], table);
    }
    assert Lowered(filtered, table) == Lowered(filtered, map[]);
    ShortCutAgreesIff(name, filtered, map[]);
    if LowersAlike(name, filtered, map[]) {
      var k :| 0 <= k < |filtered| && ToLower(filtered[k], map[]) == ToLower(name, map[]);
      assert filtered[k] in filtered;
      AsciiLowersAlike(filtered[k], name, map[]);
    }
  }

  /** Beyond ASCII it need not: the Kelvin sign is lower-cased to `k`, which the ASCII comparison tells apart. */
  lemma ShortCutDiffers(table: map<char, string>)
    requires '\U{212A}' in table && table['\U{212A}'] == "k"
    ensures Plain(["\U{212A}"]) && !Listed("k", ["\U{212A}"])
    ensures !Spared(ToLower("k", table), Lowered(["\U{212A}"], table))
  {
    var entries := ["\U{212A}"];
    assert entries[0][1..] == "" && "k"[1..] == "";
    assert ToLower(entries[0], table) == "k" && ToLower("k", table) == "k";
    PlainGlob("k", "k");
    assert Names(Lowered(entries, table)[0], "k");
  }
}
