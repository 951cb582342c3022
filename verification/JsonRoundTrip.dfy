/** The scanner finds in a compact print exactly what was printed. */
module JsonRoundTrip {
  import opened Prelude
  import opened Sorting
  import opened Jsons
  import opened JsonPrint
  import opened JsonReading
  import opened JsonScanner

  // ---- White space outside strings ----

  /** The two-flag scan: whether white space occurs outside strings. */
  function OuterSpace(s: string, inString: bool, escaped: bool): bool {
    if s == "" then false
    else if inString then OuterSpace(s[1..], escaped || s[0] != '"', !escaped && s[0] == '\\')
    else if s[0] == '"' then OuterSpace(s[1..], true, false)
    else IsSpace(s[0]) || OuterSpace(s[1..], false, false)
  }

  method JsonHasOuterWhitespace(value: string) returns (found: bool)
    ensures found == OuterSpace(value, false, false)
  {
    var inString, escaped := false, false;
    for i := 0 to |value|
      invariant inString || !escaped
      invariant OuterSpace(value[i..], inString, escaped) == OuterSpace(value, false, false)
    {
      assert value[i..][1..] == value[i + 1..];
      var character := value[i];
      if inString {
        if escaped {
          escaped := false;
        } else if character == '\\' {
          escaped := true;
        } else if character == '"' {
          inString := false;
        }
      } else if character == '"' {
        inString := true;
      } else if IsSpace(character) {
        return true;
      }
    }
    found := false;
  }

  // ---- Texts that the scans pass over ----

  /** Inside a bracket the bracket count passes over the text; outside strings so does the search for white space. */
  predicate PassesOver(t: string, rest: string, depth: nat) {
    && (depth >= 1 ==> NestedLength(t + rest, depth) == Plus(|t|, NestedLength(rest, depth)))
    && OuterSpace(t + rest, false, false) == OuterSpace(rest, false, false)
  }

  ghost predicate Passes(t: string) {
    (forall rest: string, depth: nat :: PassesOver(t, rest, depth)) && '\n' !in t
  }

  lemma PassesAppend(a: string, b: string)
    requires Passes(a) && Passes(b)
    ensures Passes(a + b)
  {
    forall rest: string, depth: nat
      ensures PassesOver(a + b, rest, depth)
    {
      assert a + b + rest == a + (b + rest);
      assert PassesOver(a, b + rest, depth) && PassesOver(b, rest, depth);
    }
  }

  predicate IsPlain(c: char) { c != '"' && c != '{' && c != '}' && c != '[' && c != ']' && c != '\n' && !IsSpace(c) }

  lemma PlainPasses(c: char)
    requires IsPlain(c)
    ensures Passes([c])
  {
    forall rest: string, depth: nat
      ensures PassesOver([c], rest, depth)
    {
      assert ([c] + rest)[1..] == rest;
    }
  }

  lemma NothingPasses()
    ensures Passes("")
  {
    forall rest: string, depth: nat
      ensures PassesOver("", rest, depth)
    {
      assert "" + rest == rest;
    }
  }

  lemma {:induction false} AllPlainPasses(t: string)
    requires forall i :: 0 <= i < |t| ==> IsPlain(t[i])
    ensures Passes(t)
  {
    if t == "" {
      NothingPasses();
    } else {
      PlainPasses(t[0]);
      AllPlainPasses(t[1..]);
      PassesAppend([t[0]], t[1..]);
      assert [t[0]] + t[1..] == t;
    }
  }

  // ---- Strings ----

  lemma QuoteCharScans(c: char, rest: string)
    ensures StringLength(QuoteChar(c) + rest, false) == Plus(|QuoteChar(c)|, StringLength(rest, false))
    ensures OuterSpace(QuoteChar(c) + rest, true, false) == OuterSpace(rest, true, false)
    ensures '\n' !in QuoteChar(c)
  {
    hide StringLength, OuterSpace;
    var q := QuoteChar(c);
    if |q| == 1 {
      OnePlain(q[0], rest);
    } else {
      assert q + rest == ['\\', q[1]] + (q[2..] + rest);
      EscapeScans(q[1], q[2..] + rest);
      if |q| == 6 { FourPlain(q[2..], rest); } else { assert q[2..] + rest == rest; }
    }
  }

  lemma EscapeScans(e: char, rest: string)
    ensures StringLength(['\\', e] + rest, false) == Plus(2, StringLength(rest, false))
    ensures OuterSpace(['\\', e] + rest, true, false) == OuterSpace(rest, true, false)
  {
    assert (['\\', e] + rest)[1..] == [e] + rest && ([e] + rest)[1..] == rest;
  }

  lemma FourPlain(q: string, rest: string)
    requires |q| == 4 && forall i :: 0 <= i < 4 ==> q[i] != '"' && q[i] != '\\'
    ensures StringLength(q + rest, false) == Plus(4, StringLength(rest, false))
    ensures OuterSpace(q + rest, true, false) == OuterSpace(rest, true, false)
  {
    hide StringLength, OuterSpace;
    OnePlain(q[0], q[1..] + rest);
    OnePlain(q[1], q[2..] + rest);
    OnePlain(q[2], q[3..] + rest);
    OnePlain(q[3], rest);
    assert q + rest == [q[0]] + (q[1..] + rest) && q[1..] + rest == [q[1]] + (q[2..] + rest);
    assert q[2..] + rest == [q[2]] + (q[3..] + rest) && q[3..] + rest == [q[3]] + rest;
  }

  lemma OnePlain(c: char, rest: string)
    requires c != '"' && c != '\\'
    ensures StringLength([c] + rest, false) == Plus(1, StringLength(rest, false))
    ensures OuterSpace([c] + rest, true, false) == OuterSpace(rest, true, false)
  {
    assert ([c] + rest)[1..] == rest;
  }

  lemma {:induction false} QuotedScans(t: string, rest: string)
    ensures StringLength(QuoteChars(t) + "\"" + rest, false) == Some(|QuoteChars(t)| + 1)
    ensures OuterSpace(QuoteChars(t) + "\"" + rest, true, false) == OuterSpace(rest, false, false)
    ensures '\n' !in QuoteChars(t)
  {
    hide QuoteChar;
    if t == "" {
      assert QuoteChars(t) + "\"" + rest == "\"" + rest && ("\"" + rest)[1..] == rest;
    } else {
      var more := QuoteChars(t[1..]) + "\"" + rest;
      assert QuoteChars(t) + "\"" + rest == QuoteChar(t[0]) + more;
      QuoteCharScans(t[0], more);
      QuotedScans(t[1..], rest);
    }
  }

  lemma QuotePasses(t: string)
    ensures Passes(Quote(t))
  {
    forall rest: string, depth: nat
      ensures PassesOver(Quote(t), rest, depth)
    {
      var s := Quote(t) + rest;
      assert s[1..] == QuoteChars(t) + "\"" + rest;
      QuotedScans(t, rest);
      assert s[1 + (|QuoteChars(t)| + 1)..] == rest;
    }
    QuotedScans(t, "");
  }

  // ---- Values ----

  lemma BracketsPass(open: char, t: string, close: char)
    requires Passes(t) && (open == '{' || open == '[') && (close == '}' || close == ']')
    ensures Passes([open] + t + [close])
    ensures forall rest: string :: InBrackets(open, t, close, rest)
  {
    forall rest: string, depth: nat
      ensures PassesOver([open] + t + [close], rest, depth)
    {
      BracketsScan(open, t, close, rest, depth);
    }
    forall rest: string
      ensures InBrackets(open, t, close, rest)
    {
      BracketsScan(open, t, close, rest, 0);
    }
  }

  /** A bracketed text is measured up to its closing bracket. */
  predicate InBrackets(open: char, t: string, close: char, rest: string) {
    NestedLength([open] + t + [close] + rest, 0) == Some(|t| + 2)
  }

  lemma BracketsScan(open: char, t: string, close: char, rest: string, depth: nat)
    requires Passes(t) && (open == '{' || open == '[') && (close == '}' || close == ']')
    ensures PassesOver([open] + t + [close], rest, depth)
    ensures depth == 0 ==> InBrackets(open, t, close, rest)
  {
    var s := [open] + t + [close] + rest;
    var after := [close] + rest;
    assert s[1..] == t + after && after[1..] == rest;
    assert PassesOver(t, after, depth + 1);
    hide Passes;
    assert NestedLength(s, depth) == Plus(1, NestedLength(t + after, depth + 1));
  }

  lemma LiteralPasses(t: string)
    requires t == "null" || t == "true" || t == "false" || t == "," || t == ":"
    ensures Passes(t)
  {
    AllPlainPasses(t);
  }

  lemma NumberPasses(source: NumberText)
    ensures Passes(source)
  {
    NumberChars(source);
    forall i | 0 <= i < |source|
      ensures IsPlain(source[i])
    {
      NumberCharIsPlain(source[i]);
    }
    AllPlainPasses(source);
  }

  lemma NumberCharIsPlain(c: char)
    requires IsNumberChar(c)
    ensures IsPlain(c)
  {
  }

  lemma {:induction false} JoinPasses(texts: seq<string>)
    requires forall i :: 0 <= i < |texts| ==> Passes(texts[i])
    ensures Passes(Join(texts))
  {
    hide Passes;
    if texts == [] {
      NothingPasses();
    } else if |texts| > 1 {
      JoinPasses(texts[1..]);
      LiteralPasses(",");
      PassesAppend(texts[0], ",");
      PassesAppend(texts[0] + ",", Join(texts[1..]));
    }
  }

  lemma MembersPass(entries: seq<Named<string>>)
    requires forall i :: 0 <= i < |entries| ==> Passes(entries[i].value)
    ensures Passes(Join(MemberTexts(entries)))
  {
    hide Passes, Quote;
    forall i | 0 <= i < |entries|
      ensures Passes(MemberTexts(entries)[i])
    {
      QuotePasses(entries[i].name);
      LiteralPasses(":");
      PassesAppend(Quote(entries[i].name), ":");
      PassesAppend(Quote(entries[i].name) + ":", entries[i].value);
    }
    JoinPasses(MemberTexts(entries));
  }

  lemma PrintedMembers(members: seq<Named<Json>>)
    requires DistinctNames(members)
    ensures DistinctNames(PrintMembers(members, Source))
    ensures forall i :: 0 <= i < |Sort(PrintMembers(members, Source))| ==>
              PrintsMember(Sort(PrintMembers(members, Source))[i], members)
  {
    hide Print, Sort;
    SortKeeps(PrintMembers(members, Source));
    var sorted := Sort(PrintMembers(members, Source));
    forall i | 0 <= i < |sorted|
      ensures PrintsMember(sorted[i], members)
    {
      assert sorted[i] in PrintMembers(members, Source);
      var k :| 0 <= k < |members| && PrintMembers(members, Source)[k] == sorted[i];
      assert members[k].name == sorted[i].name;
    }
  }

  predicate PrintsMember(entry: Named<string>, members: seq<Named<Json>>) {
    exists k :: 0 <= k < |members| && members[k].name == entry.name && Encode(members[k].value) == entry.value
  }

  /** Every compact print passes: no white space outside its strings, no newline at all, and balanced brackets. */
  lemma {:induction false} EncodePasses(j: Json)
    requires Valid(j)
    ensures Passes(Encode(j))
    decreases j
  {
    hide Passes;
    match j
    case Text(s) => QuotePasses(s);
    case Num(source) => NumberPasses(source);
    case Arr(items) =>
      forall i | 0 <= i < |items|
        ensures Passes(PrintItems(items, Source)[i])
      {
        EncodePasses(items[i]);
      }
      JoinPasses(PrintItems(items, Source));
      BracketsPass('[', Join(PrintItems(items, Source)), ']');
    case Obj(members) =>
      forall i | 0 <= i < |members|
        ensures Passes(Encode(members[i].value))
      {
        EncodePasses(members[i].value);
      }
      ObjectPasses(members);
    case Null => LiteralPasses("null");
    case Bool(b) => LiteralPasses(if b then "true" else "false");
  }

  lemma ObjectPasses(members: seq<Named<Json>>)
    requires DistinctNames(members) && forall i :: 0 <= i < |members| ==> Passes(Encode(members[i].value))
    ensures Passes(Join(MemberTexts(Sort(PrintMembers(members, Source)))))
    ensures Passes(Encode(Obj(members)))
  {
    hide Passes, Print, Sort, Join, MemberTexts;
    var sorted := Sort(PrintMembers(members, Source));
    PrintedMembers(members);
    ObjectText(members);
    forall i | 0 <= i < |sorted|
      ensures Passes(sorted[i].value)
    {
      assert PrintsMember(sorted[i], members);
      var k :| 0 <= k < |members| && members[k].name == sorted[i].name && Encode(members[k].value) == sorted[i].value;
    }
    MembersPass(sorted);
    BracketsPass('{', Join(MemberTexts(sorted)), '}');
  }

  // ---- The length of a printed value ----

  lemma {:induction false} ScalarIs(t: string, rest: string)
    requires forall i :: 0 <= i < |t| ==> t[i] != ',' && t[i] != '}'
    requires rest != "" && (rest[0] == ',' || rest[0] == '}')
    ensures ScalarLength(t + rest) == |t|
  {
    if t == "" {
      assert t + rest == rest;
    } else {
      assert (t + rest)[1..] == t[1..] + rest;
      ScalarIs(t[1..], rest);
    }
  }

  /** Before a comma or a closing brace, the scanner measures a printed value exactly. */
  lemma ValueIsMeasured(j: Json, rest: string)
    requires Valid(j) && rest != "" && (rest[0] == ',' || rest[0] == '}')
    ensures ValueLength(Encode(j) + rest) == Some(|Encode(j)|)
  {
    EncodeStart(j, rest);
    var s := Encode(j) + rest;
    match j
    case Text(t) =>
      assert s[1..] == QuoteChars(t) + "\"" + rest;
      QuotedScans(t, rest);
    case Arr(items) =>
      EncodePasses(j);
      ArrayIsMeasured(items, rest);
    case Obj(members) =>
      ObjectIsMeasured(members, rest);
    case Num(source) =>
      NumberChars(source);
      ScalarIs(source, rest);
    case Null => ScalarIs("null", rest);
    case Bool(b) => ScalarIs(Encode(j), rest);
  }

  lemma ArrayIsMeasured(items: seq<Json>, rest: string)
    requires Valid(Arr(items))
    ensures NestedLength(Encode(Arr(items)) + rest, 0) == Some(|Encode(Arr(items))|)
  {
    var texts := PrintItems(items, Source);
    forall i | 0 <= i < |items|
      ensures Passes(texts[i])
    {
      EncodePasses(items[i]);
    }
    hide Passes, Print;
    JoinPasses(texts);
    BracketsPass('[', Join(texts), ']');
    assert InBrackets('[', Join(texts), ']', rest);
  }

  lemma ObjectIsMeasured(members: seq<Named<Json>>, rest: string)
    requires Valid(Obj(members))
    ensures NestedLength(Encode(Obj(members)) + rest, 0) == Some(|Encode(Obj(members))|)
  {
    forall i | 0 <= i < |members|
      ensures Passes(Encode(members[i].value))
    {
      EncodePasses(members[i].value);
    }
    ObjectPasses(members);
    var text := Join(MemberTexts(Sort(PrintMembers(members, Source))));
    hide Passes, Sort, Join;
    BracketsPass('{', text, '}');
    assert InBrackets('{', text, '}', rest);
  }

  // ---- The round trip ----

  lemma EntryIsRead(accepts: Accepts, name: string, j: Json, rest: string)
    requires Valid(j) && accepts(Encode(j)) && rest != "" && (rest[0] == ',' || rest[0] == '}')
    ensures FirstEntry(accepts, Quote(name) + ":" + Encode(j) + rest) == Some((Named(name, Encode(j)), rest))
  {
    var s, n := Quote(name) + ":" + Encode(j) + rest, |QuoteChars(name)| + 1;
    hide Print, ValueLength, Unquote, StringLength, QuoteChars, FirstEntry;
    QuotedScans(name, ":" + Encode(j) + rest);
    assert s[1..] == QuoteChars(name) + "\"" + (":" + Encode(j) + rest);
    assert s[..1 + n] == Quote(name) && s[1 + n] == ':' && s[2 + n..] == Encode(j) + rest;
    UnquoteIsInverse(s[..1 + n], name);
    ValueIsMeasured(j, rest);
    assert s[2 + n..][..|Encode(j)|] == Encode(j) && s[2 + n + |Encode(j)|..] == rest;
    FirstEntryIs(accepts, s, name, n, |Encode(j)|);
  }

  lemma FirstEntryIs(accepts: Accepts, s: string, name: string, n: nat, m: nat)
    requires s != "" && s[0] == '"' && StringLength(s[1..], false) == Some(n) && Unquote(s[..1 + n]) == Some(name)
    requires 1 + n < |s| && s[1 + n] == ':' && ValueLength(s[2 + n..]) == Some(m) && accepts(s[2 + n..][..m])
    ensures FirstEntry(accepts, s) == Some((Named(name, s[2 + n..][..m]), s[2 + n + m..]))
  {
    hide ValueLength, Unquote, StringLength, Quote;
  }

  lemma {:induction false} EntriesAreRead(accepts: Accepts, members: seq<Named<Json>>)
    requires members != []
    requires forall i :: 0 <= i < |members| ==> Valid(members[i].value) && accepts(Encode(members[i].value))
    ensures EntriesFrom(accepts, Join(MemberTexts(PrintMembers(members, Source))) + "}")
            == Some(PrintMembers(members, Source))
  {
    hide Print, FirstEntry, Quote, Join, MemberTexts;
    var entries := PrintMembers(members, Source);
    var name, value := members[0].name, members[0].value;
    var more := PrintMembers(members[1..], Source);
    assert entries == [Named(name, Encode(value))] + more;
    JoinMembers(entries[0], more);
    var rest := if more == [] then "}" else "," + (Join(MemberTexts(more)) + "}");
    var text := Quote(name) + ":" + Encode(value);
    var s := Join(MemberTexts(entries)) + "}";
    assert s == text + rest by { Reassociate(text, Join(MemberTexts(more))); }
    EntryIsRead(accepts, name, value, rest);
    QuoteIsLong(name);
    EntriesUnfold(accepts, s, entries[0], rest);
    if more != [] {
      assert rest[0] == ',' && rest[1..] == Join(MemberTexts(more)) + "}";
      EntriesAreRead(accepts, members[1..]);
    } else {
      assert [entries[0]] + more == [entries[0]];
    }
  }

  lemma QuoteIsLong(name: string)
    ensures |Quote(name)| >= 2
  {
  }

  lemma EntriesUnfold(accepts: Accepts, s: string, entry: Named<string>, rest: string)
    requires |s| > 1 && FirstEntry(accepts, s) == Some((entry, rest)) && rest != ""
    ensures EntriesFrom(accepts, s)
            == if rest == "}" then Some([entry]) else if rest[0] != ',' then None
               else Followed([entry], EntriesFrom(accepts, rest[1..]))
  {
    hide FirstEntry;
  }

  /**
   The scanner applied to the compact print of an object returns exactly its sorted keys with their printed values,
   provided JSON.parse accepts those values.
   */
  lemma CompactRoundTrip(accepts: Accepts, members: seq<Named<Json>>)
    requires Valid(Obj(members)) && forall i :: 0 <= i < |members| ==> accepts(Encode(members[i].value))
    ensures CompactEntries(accepts, Encode(Obj(members))) == Some(PrintMembers(Sort(members), Source))
    ensures Ascending(PrintMembers(Sort(members), Source)) && forall e :: e in Sort(members) <==> e in members
  {
    hide Print, Sort, EntriesFrom, Join, MemberTexts;
    SortKeeps(members);
    SortCommutes(members, Source);
    ObjectText(members);
    var sorted := Sort(members);
    var entries := PrintMembers(sorted, Source);
    var text := Join(MemberTexts(entries));
    StartOfMembers(entries);
    if sorted != [] {
      forall i | 0 <= i < |sorted|
        ensures Valid(sorted[i].value) && accepts(Encode(sorted[i].value))
      {
        assert sorted[i] in members;
      }
      EntriesAreRead(accepts, sorted);
    }
    BracedEntries(accepts, text);
  }

  lemma BracedEntries(accepts: Accepts, text: string)
    ensures CompactEntries(accepts, "{" + text + "}")
            == if (text + "}")[0] == '}' then Some([]) else EntriesFrom(accepts, text + "}")
  {
    hide EntriesFrom;
    var s := "{" + text + "}";
    assert s[1..] == text + "}" && s[1] == (text + "}")[0] && s[|s| - 1] == '}';
  }

  lemma StartOfMembers(entries: seq<Named<string>>)
    ensures (Join(MemberTexts(entries)) + "}")[0] == '}' <==> entries == []
    ensures entries == [] ==> Join(MemberTexts(entries)) == ""
  {
    if entries != [] { assert MemberTexts(entries)[0][0] == '"'; }
  }
}
