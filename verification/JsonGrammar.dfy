/** JSON text read by RFC 8259 alone, and the round trip of the compact printer through that reading. */
module JsonGrammar {
  import opened Prelude
  import opened Sorting
  import opened Jsons
  import opened JsonPrint
  import opened JsonReading
  import Decimals

  // ---- Strings: section 7 ----

  /** The character that a two-character escape stands for. */
  function EscapeOf(c: char): Option<char> {
    match c
    case '"' => Some('"')
    case '\\' => Some('\\')
    case '/' => Some('/')
    case 'b' => Some('\U{0008}')
    case 'f' => Some('\U{000C}')
    case 'n' => Some('\U{000A}')
    case 'r' => Some('\U{000D}')
    case 't' => Some('\U{0009}')
    case _ => None
  }

  function HexOf(c: char): Option<nat> {
    if '0' <= c <= '9' then Some(c as int - '0' as int)
    else if 'a' <= c <= 'f' then Some(c as int - 'a' as int + 10)
    else if 'A' <= c <= 'F' then Some(c as int - 'A' as int + 10)
    else None
  }

  /** The number that four hexadecimal digits spell. */
  function FourHex(s: string): Option<nat>
    requires |s| == 4
  {
    var a, b, c, d := HexOf(s[0]), HexOf(s[1]), HexOf(s[2]), HexOf(s[3]);
    if a.None? || b.None? || c.None? || d.None? then None
    else Some(a.value * 4096 + b.value * 256 + c.value * 16 + d.value)
  }

  /** One character, plain or escaped, and the text after it; two escapes may spell one character by its surrogates. */
  function ReadChar(s: string): (r: Option<(char, string)>)
    ensures r.Some? ==> |r.value.1| < |s|
  {
    if s == "" || s[0] as int < 0x20 || s[0] == '"' then None
    else if s[0] != '\\' then Some((s[0], s[1..]))
    else if |s| < 2 then None
    else if s[1] != 'u' then
      match EscapeOf(s[1]) case None => None case Some(c) => Some((c, s[2..]))
    else if |s| < 6 then None
    else
      match FourHex(s[2..6])
      case None => None
      case Some(n) =>
        if 0 <= n < 0xD800 || 0xE000 <= n < 0x1_0000 then Some((n as char, s[6..]))
        else if n >= 0xDC00 || |s| < 12 || s[6] != '\\' || s[7] != 'u' then None
        else
          match FourHex(s[8..12])
          case None => None
          case Some(m) =>
            if !(0xDC00 <= m < 0xE000) then None
            else Some(((0x1_0000 + (n - 0xD800) * 0x400 + (m - 0xDC00)) as char, s[12..]))
  }

  /** The rest of a string after its opening quotation mark. */
  function ReadChars(s: string): (r: Option<(string, string)>)
    ensures r.Some? ==> |r.value.1| < |s|
    decreases |s|
  {
    if s == "" then None
    else if s[0] == '"' then Some(("", s[1..]))
    else
      match ReadChar(s)
      case None => None
      case Some((c, rest)) =>
        match ReadChars(rest)
        case None => None
        case Some((text, after)) => Some(([c] + text, after))
  }

  // ---- Values: sections 2 to 6 ----

  function SkipSpace(s: string): (r: string)
    ensures |r| <= |s|
  {
    if s != "" && (s[0] == ' ' || s[0] == '\t' || s[0] == '\n' || s[0] == '\r') then SkipSpace(s[1..]) else s
  }

  /** The length of the characters at the front that can belong to a number. */
  function NumberLength(s: string): (n: nat)
    ensures n <= |s|
  {
    if s != "" && IsNumberChar(s[0]) then 1 + NumberLength(s[1..]) else 0
  }

  function ReadNumber(s: string): (r: Option<(Json, string)>)
    ensures r.Some? ==> |r.value.1| < |s|
  {
    var n := NumberLength(s);
    if Decimals.IsNumber(s[..n]) then
      NumberIsSome(s[..n]);
      Some((Num(s[..n]), s[n..]))
    else None
  }

  lemma NumberIsSome(s: string)
    requires Decimals.IsNumber(s)
    ensures s != ""
  {
    NumberChars(s);
  }

  function ReadValue(s: string): (r: Option<(Json, string)>)
    ensures r.Some? ==> |r.value.1| < |s|
    decreases |s|, 2
  {
    var t := SkipSpace(s);
    if t == "" then None
    else if "null" <= t then Some((Null, t[4..]))
    else if "true" <= t then Some((Bool(true), t[4..]))
    else if "false" <= t then Some((Bool(false), t[5..]))
    else if t[0] == '"' then
      match ReadChars(t[1..]) case None => None case Some((text, rest)) => Some((Text(text), rest))
    else if t[0] == '[' then
      var u := SkipSpace(t[1..]);
      if u != "" && u[0] == ']' then Some((Arr([]), u[1..]))
      else match ReadItems(u) case None => None case Some((items, rest)) => Some((Arr(items), rest))
    else if t[0] == '{' then
      var u := SkipSpace(t[1..]);
      if u != "" && u[0] == '}' then Some((Obj([]), u[1..]))
      else match ReadMembers(u) case None => None case Some((members, rest)) => Some((Obj(members), rest))
    else ReadNumber(t)
  }

  /** At least one value, up to the closing bracket. */
  function ReadItems(s: string): (r: Option<(seq<Json>, string)>)
    ensures r.Some? ==> |r.value.1| < |s|
    decreases |s|, 3
  {
    match ReadValue(s)
    case None => None
    case Some((item, rest)) =>
      var t := SkipSpace(rest);
      if t == "" then None
      else if t[0] == ']' then Some(([item], t[1..]))
      else if t[0] != ',' then None
      else match ReadItems(t[1..]) case None => None case Some((items, after)) => Some(([item] + items, after))
  }

  /** At least one member, up to the closing brace. */
  function ReadMembers(s: string): (r: Option<(seq<Named<Json>>, string)>)
    ensures r.Some? ==> |r.value.1| < |s|
    decreases |s|, 3
  {
    var t := SkipSpace(s);
    if t == "" || t[0] != '"' then None
    else
      match ReadChars(t[1..])
      case None => None
      case Some((name, afterName)) =>
        var colon := SkipSpace(afterName);
        if colon == "" || colon[0] != ':' then None
        else
          match ReadValue(colon[1..])
          case None => None
          case Some((value, rest)) =>
            var u := SkipSpace(rest);
            if u == "" then None
            else if u[0] == '}' then Some(([Named(name, value)], u[1..]))
            else if u[0] != ',' then None
            else
              match ReadMembers(u[1..])
              case None => None
              case Some((members, after)) => Some(([Named(name, value)] + members, after))
  }

  /** A whole text. */
  function ReadText(s: string): Option<Json> {
    match ReadValue(s)
    case None => None
    case Some((j, rest)) => if SkipSpace(rest) == "" then Some(j) else None
  }

  // ---- Quotation is read back ----

  lemma HexDigitIsRead(n: nat)
    requires n < 16
    ensures HexOf(HexDigit(n)) == Some(n)
  {
  }

  lemma QuotedCharIsRead(c: char, rest: string)
    ensures QuoteChar(c)[0] != '"' && ReadChar(QuoteChar(c) + rest) == Some((c, rest))
  {
    var s := QuoteChar(c) + rest;
    if |QuoteChar(c)| == 6 {
      HexDigitIsRead(c as int / 16);
      HexDigitIsRead(c as int % 16);
      assert s[2..6] == ['0', '0', HexDigit(c as int / 16), HexDigit(c as int % 16)];
      assert s[6..] == rest;
    } else if |QuoteChar(c)| == 2 {
      assert s[2..] == rest;
    } else {
      assert s[1..] == rest;
    }
  }

  /** Every text is read back from its quotation, whatever follows it. */
  lemma {:induction false} QuotationIsRead(text: string, rest: string)
    ensures ReadChars(QuoteChars(text) + "\"" + rest) == Some((text, rest))
  {
    hide QuoteChar, ReadChar;
    if text == "" {
      assert QuoteChars(text) + "\"" + rest == "\"" + rest && ("\"" + rest)[1..] == rest;
    } else {
      var more := QuoteChars(text[1..]) + "\"" + rest;
      QuotationIsRead(text[1..], rest);
      QuotedCharIsRead(text[0], more);
      assert QuoteChars(text) + "\"" + rest == QuoteChar(text[0]) + more;
      assert text == [text[0]] + text[1..];
    }
  }

  // ---- So is every value from its compact print ----

  /** What a print was read as: a tree of the same meaning, and the text after it. */
  predicate ReadsBack(read: Option<(Json, string)>, j: Json, rest: string) {
    read.Some? && read.value.1 == rest && MeaningOf(read.value.0, Source) == MeaningOf(j, Source)
  }

  /** A number ends where no character of a number follows. */
  predicate Ends(j: Json, rest: string) { j.Num? && rest != "" ==> !IsNumberChar(rest[0]) }

  lemma {:induction false} NumberIsMeasured(source: string, rest: string)
    requires AllNumberChars(source) && (rest != "" ==> !IsNumberChar(rest[0]))
    ensures NumberLength(source + rest) == |source|
  {
    if source != "" {
      NumberIsMeasured(source[1..], rest);
      assert (source + rest)[1..] == source[1..] + rest;
    } else {
      assert source + rest == rest;
    }
  }

  lemma NumberIsRead(source: NumberText, rest: string)
    requires rest != "" ==> !IsNumberChar(rest[0])
    ensures ReadNumber(source + rest) == Some((Num(source), rest))
    ensures var c := (source + rest)[0];
            c != ' ' && c != '\t' && c != '\n' && c != '\r' && c != '"' && c != '[' && c != '{'
                                         && c != 'n' && c != 't' && c != 'f'
  {
    NumberChars(source);
    NumberIsMeasured(source, rest);
    assert (source + rest)[..|source|] == source && (source + rest)[|source|..] == rest;
  }

  lemma NoSpace(s: string)
    requires s != "" && s[0] != ' ' && s[0] != '\t' && s[0] != '\n' && s[0] != '\r'
    ensures SkipSpace(s) == s
  {
  }

  lemma ScalarIsRead(j: Json, rest: string)
    requires !j.Arr? && !j.Obj? && Ends(j, rest)
    ensures ReadsBack(ReadValue(Encode(j) + rest), j, rest)
  {
    hide ReadItems, ReadMembers, Quote, ReadNumber;
    var t := Encode(j) + rest;
    match j
    case Null => assert t == "null" + rest && t[4..] == rest;
    case Bool(true) => assert t == "true" + rest && t[4..] == rest;
    case Bool(false) => assert t == "false" + rest && t[5..] == rest;
    case Text(text) =>
      QuotationIsRead(text, rest);
      QuoteStarts(text, rest);
    case Num(source) => NumberIsRead(source, rest);
  }

  lemma QuoteStarts(text: string, rest: string)
    ensures var t := Quote(text) + rest; t != "" && t[0] == '"' && t[1..] == QuoteChars(text) + "\"" + rest
  {
    assert Quote(text) + rest == "\"" + (QuoteChars(text) + "\"" + rest);
  }

  /** The tail of a list begins with a comma or with its closing bracket. */
  lemma TailStarts(texts: seq<string>, close: char, rest: string)
    ensures var t := Tail(texts, close, rest);
            && t != "" && t[0] == (if texts == [] then close else ',')
            && t[1..] == if texts == [] then rest else Body(texts, close, rest)
  {
  }

  lemma TailEndsNumber(j: Json, texts: seq<string>, close: char, rest: string)
    requires close == ']' || close == '}'
    ensures Ends(j, Tail(texts, close, rest))
  {
    hide Tail;
    TailStarts(texts, close, rest);
  }

  lemma {:induction false} ItemsAreRead(h: nat, items: seq<Json>, rest: string) returns (read: seq<Json>)
    requires items != [] && forall i :: 0 <= i < |items| ==> Valid(items[i]) && Depth(items[i]) < h
    ensures ReadItems(Body(PrintItems(items, Source), ']', rest)) == Some((read, rest))
    ensures |read| == |items| && forall i :: 0 <= i < |items| ==>
              MeaningOf(read[i], Source) == MeaningOf(items[i], Source)
    decreases h, 1, |items|
  {
    hide Print, Body, Tail, ReadValue, MeaningOf, Valid;
    var texts := PrintItems(items, Source);
    assert texts[1..] == PrintItems(items[1..], Source);
    BodyUnfolds(texts, ']', rest);
    var tail := Tail(texts[1..], ']', rest);
    TailEndsNumber(items[0], texts[1..], ']', rest);
    TailStarts(texts[1..], ']', rest);
    ValueIsRead(h - 1, items[0], tail);
    NoSpace(tail);
    var first := ReadValue(Encode(items[0]) + tail).value.0;
    if |items| == 1 {
      read := [first];
    } else {
      var more := ItemsAreRead(h, items[1..], rest);
      read := [first] + more;
    }
  }

  lemma MemberStarts(name: string, value: string, tail: string)
    ensures var t := Quote(name) + (":" + (value + tail));
            && t != "" && t[0] == '"'
            && ReadChars(t[1..]) == Some((name, ":" + (value + tail)))
            && (":" + (value + tail))[1..] == value + tail
  {
    hide QuoteChars, ReadChars;
    QuotationIsRead(name, ":" + (value + tail));
    QuoteStarts(name, ":" + (value + tail));
  }

  lemma {:induction false} MembersAreRead(h: nat, members: seq<Named<Json>>,
                                          rest: string) returns (read: seq<Named<Json>>)
    requires members != [] && forall i :: 0 <= i < |members| ==> Valid(members[i].value) && Depth(members[i].value) < h
    ensures ReadMembers(Body(MemberTexts(PrintMembers(members, Source)), '}', rest)) == Some((read, rest))
    ensures |read| == |members|
    ensures forall i :: 0 <= i < |members| ==>
              read[i].name == members[i].name && MeaningOf(read[i].value, Source) == MeaningOf(members[i].value, Source)
    decreases h, 1, |members|
  {
    hide Print, Body, Tail, ReadValue, MeaningOf, Valid, Quote, ReadChars;
    FirstMember(members, rest);
    var texts := MemberTexts(PrintMembers(members[1..], Source));
    var tail := Tail(texts, '}', rest);
    MemberStarts(members[0].name, Encode(members[0].value), tail);
    NoSpace(Body(MemberTexts(PrintMembers(members, Source)), '}', rest));
    NoSpace(":" + (Encode(members[0].value) + tail));
    TailEndsNumber(members[0].value, texts, '}', rest);
    TailStarts(texts, '}', rest);
    ValueIsRead(h - 1, members[0].value, tail);
    NoSpace(tail);
    var first := Named(members[0].name, ReadValue(Encode(members[0].value) + tail).value.0);
    assert |texts| == |members| - 1;
    if |members| == 1 {
      read := [first];
    } else {
      var more := MembersAreRead(h, members[1..], rest);
      read := [first] + more;
    }
  }

  lemma ArrayText(items: seq<Json>, rest: string)
    ensures Encode(Arr(items)) + rest == "[" + Body(PrintItems(items, Source), ']', rest)
    ensures ("[" + Body(PrintItems(items, Source), ']', rest))[1..] == Body(PrintItems(items, Source), ']', rest)
  {
    hide Body, PrintItems;
    var texts := PrintItems(items, Source);
    JoinIsBody(texts, ']', rest);
    assert Encode(Arr(items)) + rest == "[" + (Join(texts) + [']'] + rest);
  }

  lemma ItemsStart(items: seq<Json>, rest: string)
    ensures var t := Body(PrintItems(items, Source), ']', rest);
            && SkipSpace(t) == t && t != "" && (t[0] == ']' <==> items == []) && (items == [] ==> t[1..] == rest)
  {
    hide Print;
    if items != [] {
      var texts := PrintItems(items, Source);
      hide Body;
      BodyUnfolds(texts, ']', rest);
      EncodeStart(items[0], Tail(texts[1..], ']', rest));
      ValueHasNoSpace(items[0], Tail(texts[1..], ']', rest));
    }
  }

  lemma ValueHasNoSpace(j: Json, rest: string)
    ensures Encode(j) != "" && SkipSpace(Encode(j) + rest) == Encode(j) + rest
  {
    if j.Num? { NumberChars(j.source); }
  }

  lemma SameItems(a: seq<Json>, b: seq<Json>)
    requires |a| == |b| && forall i :: 0 <= i < |a| ==> MeaningOf(a[i], Source) == MeaningOf(b[i], Source)
    ensures MeaningOf(Arr(a), Source) == MeaningOf(Arr(b), Source)
  {
    assert MeaningOf(Arr(a), Source).items == MeaningOf(Arr(b), Source).items;
  }

  lemma {:induction false} SameMembers(a: seq<Named<Json>>, b: seq<Named<Json>>)
    requires |a| == |b|
    requires forall i :: 0 <= i < |a| ==>
               a[i].name == b[i].name && MeaningOf(a[i].value, Source) == MeaningOf(b[i].value, Source)
    ensures MembersMeaning(a, Source) == MembersMeaning(b, Source)
  {
    hide MeaningOf;
    if a != [] { SameMembers(a[..|a| - 1], b[..|b| - 1]); }
  }

  lemma SortedIsSame(members: seq<Named<Json>>)
    requires DistinctNames(members)
    ensures MembersMeaning(Sort(members), Source) == MembersMeaning(members, Source)
    ensures DistinctNames(Sort(members))
  {
    SortKeeps(members);
    SortedIsDistinct(Sort(members));
    hide MeaningOf, Sort, MembersMeaning, NamesOf;
    var x, y := MembersMeaning(Sort(members), Source), MembersMeaning(members, Source);
    forall name | name in x
      ensures name in y && x[name] == y[name]
    {
      var e := EntryNamed(Sort(members), name);
      EntryMeans(Sort(members), e);
      EntryMeans(members, e);
    }
    forall name | name in y
      ensures name in x
    {
      var e := EntryNamed(members, name);
      EntryMeans(Sort(members), e);
    }
  }

  lemma EntryMeans(members: seq<Named<Json>>, e: Named<Json>)
    requires DistinctNames(members) && e in members
    ensures var meaning := MembersMeaning(members, Source);
            e.name in meaning && meaning[e.name] == MeaningOf(e.value, Source)
  {
    hide MeaningOf, MembersMeaning, NamesOf;
    MembersAt(members, Source);
    var i :| 0 <= i < |members| && members[i] == e;
  }

  lemma EntryNamed(members: seq<Named<Json>>, name: string) returns (e: Named<Json>)
    requires DistinctNames(members) && name in MembersMeaning(members, Source)
    ensures e in members && e.name == name
  {
    hide MeaningOf, MembersMeaning;
    MembersAt(members, Source);
    var i :| 0 <= i < |members| && NamesOf(members)[i] == name;
    e := members[i];
  }

  lemma SortedIsDistinct(s: seq<Named<Json>>)
    requires Ascending(s)
    ensures DistinctNames(s)
  {
    hide Before;
    forall i, j | 0 <= i < j < |s|
      ensures s[i].name != s[j].name
    {
      BeforeIsOrder(s[i].name, s[j].name);
    }
  }

  lemma ArrayIsRead(h: nat, items: seq<Json>, rest: string)
    requires Valid(Arr(items)) && Depth(Arr(items)) <= h
    ensures ReadsBack(ReadValue(Encode(Arr(items)) + rest), Arr(items), rest)
    decreases h, 2
  {
    hide ReadItems, Print, Body, MeaningOf, ReadMembers, ReadNumber;
    ArrayText(items, rest);
    ItemsStart(items, rest);
    if items != [] {
      var read := ItemsAreRead(h, items, rest);
      SameItems(read, items);
    }
  }

  lemma ObjectIsRead(h: nat, members: seq<Named<Json>>, rest: string)
    requires Valid(Obj(members)) && Depth(Obj(members)) <= h
    ensures ReadsBack(ReadValue(Encode(Obj(members)) + rest), Obj(members), rest)
    decreases h, 2
  {
    hide ReadItems, ReadMembers, Print, Body, MembersMeaning, ReadNumber, Sort;
    ObjectBody(members, rest);
    ObjectBrace(members, rest);
    SortKeeps(members);
    SortedIsSame(members);
    var body := Body(MemberTexts(PrintMembers(Sort(members), Source)), '}', rest);
    BodyStart(PrintMembers(Sort(members), Source), rest);
    BodyNoSpace(PrintMembers(Sort(members), Source), rest);
    assert PrintMembers(Sort(members), Source) == [] <==> Sort(members) == [];
    var t := Encode(Obj(members)) + rest;
    NoSpace(t);
    assert t[1..] == body && SkipSpace(body) == body;
    if Sort(members) != [] {
      forall i | 0 <= i < |Sort(members)|
        ensures Valid(Sort(members)[i].value) && Depth(Sort(members)[i].value) < h
      {
        assert Sort(members)[i] in members;
      }
      var read := MembersAreRead(h, Sort(members), rest);
      SameMembers(read, Sort(members));
      assert ReadValue(t) == Some((Obj(read), rest));
    } else {
      assert |members| == |Sort(members)| == 0;
    }
  }

  lemma ObjectBrace(members: seq<Named<Json>>, rest: string)
    ensures Encode(Obj(members)) + rest != "" && (Encode(Obj(members)) + rest)[0] == '{'
  {
  }

  lemma BodyNoSpace(entries: seq<Named<string>>, rest: string)
    ensures SkipSpace(Body(MemberTexts(entries), '}', rest)) == Body(MemberTexts(entries), '}', rest)
  {
    if entries != [] { assert MemberTexts(entries)[0][0] == '"'; }
  }

  lemma {:induction false} ValueIsRead(h: nat, j: Json, rest: string)
    requires Valid(j) && Depth(j) <= h && Ends(j, rest)
    ensures ReadsBack(ReadValue(Encode(j) + rest), j, rest)
    decreases h, 3
  {
    match j
    case Arr(items) => ArrayIsRead(h, items, rest);
    case Obj(members) => ObjectIsRead(h, members, rest);
    case _ => ScalarIsRead(j, rest);
  }

  /** The compact print of every tree is a JSON text, and by the grammar alone it means that tree. */
  lemma PrintIsRead(j: Json)
    requires Valid(j)
    ensures var read := ReadText(Encode(j)); read.Some? && MeaningOf(read.value, Source) == MeaningOf(j, Source)
  {
    hide ReadValue, Print, MeaningOf;
    ValueIsRead(Depth(j), j, "");
    assert Encode(j) + "" == Encode(j);
  }
}
