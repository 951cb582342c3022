/** The compact printers: what they write determines the tree up to member order, and nothing else. */
module JsonPrint {
  import opened Prelude
  import opened Sorting
  import opened Jsons
  import Decimals

  // ---- Strings: section 7 of RFC 8259, with the escapes that JSON.stringify chooses ----

  function HexDigit(n: nat): char
    requires n < 16
  {
    if n < 10 then ('0' as int + n) as char else ('a' as int + n - 10) as char
  }

  function QuoteChar(c: char): (r: string)
    ensures r != ""
  {
    if c == '"' then "\\\""
    else if c == '\\' then "\\\\"
    else if c == '\U{0008}' then "\\b"
    else if c == '\U{000C}' then "\\f"
    else if c == '\n' then "\\n"
    else if c == '\r' then "\\r"
    else if c == '\t' then "\\t"
    else if c as int < 0x20 then ['\\', 'u', '0', '0', HexDigit(c as int / 16), HexDigit(c as int % 16)]
    else [c]
  }

  function QuoteChars(s: string): string {
    if s == "" then "" else QuoteChar(s[0]) + QuoteChars(s[1..])
  }

  function Quote(s: string): string { "\"" + QuoteChars(s) + "\"" }

  // ---- Printing ----

  function Join(texts: seq<string>): string {
    if texts == [] then "" else if |texts| == 1 then texts[0] else texts[0] + "," + Join(texts[1..])
  }

  function MemberTexts(entries: seq<Named<string>>): seq<string> {
    seq(|entries|, i requires 0 <= i < |entries| => Quote(entries[i].name) + ":" + entries[i].value)
  }

  /** Compact text with the members of each object in code-unit order; `number` writes a number. */
  function Print(j: Json, number: NumberText -> string): string {
    match j
    case Null => "null"
    case Bool(b) => if b then "true" else "false"
    case Text(s) => Quote(s)
    case Num(source) => number(source)
    case Arr(items) => "[" + Join(PrintItems(items, number)) + "]"
    case Obj(members) => "{" + Join(MemberTexts(Sort(PrintMembers(members, number)))) + "}"
  }

  function PrintItems(items: seq<Json>, number: NumberText -> string): seq<string> {
    seq(|items|, i requires 0 <= i < |items| => Print(items[i], number))
  }

  function PrintMembers(members: seq<Named<Json>>, number: NumberText -> string): seq<Named<string>> {
    seq(|members|, i requires 0 <= i < |members| => Named(members[i].name, Print(members[i].value, number)))
  }

  function Source(s: NumberText): string { s }

  /** The exact printer: each number as its source text. */
  function Encode(j: Json): string { Print(j, Source) }

  // ---- Member order does not matter ----

  /** Trees of the same exact meaning print alike, whatever writes the numbers. */
  lemma {:induction false} PrintDependsOnMeaning(a: Json, b: Json, number: NumberText -> string)
    requires Valid(a) && Valid(b) && MeaningOf(a, Source) == MeaningOf(b, Source)
    ensures Print(a, number) == Print(b, number)
    decreases a
  {
    match a
    case Arr(items) =>
      var others := b.items;
      assert |MeaningOf(a, Source).items| == |MeaningOf(b, Source).items|;
      ArrayMeaning(items, others, Source);
      forall i | 0 <= i < |items|
        ensures Print(items[i], number) == Print(others[i], number)
      {
        PrintDependsOnMeaning(items[i], others[i], number);
      }
      assert PrintItems(items, number) == PrintItems(others, number);
    case Obj(members) =>
      var others := b.members;
      forall i, j | 0 <= i < |members| && 0 <= j < |others|
          && MeaningOf(members[i].value, Source) == MeaningOf(others[j].value, Source)
        ensures Print(members[i].value, number) == Print(others[j].value, number)
      {
        PrintDependsOnMeaning(members[i].value, others[j].value, number);
      }
      MembersByMeaning(members, others, number);
    case _ =>
  }

  lemma MembersByMeaning(a: seq<Named<Json>>, b: seq<Named<Json>>, number: NumberText -> string)
    requires DistinctNames(a) && DistinctNames(b) && MembersMeaning(a, Source) == MembersMeaning(b, Source)
    requires forall i, j ::
               0 <= i < |a| && 0 <= j < |b| && MeaningOf(a[i].value, Source) == MeaningOf(b[j].value, Source) ==>
               Print(a[i].value, number) == Print(b[j].value, number)
    ensures Sort(PrintMembers(a, number)) == Sort(PrintMembers(b, number))
  {
    MembersAt(a, Source);
    MembersAt(b, Source);
    NamesAreDistinct(a);
    NamesAreDistinct(b);
    SameNamesSameCount(NamesOf(a), NamesOf(b));
    hide MembersMeaning, MeaningOf, Print;
    MembersIncluded(a, b, number);
    MembersIncluded(b, a, number);
    SortIsCanonical(PrintMembers(a, number), PrintMembers(b, number));
  }

  lemma MembersIncluded(a: seq<Named<Json>>, b: seq<Named<Json>>, number: NumberText -> string)
    requires DistinctNames(a) && DistinctNames(b) && MembersMeaning(a, Source) == MembersMeaning(b, Source)
    requires forall i, j ::
               0 <= i < |a| && 0 <= j < |b| && MeaningOf(a[i].value, Source) == MeaningOf(b[j].value, Source) ==>
               Print(a[i].value, number) == Print(b[j].value, number)
    ensures forall x :: x in PrintMembers(a, number) ==> x in PrintMembers(b, number)
  {
    MembersAt(a, Source);
    MembersAt(b, Source);
    hide MembersMeaning, MeaningOf, Print;
    forall x | x in PrintMembers(a, number)
      ensures x in PrintMembers(b, number)
    {
      var i :| 0 <= i < |a| && x == Named(a[i].name, Print(a[i].value, number));
      assert NamesOf(a)[i] in NamesOf(b);
      var j :| 0 <= j < |b| && NamesOf(b)[j] == a[i].name;
      assert x == PrintMembers(b, number)[j];
    }
  }

  // ---- Reading back: strings ----

  lemma QuoteCharsDiffer(a: char, b: char, x: string, y: string)
    requires QuoteChar(a) + x == QuoteChar(b) + y
    ensures a == b && x == y
  {
    var u, v := QuoteChar(a) + x, QuoteChar(b) + y;
    assert QuoteChar(a)[0] == u[0] && QuoteChar(b)[0] == v[0];
    if u[0] == '\\' {
      assert QuoteChar(a)[1] == u[1] && QuoteChar(b)[1] == v[1];
      if u[1] == 'u' {
        assert QuoteChar(a)[4] == u[4] && QuoteChar(a)[5] == u[5] && QuoteChar(b)[4] == v[4] && QuoteChar(b)[5] == v[5];
      }
    }
    assert a == b;
    assert x == u[|QuoteChar(a)|..] && y == v[|QuoteChar(b)|..];
  }

  lemma QuoteStart(s: string, x: string)
    ensures (QuoteChars(s) + "\"" + x)[0] == '"' <==> s == ""
  {
    if s != "" {
      assert (QuoteChars(s) + "\"" + x)[0] == QuoteChar(s[0])[0];
    }
  }

  lemma {:induction false} QuotedDiffer(s: string, t: string, x: string, y: string)
    requires QuoteChars(s) + "\"" + x == QuoteChars(t) + "\"" + y
    ensures s == t && x == y
  {
    hide QuoteChar;
    QuoteStart(s, x);
    QuoteStart(t, y);
    if s == "" {
      assert x == (QuoteChars(s) + "\"" + x)[1..] && y == (QuoteChars(t) + "\"" + y)[1..];
    } else {
      var u, v := QuoteChars(s[1..]) + "\"" + x, QuoteChars(t[1..]) + "\"" + y;
      assert QuoteChars(s) + "\"" + x == QuoteChar(s[0]) + u;
      assert QuoteChars(t) + "\"" + y == QuoteChar(t[0]) + v;
      QuoteCharsDiffer(s[0], t[0], u, v);
      QuotedDiffer(s[1..], t[1..], x, y);
      assert s == [s[0]] + s[1..] && t == [t[0]] + t[1..];
    }
  }

  lemma QuotesDiffer(s: string, t: string, x: string, y: string)
    requires Quote(s) + x == Quote(t) + y
    ensures s == t && x == y
  {
    assert (Quote(s) + x)[1..] == QuoteChars(s) + "\"" + x;
    assert (Quote(t) + y)[1..] == QuoteChars(t) + "\"" + y;
    QuotedDiffer(s, t, x, y);
  }

  // ---- Reading back: numbers ----

  predicate IsNumberChar(c: char) { IsDigit(c) || c == '-' || c == '+' || c == '.' || c == 'e' || c == 'E' }

  predicate AllNumberChars(s: string) { forall i :: 0 <= i < |s| ==> IsNumberChar(s[i]) }

  lemma PowerChars(power: Option<Decimals.Power>)
    requires Decimals.IsPower(power)
    ensures AllNumberChars(Decimals.PowerText(power))
  {
    if power.Some? { assert forall i :: 0 <= i < |power.value.digits| ==> IsDigit(power.value.digits[i]); }
  }

  lemma FractionChars(fraction: Option<string>)
    requires Decimals.IsFraction(fraction)
    ensures AllNumberChars(Decimals.FractionText(fraction))
  {
    if fraction.Some? { assert forall i :: 0 <= i < |fraction.value| ==> IsDigit(fraction.value[i]); }
  }

  lemma NumberCharsAppend(a: string, b: string)
    requires AllNumberChars(a) && AllNumberChars(b)
    ensures AllNumberChars(a + b)
  {
  }

  lemma NumberChars(s: NumberText)
    ensures AllNumberChars(s) && s != "" && (IsDigit(s[0]) || s[0] == '-')
  {
    Decimals.MatchedIsInGrammar(s);
    var n := Decimals.Match(s).value;
    FractionChars(n.fraction);
    PowerChars(n.power);
    assert IsDigit(n.whole[0]) && AllNumberChars(n.whole);
    hide Decimals.Match, Decimals.FractionText, Decimals.PowerText, Decimals.IsFraction, Decimals.IsPower, IsDecimal,
         AllNumberChars;
    NumberCharsAppend(Decimals.FractionText(n.fraction), Decimals.PowerText(n.power));
    NumberCharsAppend(n.whole, Decimals.FractionText(n.fraction) + Decimals.PowerText(n.power));
    MinusChar();
    NumberCharsAppend(if n.negative then "-" else "", Decimals.UnsignedText(n));
  }

  lemma MinusChar()
    ensures AllNumberChars("-") && AllNumberChars("")
  {
  }

  /** What may follow a value inside a compact text. */
  predicate Ends(x: string) { x == "" || x[0] == ',' || x[0] == ']' || x[0] == '}' }

  lemma NumberIsMaximal(a: NumberText, b: NumberText, x: string, y: string)
    requires a + x == b + y && Ends(x)
    ensures |a| >= |b|
  {
    NumberChars(b);
    var u := a + x;
    assert |u| > |a| ==> u[|a|] == x[0];
    assert forall i :: 0 <= i < |b| ==> (b + y)[i] == b[i];
  }

  lemma NumbersDiffer(a: NumberText, b: NumberText, x: string, y: string)
    requires a + x == b + y && Ends(x) && Ends(y)
    ensures a == b && x == y
  {
    NumberIsMaximal(a, b, x, y);
    NumberIsMaximal(b, a, y, x);
    assert a == (a + x)[..|a|] && b == (b + y)[..|b|] && x == (a + x)[|a|..] && y == (b + y)[|b|..];
  }
}
