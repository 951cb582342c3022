/**
 The values that JSON.parse gives, the text that JSON.stringify makes of them, and when that text is a compact print.
 */
module JsonValues {
  import opened Prelude
  import opened Snapshots
  import opened Sorting
  import opened Jsons
  import opened JsonPrint
  import opened JsonReading
  import Decimals

  // ---- JSON.stringify: members in the order in which the object holds them ----

  function Stringify(v: Value): string {
    match v
    case JNull => "null"
    case JBool(b) => if b then "true" else "false"
    case JText(s) => Quote(s)
    case JNum(shown) => shown
    case JArr(items) => "[" + Join(StringifyItems(items)) + "]"
    case JObj(members) => "{" + Join(MemberTexts(StringifyMembers(members))) + "}"
  }

  function StringifyItems(items: seq<Value>): seq<string> {
    seq(|items|, i requires 0 <= i < |items| => Stringify(items[i]))
  }

  function StringifyMembers(members: seq<Named<Value>>): seq<Named<string>> {
    seq(|members|, i requires 0 <= i < |members| => Named(members[i].name, Stringify(members[i].value)))
  }

  // ---- The order of own properties: array indices ascending, then the other names as they were added ----

  predicate IsIndex(name: string) { IsDecimal(name) && DigitsValue(name) < MAX_WORD32 }

  function Rank(name: string): nat { if IsIndex(name) then DigitsValue(name) else MAX_WORD32 }

  /** An object with one more property, of a name that it does not have yet. */
  function OwnPut<T>(s: seq<Named<T>>, e: Named<T>): seq<Named<T>> {
    if s == [] || Rank(s[|s| - 1].name) <= Rank(e.name) then s + [e]
    else OwnPut(s[..|s| - 1], e) + [s[|s| - 1]]
  }

  /** The own properties of an object to which members were added in this order. */
  function OwnOrder<T>(s: seq<Named<T>>): seq<Named<T>> {
    if s == [] then [] else OwnPut(OwnOrder(s[..|s| - 1]), s[|s| - 1])
  }

  ghost predicate InOwnOrder<T(!new)>(s: seq<Named<T>>) {
    forall i, j :: 0 <= i < j < |s| ==> Rank(s[i].name) <= Rank(s[j].name)
  }

  lemma {:induction false} OwnPutKeeps<T(!new)>(s: seq<Named<T>>, e: Named<T>)
    requires InOwnOrder(s)
    ensures InOwnOrder(OwnPut(s, e)) && |OwnPut(s, e)| == |s| + 1
    ensures forall x :: x in OwnPut(s, e) <==> x == e || x in s
  {
    hide Rank;
    if s != [] && Rank(s[|s| - 1].name) > Rank(e.name) {
      var init, last := s[..|s| - 1], s[|s| - 1];
      OwnPutKeeps(init, e);
      var put := OwnPut(init, e);
      forall i | 0 <= i < |put|
        ensures Rank(put[i].name) <= Rank(last.name)
      {
        assert put[i] in put;
      }
      assert forall x :: x in s <==> x in init || x == last;
    }
  }

  /** Members keep their number and are put in own order. */
  lemma {:induction false} OwnOrderKeeps<T(!new)>(s: seq<Named<T>>)
    ensures InOwnOrder(OwnOrder(s)) && |OwnOrder(s)| == |s|
    ensures forall x :: x in OwnOrder(s) <==> x in s
  {
    hide Rank, OwnPut;
    if s != [] {
      OwnOrderKeeps(s[..|s| - 1]);
      OwnPutKeeps(OwnOrder(s[..|s| - 1]), s[|s| - 1]);
      assert s == s[..|s| - 1] + [s[|s| - 1]];
    }
  }

  lemma {:induction false} OrderedIsKept<T(!new)>(s: seq<Named<T>>)
    requires InOwnOrder(s)
    ensures OwnOrder(s) == s
  {
    hide Rank, OwnPut;
    if s != [] {
      var init, last := s[..|s| - 1], s[|s| - 1];
      OrderedIsKept(init);
      PutAtEnd(init, last);
      assert init + [last] == s;
    }
  }

  lemma PutAtEnd<T(!new)>(s: seq<Named<T>>, e: Named<T>)
    requires forall i :: 0 <= i < |s| ==> Rank(s[i].name) <= Rank(e.name)
    ensures OwnPut(s, e) == s + [e]
  {
    hide Rank;
  }

  lemma InOwnOrderByNames<A(!new), B(!new)>(a: seq<Named<A>>, b: seq<Named<B>>)
    requires NamesOf(a) == NamesOf(b)
    ensures InOwnOrder(a) <==> InOwnOrder(b)
  {
    hide Rank;
    assert |a| == |NamesOf(a)| == |b|;
    assert forall i :: 0 <= i < |a| ==> a[i].name == NamesOf(a)[i] == b[i].name;
  }

  // ---- JSON.parse of a compact print ----

  /** What JSON.parse makes of the compact print of a tree; `shown` is the rounding of a number to a double. */
  function ReadOf(j: Json, shown: NumberText -> string): Value {
    match j
    case Null => JNull
    case Bool(b) => JBool(b)
    case Text(s) => JText(s)
    case Num(source) => JNum(shown(source))
    case Arr(items) => JArr(ReadItems(items, shown))
    case Obj(members) => JObj(OwnOrder(Sort(ReadMembers(members, shown))))
  }

  function ReadItems(items: seq<Json>, shown: NumberText -> string): seq<Value> {
    seq(|items|, i requires 0 <= i < |items| => ReadOf(items[i], shown))
  }

  function ReadMembers(members: seq<Named<Json>>, shown: NumberText -> string): seq<Named<Value>> {
    seq(|members|, i requires 0 <= i < |members| => Named(members[i].name, ReadOf(members[i].value, shown)))
  }

  lemma SortedRead(members: seq<Named<Json>>, shown: NumberText -> string)
    ensures Sort(ReadMembers(members, shown)) == ReadMembers(Sort(members), shown)
  {
    hide ReadOf, Sort;
    var read := (j: Json) => ReadOf(j, shown);
    SortMapped(members, read);
    assert ReadMembers(members, shown) == Mapped(members, read);
    assert ReadMembers(Sort(members), shown) == Mapped(Sort(members), read);
  }

  /** What is read depends on the print only: trees that print alike are read alike. */
  lemma {:induction false} ReadDependsOnMeaning(a: Json, b: Json, shown: NumberText -> string)
    requires Valid(a) && Valid(b) && MeaningOf(a, Source) == MeaningOf(b, Source)
    ensures ReadOf(a, shown) == ReadOf(b, shown)
    decreases a
  {
    match a
    case Arr(items) =>
      var others := b.items;
      assert |MeaningOf(a, Source).items| == |MeaningOf(b, Source).items|;
      ArrayMeaning(items, others, Source);
      forall i | 0 <= i < |items|
        ensures ReadOf(items[i], shown) == ReadOf(others[i], shown)
      {
        ReadDependsOnMeaning(items[i], others[i], shown);
      }
      assert ReadItems(items, shown) == ReadItems(others, shown);
    case Obj(members) =>
      var others := b.members;
      forall i, j | 0 <= i < |members| && 0 <= j < |others|
          && MeaningOf(members[i].value, Source) == MeaningOf(others[j].value, Source)
        ensures ReadOf(members[i].value, shown) == ReadOf(others[j].value, shown)
      {
        ReadDependsOnMeaning(members[i].value, others[j].value, shown);
      }
      MembersReadAlike(members, others, shown);
    case _ =>
  }

  lemma MembersReadAlike(a: seq<Named<Json>>, b: seq<Named<Json>>, shown: NumberText -> string)
    requires DistinctNames(a) && DistinctNames(b) && MembersMeaning(a, Source) == MembersMeaning(b, Source)
    requires forall i, j ::
               0 <= i < |a| && 0 <= j < |b| && MeaningOf(a[i].value, Source) == MeaningOf(b[j].value, Source) ==>
               ReadOf(a[i].value, shown) == ReadOf(b[j].value, shown)
    ensures Sort(ReadMembers(a, shown)) == Sort(ReadMembers(b, shown))
  {
    MembersAt(a, Source);
    MembersAt(b, Source);
    NamesAreDistinct(a);
    NamesAreDistinct(b);
    SameNamesSameCount(NamesOf(a), NamesOf(b));
    hide MembersMeaning, MeaningOf, ReadOf, Sort;
    ReadIncluded(a, b, shown);
    ReadIncluded(b, a, shown);
    SortIsCanonical(ReadMembers(a, shown), ReadMembers(b, shown));
  }

  lemma ReadIncluded(a: seq<Named<Json>>, b: seq<Named<Json>>, shown: NumberText -> string)
    requires DistinctNames(a) && DistinctNames(b) && MembersMeaning(a, Source) == MembersMeaning(b, Source)
    requires forall i, j ::
               0 <= i < |a| && 0 <= j < |b| && MeaningOf(a[i].value, Source) == MeaningOf(b[j].value, Source) ==>
               ReadOf(a[i].value, shown) == ReadOf(b[j].value, shown)
    ensures forall x :: x in ReadMembers(a, shown) ==> x in ReadMembers(b, shown)
  {
    MembersAt(a, Source);
    MembersAt(b, Source);
    hide MembersMeaning, MeaningOf, ReadOf;
    forall x | x in ReadMembers(a, shown)
      ensures x in ReadMembers(b, shown)
    {
      var i :| 0 <= i < |a| && x == Named(a[i].name, ReadOf(a[i].value, shown));
      assert NamesOf(a)[i] in NamesOf(b);
      var j :| 0 <= j < |b| && NamesOf(b)[j] == a[i].name;
      assert x == ReadMembers(b, shown)[j];
    }
  }

  // ---- When JSON.stringify writes a compact print ----

  /** The texts with which JSON.stringify shows numbers. */
  predicate IsShown(text: string) { text == "null" || Decimals.IsNumber(text) }

  ghost predicate ShowsNumbers(v: Value) {
    match v
    case JNum(shown) => IsShown(shown)
    case JArr(items) => forall i :: 0 <= i < |items| ==> ShowsNumbers(items[i])
    case JObj(members) => forall i :: 0 <= i < |members| ==> ShowsNumbers(members[i].value)
    case _ => true
  }

  /** A value that spells a tree: numbers as they are written, members in code-unit order. */
  predicate Spells(v: Value, j: Json) {
    match v
    case JNull => j.Null?
    case JBool(b) => j == Bool(b)
    case JText(s) => j == Text(s)
    case JNum(shown) => if shown == "null" then j.Null? else j.Num? && j.source == shown
    case JArr(items) => j.Arr? && |items| == |j.items| && forall i :: 0 <= i < |items| ==> Spells(items[i], j.items[i])
    case JObj(members) => j.Obj? && SpellsMembers(members, Sort(j.members))
  }

  predicate SpellsMembers(members: seq<Named<Value>>, sorted: seq<Named<Json>>) {
    && |members| == |sorted|
    && forall i :: 0 <= i < |members| ==> members[i].name == sorted[i].name && Spells(members[i].value, sorted[i].value)
  }

  lemma {:induction false} SpelledIsEncode(v: Value, j: Json)
    requires Spells(v, j)
    ensures Stringify(v) == Encode(j)
    decreases v
  {
    match v
    case JArr(items) =>
      forall i | 0 <= i < |items|
        ensures Stringify(items[i]) == Encode(j.items[i])
      {
        SpelledIsEncode(items[i], j.items[i]);
      }
      assert StringifyItems(items) == PrintItems(j.items, Source);
    case JObj(members) =>
      var sorted := Sort(j.members);
      forall i | 0 <= i < |members|
        ensures Stringify(members[i].value) == Encode(sorted[i].value)
      {
        SpelledIsEncode(members[i].value, sorted[i].value);
      }
      assert StringifyMembers(members) == PrintMembers(sorted, Source);
      SortCommutes(j.members, Source);
    case _ =>
  }

  /** The first character tells which kind of value was written. */
  lemma StringifyStart(v: Value, x: string)
    requires ShowsNumbers(v)
    ensures Stringify(v) != ""
    ensures var c := (Stringify(v) + x)[0];
            && StartsValue(c)
            && (c == 'n' <==> v.JNull? || v == JNum("null")) && (v == JBool(true) <==> c == 't')
            && (v == JBool(false) <==> c == 'f')
            && (v.JText? <==> c == '"') && (v.JArr? <==> c == '[') && (v.JObj? <==> c == '{')
  {
    if v.JNum? && v.shown != "null" { NumberChars(v.shown); }
  }

  lemma {:induction false} ValueSpells(h: nat, v: Value, j: Json, x: string, y: string)
    requires Depth(j) <= h && ShowsNumbers(v) && Valid(j) && Ends(x) && Ends(y)
    requires Stringify(v) + x == Encode(j) + y
    ensures Spells(v, j) && x == y
    decreases h, 2, 0
  {
    StringifyStart(v, x);
    EncodeStart(j, y);
    match j
    case Null => SameLength("null", x, y);
    case Bool(_) => SameLength(Encode(j), x, y);
    case Text(s) => QuotesDiffer(v.text, s, x, y);
    case Num(source) =>
      assert v.JNum?;
      NumbersDiffer(v.shown, source, x, y);
    case Arr(items) => ArraySpells(h, v.items, items, x, y);
    case Obj(members) => ObjectSpells(h, v.members, members, x, y);
  }

  lemma {:induction false} ArraySpells(h: nat, values: seq<Value>, items: seq<Json>, x: string, y: string)
    requires Depth(Arr(items)) <= h && ShowsNumbers(JArr(values)) && Valid(Arr(items))
    requires Stringify(JArr(values)) + x == Encode(Arr(items)) + y
    ensures Spells(JArr(values), Arr(items)) && x == y
    decreases h, 1, 0
  {
    var s, t := StringifyItems(values), PrintItems(items, Source);
    JoinIsBody(s, ']', x);
    JoinIsBody(t, ']', y);
    assert (Stringify(JArr(values)) + x)[1..] == Join(s) + "]" + x
           && (Encode(Arr(items)) + y)[1..] == Join(t) + "]" + y;
    assert Body(s, ']', x) == Body(t, ']', y);
    if values != [] { StringifyStart(values[0], Tail(s[1..], ']', x)); }
    if items != [] { EncodeStart(items[0], Tail(t[1..], ']', y)); }
    assert values == [] <==> Body(s, ']', x)[0] == ']';
    assert items == [] <==> Body(t, ']', y)[0] == ']';
    if values == [] {
      SameLength("]", x, y);
    } else {
      ItemsSpell(h - 1, values, items, x, y);
    }
  }

  lemma {:induction false} ItemsSpell(h: nat, values: seq<Value>, items: seq<Json>, x: string, y: string)
    requires values != [] && items != []
    requires forall i :: 0 <= i < |items| ==> Depth(items[i]) <= h && Valid(items[i])
    requires forall i :: 0 <= i < |values| ==> ShowsNumbers(values[i])
    requires Body(StringifyItems(values), ']', x) == Body(PrintItems(items, Source), ']', y)
    ensures |values| == |items| && x == y
    ensures forall i :: 0 <= i < |values| ==> Spells(values[i], items[i])
    decreases h, 3, |values|
  {
    var s, t := StringifyItems(values[1..]), PrintItems(items[1..], Source);
    FirstValue(values, x);
    FirstItem(items, y);
    TailEnds(s, ']', x);
    TailEnds(t, ']', y);
    hide Print, Stringify, Spells, Valid, Depth, Body, Tail, ShowsNumbers;
    ValueSpells(h, values[0], items[0], Tail(s, ']', x), Tail(t, ']', y));
    NextBody(s, t, ']', x, y);
    if s != [] {
      ItemsSpell(h, values[1..], items[1..], x, y);
      forall i | 0 <= i < |values|
        ensures Spells(values[i], items[i])
      {
        assert i > 0 ==> values[i] == values[1..][i - 1] && items[i] == items[1..][i - 1];
      }
    }
  }

  lemma FirstValue(values: seq<Value>, x: string)
    requires values != []
    ensures Body(StringifyItems(values), ']', x) == Stringify(values[0]) + Tail(StringifyItems(values[1..]), ']', x)
  {
    hide Stringify;
    assert StringifyItems(values)[1..] == StringifyItems(values[1..]);
  }

  lemma {:induction false} ObjectSpells(h: nat, values: seq<Named<Value>>, members: seq<Named<Json>>, x: string,
                                        y: string)
    requires Depth(Obj(members)) <= h && ShowsNumbers(JObj(values)) && Valid(Obj(members))
    requires Stringify(JObj(values)) + x == Encode(Obj(members)) + y
    ensures Spells(JObj(values), Obj(members)) && x == y
    decreases h, 1, 0
  {
    var sorted := Sort(members);
    SortKeeps(members);
    assert forall i :: 0 <= i < |sorted| ==> sorted[i] in members;
    assert Depth(Obj(members)) == 1 + MembersDepth(members);
    ObjectBody(members, y);
    ValuesBody(values, x);
    hide Print, Stringify, Sort, Depth, Body, ShowsNumbers, Spells;
    if sorted != [] {
      MembersSpell(h - 1, values, sorted, x, y);
    }
    assert SpellsMembers(values, sorted);
    ObjectIsSpelled(values, members);
  }

  lemma ObjectIsSpelled(values: seq<Named<Value>>, members: seq<Named<Json>>)
    requires SpellsMembers(values, Sort(members))
    ensures Spells(JObj(values), Obj(members))
  {
  }

  lemma ValuesBody(values: seq<Named<Value>>, x: string)
    ensures (Stringify(JObj(values)) + x)[1..] == Body(MemberTexts(StringifyMembers(values)), '}', x)
    ensures Body(MemberTexts(StringifyMembers(values)), '}', x)[0] == '}' <==> values == []
    ensures values == [] ==> Body(MemberTexts(StringifyMembers(values)), '}', x)[1..] == x
  {
    var texts := MemberTexts(StringifyMembers(values));
    assert Stringify(JObj(values)) == "{" + Join(texts) + "}";
    hide Stringify, Join, Body, MemberTexts;
    JoinIsBody(texts, '}', x);
    AfterBrace(Join(texts), x);
    BodyStart(StringifyMembers(values), x);
  }

  lemma {:induction false} MembersSpell(h: nat, values: seq<Named<Value>>, members: seq<Named<Json>>, x: string,
                                        y: string)
    requires values != [] && members != []
    requires forall i :: 0 <= i < |members| ==> Depth(members[i].value) <= h && Valid(members[i].value)
    requires forall i :: 0 <= i < |values| ==> ShowsNumbers(values[i].value)
    requires Body(MemberTexts(StringifyMembers(values)), '}', x)
             == Body(MemberTexts(PrintMembers(members, Source)), '}', y)
    ensures SpellsMembers(values, members) && x == y
    decreases h, 3, |values|
  {
    var s, t := MemberTexts(StringifyMembers(values[1..])), MemberTexts(PrintMembers(members[1..], Source));
    FirstNamedValue(values, x);
    FirstMember(members, y);
    TailEnds(s, '}', x);
    TailEnds(t, '}', y);
    hide Print, Stringify, Spells, Valid, Depth, Body, Tail, Quote, ShowsNumbers;
    var u, v := Stringify(values[0].value) + Tail(s, '}', x), Encode(members[0].value) + Tail(t, '}', y);
    QuotesDiffer(values[0].name, members[0].name, ":" + u, ":" + v);
    SameLength(":", u, v);
    ValueSpells(h, values[0].value, members[0].value, Tail(s, '}', x), Tail(t, '}', y));
    NextBody(s, t, '}', x, y);
    if s != [] {
      MembersSpell(h, values[1..], members[1..], x, y);
      forall i | 0 <= i < |values|
        ensures values[i].name == members[i].name && Spells(values[i].value, members[i].value)
      {
        assert i > 0 ==> values[i] == values[1..][i - 1] && members[i] == members[1..][i - 1];
      }
    }
  }

  lemma FirstNamedValue(values: seq<Named<Value>>, x: string)
    requires values != []
    ensures Body(MemberTexts(StringifyMembers(values)), '}', x)
            == Quote(values[0].name) + (":" + (Stringify(values[0].value)
                                               + Tail(MemberTexts(StringifyMembers(values[1..])), '}', x)))
  {
    hide Stringify, Quote, Body, Tail;
    var texts, more := MemberTexts(StringifyMembers(values)), MemberTexts(StringifyMembers(values[1..]));
    assert texts[1..] == more;
    BodyUnfolds(texts, '}', x);
    MemberRegroups(Quote(values[0].name), Stringify(values[0].value), Tail(more, '}', x));
  }

  /** JSON.stringify of a value is the compact print of a tree exactly when the value spells the tree. */
  lemma StringifyIsEncode(v: Value, j: Json)
    requires ShowsNumbers(v) && Valid(j)
    ensures Stringify(v) == Encode(j) <==> Spells(v, j)
  {
    if Stringify(v) == Encode(j) { ValueSpells(Depth(j), v, j, "", ""); }
    if Spells(v, j) { SpelledIsEncode(v, j); }
  }

  // ---- Which trees survive being read and written again ----

  /** Showing a double again gives the same text; one is shown as 1. */
  ghost predicate Rounds(shown: NumberText -> string) {
    && shown("1") == "1"
    && forall s: NumberText :: shown(s) != "null" ==> Decimals.IsNumber(shown(s)) && shown(shown(s)) == shown(s)
  }

  /** Values that JSON.parse can give: doubles, and members of distinct names in own order. */
  ghost predicate IsValue(v: Value, shown: NumberText -> string) {
    match v
    case JNum(text) => exists s: NumberText :: shown(s) == text
    case JArr(items) => forall i :: 0 <= i < |items| ==> IsValue(items[i], shown)
    case JObj(members) => InOwnOrder(members) && forall i :: 0 <= i < |members| ==> IsValue(members[i].value, shown)
    case _ => true
  }

  /** Every number is written as JSON.stringify shows it, and sorted members are in own order. */
  ghost predicate Survives(j: Json, shown: NumberText -> string) {
    match j
    case Num(source) => shown(source) == source
    case Arr(items) => forall i :: 0 <= i < |items| ==> Survives(items[i], shown)
    case Obj(members) => InOwnOrder(Sort(members)) && forall i :: 0 <= i < |members| ==>
        Survives(members[i].value, shown)
    case _ => true
  }

  lemma {:induction false} ValuesShowNumbers(v: Value, shown: NumberText -> string)
    requires Rounds(shown) && IsValue(v, shown)
    ensures ShowsNumbers(v)
    decreases v
  {
    match v
    case JArr(items) =>
      forall i | 0 <= i < |items|
        ensures ShowsNumbers(items[i])
      {
        ValuesShowNumbers(items[i], shown);
      }
    case JObj(members) =>
      forall i | 0 <= i < |members|
        ensures ShowsNumbers(members[i].value)
      {
        ValuesShowNumbers(members[i].value, shown);
      }
    case _ =>
  }

  /** What JSON.parse gives of a compact print is such a value. */
  lemma {:induction false} ReadIsValue(j: Json, shown: NumberText -> string)
    requires Valid(j)
    ensures IsValue(ReadOf(j, shown), shown)
    decreases j
  {
    match j
    case Arr(items) =>
      forall i | 0 <= i < |items|
        ensures IsValue(ReadOf(items[i], shown), shown)
      {
        ReadIsValue(items[i], shown);
      }
    case Obj(members) =>
      forall i | 0 <= i < |members|
        ensures IsValue(ReadOf(members[i].value, shown), shown)
      {
        ReadIsValue(members[i].value, shown);
      }
      MembersAreValues(members, shown);
    case _ =>
  }

  lemma MembersAreValues(members: seq<Named<Json>>, shown: NumberText -> string)
    requires DistinctNames(members) && forall i :: 0 <= i < |members| ==>
               IsValue(ReadOf(members[i].value, shown), shown)
    ensures IsValue(ReadOf(Obj(members), shown), shown)
  {
    var read := ReadMembers(members, shown);
    var own := OwnOrder(Sort(read));
    assert ReadOf(Obj(members), shown) == JObj(own);
    SortKeeps(read);
    OwnOrderKeeps(Sort(read));
    hide ReadOf, Sort, OwnOrder, Rank, IsIndex;
    forall i | 0 <= i < |own|
      ensures IsValue(own[i].value, shown)
    {
      assert own[i] in read;
    }
  }

  /** A tree that some value of JSON.parse spells survives. */
  lemma {:induction false} SpelledSurvives(v: Value, j: Json, shown: NumberText -> string)
    requires Rounds(shown) && IsValue(v, shown) && Valid(j) && Spells(v, j)
    ensures Survives(j, shown)
    decreases v
  {
    match v
    case JArr(items) =>
      forall i | 0 <= i < |items|
        ensures Survives(j.items[i], shown)
      {
        SpelledSurvives(items[i], j.items[i], shown);
      }
    case JObj(members) =>
      var sorted := Sort(j.members);
      SortKeeps(j.members);
      forall i | 0 <= i < |members|
        ensures Survives(sorted[i].value, shown)
      {
        assert sorted[i] in j.members;
        SpelledSurvives(members[i].value, sorted[i].value, shown);
      }
      assert NamesOf(members) == NamesOf(sorted);
      InOwnOrderByNames(members, sorted);
      forall i | 0 <= i < |j.members|
        ensures Survives(j.members[i].value, shown)
      {
        assert j.members[i] in sorted;
      }
    case _ =>
  }

  /** A tree that survives is spelled by what is read of its print. */
  lemma {:induction false} SurvivorIsSpelled(j: Json, shown: NumberText -> string)
    requires Valid(j) && Survives(j, shown)
    ensures Spells(ReadOf(j, shown), j)
    decreases j
  {
    match j
    case Num(source) => NumberChars(source);
    case Arr(items) =>
      forall i | 0 <= i < |items|
        ensures Spells(ReadOf(items[i], shown), items[i])
      {
        SurvivorIsSpelled(items[i], shown);
      }
    case Obj(members) =>
      forall i | 0 <= i < |members|
        ensures Spells(ReadOf(members[i].value, shown), members[i].value)
      {
        SurvivorIsSpelled(members[i].value, shown);
      }
      SurvivingMembers(members, shown);
    case _ =>
  }

  lemma SurvivingMembers(members: seq<Named<Json>>, shown: NumberText -> string)
    requires DistinctNames(members) && InOwnOrder(Sort(members))
    requires forall i :: 0 <= i < |members| ==> Spells(ReadOf(members[i].value, shown), members[i].value)
    ensures Spells(ReadOf(Obj(members), shown), Obj(members))
  {
    hide ReadOf, Sort, OwnOrder, Rank, IsIndex, Spells;
    var sorted := Sort(members);
    var read := ReadMembers(sorted, shown);
    SortKeeps(members);
    forall i | 0 <= i < |read|
      ensures Spells(read[i].value, sorted[i].value)
    {
      assert sorted[i] in members;
    }
    hide Ascending, DistinctNames, Before;
    assert NamesOf(read) == NamesOf(sorted);
    InOwnOrderByNames(read, sorted);
    OrderedIsKept(read);
    ReadObject(members, shown);
    ObjectIsSpelled(read, members);
  }

  lemma ReadObject(members: seq<Named<Json>>, shown: NumberText -> string)
    ensures ReadOf(Obj(members), shown) == JObj(OwnOrder(ReadMembers(Sort(members), shown)))
  {
    SortedRead(members, shown);
  }

  /** Reading a compact print and writing it again gives the same text exactly for the trees that survive. */
  lemma SurvivesExactly(j: Json, shown: NumberText -> string)
    requires Valid(j) && Rounds(shown)
    ensures Stringify(ReadOf(j, shown)) == Encode(j) <==> Survives(j, shown)
  {
    var v := ReadOf(j, shown);
    ReadIsValue(j, shown);
    ValuesShowNumbers(v, shown);
    StringifyIsEncode(v, j);
    if Spells(v, j) { SpelledSurvives(v, j, shown); }
    if Survives(j, shown) { SurvivorIsSpelled(j, shown); }
  }
}
