/** Compact text has one reading: equal texts come from trees of equal exact meaning. */
module JsonReading {
  import opened Prelude
  import opened Sorting
  import opened Jsons
  import opened JsonPrint

  // ---- Depth, the measure of the readings below ----

  function Depth(j: Json): nat {
    match j
    case Arr(items) => 1 + ItemsDepth(items)
    case Obj(members) => 1 + MembersDepth(members)
    case _ => 0
  }

  function ItemsDepth(items: seq<Json>): (d: nat)
    ensures forall i :: 0 <= i < |items| ==> Depth(items[i]) <= d
  {
    if items == [] then 0
    else
      var d, last := ItemsDepth(items[..|items| - 1]), Depth(items[|items| - 1]);
      assert forall i :: 0 <= i < |items| - 1 ==> items[i] == items[..|items| - 1][i];
      if d < last then last else d
  }

  function MembersDepth(members: seq<Named<Json>>): (d: nat)
    ensures forall i :: 0 <= i < |members| ==> Depth(members[i].value) <= d
  {
    if members == [] then 0
    else
      var d, last := MembersDepth(members[..|members| - 1]), Depth(members[|members| - 1].value);
      assert forall i :: 0 <= i < |members| - 1 ==> members[i] == members[..|members| - 1][i];
      if d < last then last else d
  }

  // ---- Sorting the printed members prints the sorted members ----

  lemma SortCommutes(s: seq<Named<Json>>, number: NumberText -> string)
    ensures PrintMembers(Sort(s), number) == Sort(PrintMembers(s, number))
  {
    hide Print, Sort;
    var text := (j: Json) => Print(j, number);
    SortMapped(s, text);
    assert PrintMembers(s, number) == Mapped(s, text);
    assert PrintMembers(Sort(s), number) == Mapped(Sort(s), text);
  }

  // ---- The text of a list, element by element ----

  function Body(texts: seq<string>, close: char, rest: string): string
    decreases |texts|, 0
  {
    if texts == [] then [close] + rest else texts[0] + Tail(texts[1..], close, rest)
  }

  /** What follows one element: the end of the list, or a comma and the next element. */
  function Tail(texts: seq<string>, close: char, rest: string): string
    decreases |texts|, 1
  {
    if texts == [] then [close] + rest else "," + Body(texts, close, rest)
  }

  lemma {:induction false} JoinIsBody(texts: seq<string>, close: char, rest: string)
    ensures Join(texts) + [close] + rest == Body(texts, close, rest)
  {
    if |texts| > 1 {
      JoinIsBody(texts[1..], close, rest);
      assert Join(texts) + [close] + rest == texts[0] + ("," + (Join(texts[1..]) + [close] + rest));
    } else if |texts| == 1 {
      assert Join(texts) + [close] + rest == texts[0] + ([close] + rest);
    } else {
      assert Join(texts) + [close] + rest == [close] + rest;
    }
  }

  // ---- First characters ----

  predicate StartsValue(c: char) { c != ',' && c != ']' && c != '}' }

  /** The first character tells which kind of value follows. */
  lemma EncodeStart(j: Json, x: string)
    ensures Encode(j) != ""
    ensures var c := (Encode(j) + x)[0];
            && StartsValue(c)
            && (j.Null? <==> c == 'n') && (j == Bool(true) <==> c == 't') && (j == Bool(false) <==> c == 'f')
            && (j.Text? <==> c == '"') && (j.Arr? <==> c == '[') && (j.Obj? <==> c == '{')
  {
    if j.Num? { NumberChars(j.source); }
  }

  // ---- One reading ----

  lemma {:induction false} TreesDiffer(h: nat, a: Json, b: Json, x: string, y: string)
    requires Depth(a) <= h && Valid(a) && Valid(b) && Ends(x) && Ends(y)
    requires Encode(a) + x == Encode(b) + y
    ensures MeaningOf(a, Source) == MeaningOf(b, Source) && x == y
    decreases h, 2, 0
  {
    EncodeStart(a, x);
    EncodeStart(b, y);
    match a
    case Null => SameLength(Encode(a), x, y);
    case Bool(_) => SameLength(Encode(a), x, y);
    case Text(s) => QuotesDiffer(s, b.text, x, y);
    case Num(source) =>
      assert b.Num?;
      NumbersDiffer(source, b.source, x, y);
    case Arr(items) => ArraysDiffer(h, items, b.items, x, y);
    case Obj(members) => ObjectsDiffer(h, members, b.members, x, y);
  }

  lemma SameLength(t: string, x: string, y: string)
    requires t + x == t + y
    ensures x == y
  {
    assert x == (t + x)[|t|..] && y == (t + y)[|t|..];
  }

  lemma {:induction false} ArraysDiffer(h: nat, a: seq<Json>, b: seq<Json>, x: string, y: string)
    requires Depth(Arr(a)) <= h && Valid(Arr(a)) && Valid(Arr(b))
    requires Encode(Arr(a)) + x == Encode(Arr(b)) + y
    ensures MeaningOf(Arr(a), Source) == MeaningOf(Arr(b), Source) && x == y
    decreases h, 1, 0
  {
    var s, t := PrintItems(a, Source), PrintItems(b, Source);
    JoinIsBody(s, ']', x);
    JoinIsBody(t, ']', y);
    assert (Encode(Arr(a)) + x)[1..] == Join(s) + "]" + x && (Encode(Arr(b)) + y)[1..] == Join(t) + "]" + y;
    assert Body(s, ']', x) == Body(t, ']', y);
    if a != [] { EncodeStart(a[0], Tail(s[1..], ']', x)); }
    if b != [] { EncodeStart(b[0], Tail(t[1..], ']', y)); }
    assert a == [] <==> Body(s, ']', x)[0] == ']';
    assert b == [] <==> Body(t, ']', y)[0] == ']';
    if a == [] {
      SameLength("]", x, y);
    } else {
      ItemsDiffer(h - 1, a, b, x, y);
    }
    ArrayMeaning(a, b, Source);
  }

  lemma TailEnds(texts: seq<string>, close: char, rest: string)
    requires close == ']' || close == '}'
    ensures Ends(Tail(texts, close, rest)) && (Tail(texts, close, rest)[0] == ',' <==> texts != [])
  {
  }

  lemma {:induction false} ItemsDiffer(h: nat, a: seq<Json>, b: seq<Json>, x: string, y: string)
    requires a != [] && b != []
    requires forall i :: 0 <= i < |a| ==> Depth(a[i]) <= h && Valid(a[i])
    requires forall i :: 0 <= i < |b| ==> Valid(b[i])
    requires Body(PrintItems(a, Source), ']', x) == Body(PrintItems(b, Source), ']', y)
    ensures |a| == |b| && x == y
    ensures forall i :: 0 <= i < |a| ==> MeaningOf(a[i], Source) == MeaningOf(b[i], Source)
    decreases h, 3, |a|
  {
    var s, t := PrintItems(a[1..], Source), PrintItems(b[1..], Source);
    FirstItem(a, x);
    FirstItem(b, y);
    TailEnds(s, ']', x);
    TailEnds(t, ']', y);
    hide Print, MeaningOf, Valid, Depth, Body, Tail;
    TreesDiffer(h, a[0], b[0], Tail(s, ']', x), Tail(t, ']', y));
    NextBody(s, t, ']', x, y);
    if s != [] {
      ItemsDiffer(h, a[1..], b[1..], x, y);
      forall i | 0 <= i < |a|
        ensures MeaningOf(a[i], Source) == MeaningOf(b[i], Source)
      {
        assert i > 0 ==> a[i] == a[1..][i - 1] && b[i] == b[1..][i - 1];
      }
    }
  }

  lemma FirstItem(a: seq<Json>, x: string)
    requires a != []
    ensures Body(PrintItems(a, Source), ']', x) == Encode(a[0]) + Tail(PrintItems(a[1..], Source), ']', x)
  {
    hide Print;
    assert PrintItems(a, Source)[1..] == PrintItems(a[1..], Source);
  }

  lemma NextBody(s: seq<string>, t: seq<string>, close: char, x: string, y: string)
    requires close == ']' || close == '}'
    requires Tail(s, close, x) == Tail(t, close, y)
    ensures s == [] <==> t == []
    ensures s == [] ==> x == y
    ensures s != [] ==> Body(s, close, x) == Body(t, close, y)
  {
    TailEnds(s, close, x);
    TailEnds(t, close, y);
    hide Body;
    if s == [] {
      SameLength([close], x, y);
    } else {
      SameLength(",", Body(s, close, x), Body(t, close, y));
    }
  }

  lemma {:induction false} ObjectsDiffer(h: nat, a: seq<Named<Json>>, b: seq<Named<Json>>, x: string, y: string)
    requires Depth(Obj(a)) <= h && Valid(Obj(a)) && Valid(Obj(b))
    requires Encode(Obj(a)) + x == Encode(Obj(b)) + y
    ensures MeaningOf(Obj(a), Source) == MeaningOf(Obj(b), Source) && x == y
    decreases h, 1, 0
  {
    var u, v := Sort(a), Sort(b);
    SortKeeps(a);
    SortKeeps(b);
    assert forall i :: 0 <= i < |u| ==> u[i] in a;
    assert forall i :: 0 <= i < |v| ==> v[i] in b;
    assert Depth(Obj(a)) == 1 + MembersDepth(a);
    ObjectBody(a, x);
    ObjectBody(b, y);
    hide Print, MeaningOf, Sort, Depth, Body;
    if u != [] {
      MembersDiffer(h - 1, u, v, x, y);
    }
    hide MembersMeaning;
    assert MembersMeaning(a, Source) == MembersMeaning(b, Source) by { SortedMeaning(a, b); }
    ObjectMeaning(a, b);
  }

  lemma ObjectMeaning(a: seq<Named<Json>>, b: seq<Named<Json>>)
    requires MembersMeaning(a, Source) == MembersMeaning(b, Source)
    ensures MeaningOf(Obj(a), Source) == MeaningOf(Obj(b), Source)
  {
  }

  /** The text of an object after its brace lists the sorted members. */
  lemma ObjectBody(a: seq<Named<Json>>, x: string)
    requires DistinctNames(a)
    ensures (Encode(Obj(a)) + x)[1..] == Body(MemberTexts(PrintMembers(Sort(a), Source)), '}', x)
    ensures Body(MemberTexts(PrintMembers(Sort(a), Source)), '}', x)[0] == '}' <==> Sort(a) == []
    ensures Sort(a) == [] ==> Body(MemberTexts(PrintMembers(Sort(a), Source)), '}', x)[1..] == x
  {
    hide Print, Sort, Join, Body, MemberTexts;
    SortCommutes(a, Source);
    ObjectText(a);
    var texts := MemberTexts(PrintMembers(Sort(a), Source));
    JoinIsBody(texts, '}', x);
    AfterBrace(Join(texts), x);
    BodyStart(PrintMembers(Sort(a), Source), x);
  }

  lemma ObjectText(members: seq<Named<Json>>)
    ensures Encode(Obj(members)) == "{" + Join(MemberTexts(Sort(PrintMembers(members, Source)))) + "}"
  {
  }

  lemma AfterBrace(text: string, x: string)
    ensures ("{" + text + "}" + x)[1..] == text + "}" + x
  {
  }

  lemma BodyStart(entries: seq<Named<string>>, x: string)
    ensures Body(MemberTexts(entries), '}', x) != ""
    ensures Body(MemberTexts(entries), '}', x)[0] == '}' <==> entries == []
    ensures entries == [] ==> Body(MemberTexts(entries), '}', x)[1..] == x
  {
    if entries != [] { assert MemberTexts(entries)[0][0] == '"'; }
  }

  lemma {:induction false} MembersDiffer(h: nat, a: seq<Named<Json>>, b: seq<Named<Json>>, x: string, y: string)
    requires a != [] && b != []
    requires forall i :: 0 <= i < |a| ==> Depth(a[i].value) <= h && Valid(a[i].value)
    requires forall i :: 0 <= i < |b| ==> Valid(b[i].value)
    requires Body(MemberTexts(PrintMembers(a, Source)), '}', x) == Body(MemberTexts(PrintMembers(b, Source)), '}', y)
    ensures |a| == |b| && x == y
    ensures forall i :: 0 <= i < |a| ==>
              a[i].name == b[i].name && MeaningOf(a[i].value, Source) == MeaningOf(b[i].value, Source)
    decreases h, 3, |a|
  {
    var s, t := MemberTexts(PrintMembers(a[1..], Source)), MemberTexts(PrintMembers(b[1..], Source));
    hide Print, MeaningOf, Valid, Depth, Body, Tail, Quote, MemberTexts, PrintMembers;
    FirstMember(a, x);
    FirstMember(b, y);
    TailEnds(s, '}', x);
    TailEnds(t, '}', y);
    var u, v := Encode(a[0].value) + Tail(s, '}', x), Encode(b[0].value) + Tail(t, '}', y);
    QuotesDiffer(a[0].name, b[0].name, ":" + u, ":" + v);
    SameLength(":", u, v);
    TreesDiffer(h, a[0].value, b[0].value, Tail(s, '}', x), Tail(t, '}', y));
    NextBody(s, t, '}', x, y);
    if s != [] {
      MembersDiffer(h, a[1..], b[1..], x, y);
      forall i | 0 <= i < |a|
        ensures a[i].name == b[i].name && MeaningOf(a[i].value, Source) == MeaningOf(b[i].value, Source)
      {
        assert i > 0 ==> a[i] == a[1..][i - 1] && b[i] == b[1..][i - 1];
      }
    }
  }

  lemma FirstMember(a: seq<Named<Json>>, x: string)
    requires a != []
    ensures Body(MemberTexts(PrintMembers(a, Source)), '}', x)
            == Quote(a[0].name) + (":" + (Encode(a[0].value) + Tail(MemberTexts(PrintMembers(a[1..], Source)), '}', x)))
  {
    hide Print, Quote, Body, Tail;
    var texts, more := MemberTexts(PrintMembers(a, Source)), MemberTexts(PrintMembers(a[1..], Source));
    assert texts[1..] == more;
    BodyUnfolds(texts, '}', x);
    MemberRegroups(Quote(a[0].name), Encode(a[0].value), Tail(more, '}', x));
  }

  lemma BodyUnfolds(texts: seq<string>, close: char, x: string)
    requires texts != []
    ensures Body(texts, close, x) == texts[0] + Tail(texts[1..], close, x)
  {
    hide Tail;
  }

  lemma MemberRegroups(key: string, value: string, tail: string)
    ensures (key + ":" + value) + tail == key + (":" + (value + tail))
  {
  }

  /** Members that agree once sorted make the same map. */
  lemma SortedMeaning(a: seq<Named<Json>>, b: seq<Named<Json>>)
    requires DistinctNames(a) && DistinctNames(b) && |Sort(a)| == |Sort(b)|
    requires forall i :: 0 <= i < |Sort(a)| ==>
               Sort(a)[i].name == Sort(b)[i].name
                 && MeaningOf(Sort(a)[i].value, Source) == MeaningOf(Sort(b)[i].value, Source)
    ensures MembersMeaning(a, Source) == MembersMeaning(b, Source)
  {
    SortKeeps(a);
    SortKeeps(b);
    MembersAt(a, Source);
    MembersAt(b, Source);
    hide MembersMeaning, MeaningOf, Sort;
    SortedIncluded(a, b);
    SortedIncluded(b, a);
  }

  lemma SortedIncluded(a: seq<Named<Json>>, b: seq<Named<Json>>)
    requires DistinctNames(a) && DistinctNames(b) && |Sort(a)| == |Sort(b)|
    requires forall i :: 0 <= i < |Sort(a)| ==>
               Sort(a)[i].name == Sort(b)[i].name
                 && MeaningOf(Sort(a)[i].value, Source) == MeaningOf(Sort(b)[i].value, Source)
    ensures var x, y := MembersMeaning(a, Source), MembersMeaning(b, Source);
            forall name :: name in x ==> name in y && x[name] == y[name]
  {
    SortKeeps(a);
    SortKeeps(b);
    MembersAt(a, Source);
    MembersAt(b, Source);
    hide MembersMeaning, MeaningOf, Sort;
    var x, y := MembersMeaning(a, Source), MembersMeaning(b, Source);
    forall name | name in x
      ensures name in y && x[name] == y[name]
    {
      var i :| 0 <= i < |a| && NamesOf(a)[i] == name;
      assert a[i] in Sort(a);
      var k :| 0 <= k < |Sort(a)| && Sort(a)[k] == a[i];
      assert Sort(b)[k] in b;
      var j :| 0 <= j < |b| && b[j] == Sort(b)[k];
    }
  }

  // ---- Theorems ----

  /** Two trees print alike exactly when they are the same up to the order of members. */
  lemma EncodeIsMeaning(a: Json, b: Json)
    requires Valid(a) && Valid(b)
    ensures Encode(a) == Encode(b) <==> MeaningOf(a, Source) == MeaningOf(b, Source)
  {
    if Encode(a) == Encode(b) {
      TreesDiffer(Depth(a), a, b, "", "");
    }
    if MeaningOf(a, Source) == MeaningOf(b, Source) {
      PrintDependsOnMeaning(a, b, Source);
    }
  }

  /** Trees with the same source texts mean the same, whatever is taken of their numbers. */
  lemma {:induction false} SourceGivesMeaning<N>(a: Json, b: Json, number: NumberText -> N)
    requires Valid(a) && Valid(b) && MeaningOf(a, Source) == MeaningOf(b, Source)
    ensures MeaningOf(a, number) == MeaningOf(b, number)
    decreases a
  {
    match a
    case Arr(items) =>
      assert |MeaningOf(a, Source).items| == |MeaningOf(b, Source).items|;
      ArrayMeaning(items, b.items, Source);
      forall i | 0 <= i < |items|
        ensures MeaningOf(items[i], number) == MeaningOf(b.items[i], number)
      {
        SourceGivesMeaning(items[i], b.items[i], number);
      }
      ArrayMeaning(items, b.items, number);
    case Obj(members) =>
      forall i, j | 0 <= i < |members| && 0 <= j < |b.members|
          && MeaningOf(members[i].value, Source) == MeaningOf(b.members[j].value, Source)
        ensures MeaningOf(members[i].value, number) == MeaningOf(b.members[j].value, number)
      {
        SourceGivesMeaning(members[i].value, b.members[j].value, number);
      }
      SameValues(members, b.members, number);
    case _ =>
  }

  lemma SameValues<N>(a: seq<Named<Json>>, b: seq<Named<Json>>, number: NumberText -> N)
    requires DistinctNames(a) && DistinctNames(b) && MembersMeaning(a, Source) == MembersMeaning(b, Source)
    requires forall i, j ::
               0 <= i < |a| && 0 <= j < |b| && MeaningOf(a[i].value, Source) == MeaningOf(b[j].value, Source) ==>
               MeaningOf(a[i].value, number) == MeaningOf(b[j].value, number)
    ensures MembersMeaning(a, number) == MembersMeaning(b, number)
  {
    hide MembersMeaning, MeaningOf;
    ValuesIncluded(a, b, number);
    ValuesIncluded(b, a, number);
  }

  lemma ValuesIncluded<N>(a: seq<Named<Json>>, b: seq<Named<Json>>, number: NumberText -> N)
    requires DistinctNames(a) && DistinctNames(b) && MembersMeaning(a, Source) == MembersMeaning(b, Source)
    requires forall i, j ::
               0 <= i < |a| && 0 <= j < |b| && MeaningOf(a[i].value, Source) == MeaningOf(b[j].value, Source) ==>
               MeaningOf(a[i].value, number) == MeaningOf(b[j].value, number)
    ensures var x, y := MembersMeaning(a, number), MembersMeaning(b, number);
            forall name :: name in x ==> name in y && x[name] == y[name]
  {
    MembersAt(a, Source);
    MembersAt(b, Source);
    MembersAt(a, number);
    MembersAt(b, number);
    hide MembersMeaning, MeaningOf;
    var x, y := MembersMeaning(a, number), MembersMeaning(b, number);
    forall name | name in x
      ensures name in y && x[name] == y[name]
    {
      var i :| 0 <= i < |a| && NamesOf(a)[i] == name;
      assert a[i].name in MembersMeaning(b, Source);
      var j :| 0 <= j < |b| && NamesOf(b)[j] == name;
    }
  }

  /** Equal texts are equal values to the comparison. */
  lemma EqualTextsAreEqual(a: Json, b: Json)
    requires Valid(a) && Valid(b) && Encode(a) == Encode(b)
    ensures JsonEqual(a, b)
  {
    EncodeIsMeaning(a, b);
    SourceGivesMeaning(a, b, ExactValue);
    JsonEqualIsMeaning(a, b);
  }
}
