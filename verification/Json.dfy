/**
 JSON trees with exact numbers: their meaning, the comparison and the compact printers (ext-pi/src/manager/json.ts,
 ext-pi/src/catalogue.ts).
 */
module Jsons {
  import opened Prelude
  import opened Sorting
  import Decimals

  /** The source text of a number. */
  type NumberText = s: string | Decimals.IsNumber(s) witness "0"

  datatype Json =
    | Null
    | Bool(value: bool)
    | Text(text: string)
    | Num(source: NumberText)
    | Arr(items: seq<Json>)
    | Obj(members: seq<Named<Json>>)

  /** The members of every object have distinct names, as the properties of a JavaScript object have. */
  ghost predicate Valid(j: Json) {
    match j
    case Arr(items) => forall i :: 0 <= i < |items| ==> Valid(items[i])
    case Obj(members) => DistinctNames(members) && forall i :: 0 <= i < |members| ==> Valid(members[i].value)
    case _ => true
  }

  // ---- Meaning ----

  /** What a tree denotes: objects are maps, and numbers are whatever N takes of their text. */
  datatype Meaning<N> =
    | MNull
    | MBool(value: bool)
    | MText(text: string)
    | MNum(number: N)
    | MArr(items: seq<Meaning<N>>)
    | MObj(members: map<string, Meaning<N>>)

  function MeaningOf<N>(j: Json, number: NumberText -> N): Meaning<N> {
    match j
    case Null => MNull
    case Bool(b) => MBool(b)
    case Text(s) => MText(s)
    case Num(source) => MNum(number(source))
    case Arr(items) => MArr(seq(|items|, i requires 0 <= i < |items| => MeaningOf(items[i], number)))
    case Obj(members) => MObj(MembersMeaning(members, number))
  }

  function MembersMeaning<N>(members: seq<Named<Json>>, number: NumberText -> N): map<string, Meaning<N>> {
    if members == [] then map[]
    else
      var last := members[|members| - 1];
      MembersMeaning(members[..|members| - 1], number)[last.name := MeaningOf(last.value, number)]
  }

  lemma {:induction false} MembersAt<N>(members: seq<Named<Json>>, number: NumberText -> N)
    requires DistinctNames(members)
    ensures forall name :: name in MembersMeaning(members, number) <==> name in NamesOf(members)
    ensures forall i :: 0 <= i < |members| ==>
              members[i].name in MembersMeaning(members, number)
              && MembersMeaning(members, number)[members[i].name] == MeaningOf(members[i].value, number)
  {
    if members != [] {
      var init := members[..|members| - 1];
      MembersAt(init, number);
      assert NamesOf(members) == NamesOf(init) + [members[|members| - 1].name];
      forall i | 0 <= i < |members|
        ensures members[i].name in MembersMeaning(members, number)
                && MembersMeaning(members, number)[members[i].name] == MeaningOf(members[i].value, number)
      {
        assert i < |members| - 1 ==> members[i] == init[i] && members[i].name != members[|members| - 1].name;
      }
    }
  }

  // ---- Comparison ----

  /** The member that a property access finds. */
  function Lookup<T>(members: seq<Named<T>>, name: string): (r: Option<T>)
    ensures r.Some? <==> name in NamesOf(members)
    ensures r.Some? ==> Named(name, r.value) in members
  {
    if members == [] then None
    else
      var init, last := members[..|members| - 1], members[|members| - 1];
      assert NamesOf(members) == NamesOf(init) + [last.name];
      if last.name == name then Some(last.value) else Lookup(init, name)
  }

  predicate NumberEqual(a: NumberText, b: NumberText) {
    Decimals.MatchedIsInGrammar(a);
    Decimals.MatchedIsInGrammar(b);
    Decimals.DecimalOf(Decimals.Match(a).value) == Decimals.DecimalOf(Decimals.Match(b).value)
  }

  predicate JsonEqual(a: Json, b: Json) {
    if a.Num? || b.Num? then a.Num? && b.Num? && NumberEqual(a.source, b.source)
    else if !(a.Arr? || a.Obj?) || !(b.Arr? || b.Obj?) then a == b
    else if a.Arr? || b.Arr? then
      a.Arr? && b.Arr? && |a.items| == |b.items| && forall i :: 0 <= i < |a.items| ==> JsonEqual(a.items[i], b.items[i])
    else
      && |a.members| == |b.members|
      && forall i :: 0 <= i < |a.members| ==>
           var found := Lookup(b.members, a.members[i].name);
           found.Some? && JsonEqual(a.members[i].value, found.value)
  }

  function ExactValue(s: NumberText): real {
    Decimals.MatchedIsInGrammar(s);
    Decimals.Value(Decimals.Match(s).value)
  }

  lemma NumberEqualIsExact(a: NumberText, b: NumberText)
    ensures NumberEqual(a, b) <==> ExactValue(a) == ExactValue(b)
  {
    Decimals.MatchedIsInGrammar(a);
    Decimals.MatchedIsInGrammar(b);
    Decimals.NumberEqualIsValueEqual(Decimals.Match(a).value, Decimals.Match(b).value);
  }

  lemma LookupFinds<T(!new)>(members: seq<Named<T>>, i: nat)
    requires DistinctNames(members) && i < |members|
    ensures Lookup(members, members[i].name) == Some(members[i].value)
  {
    assert members[i].name == NamesOf(members)[i];
    var found := Lookup(members, members[i].name).value;
    var j :| 0 <= j < |members| && members[j] == Named(members[i].name, found);
  }

  lemma NamesAreDistinct(members: seq<Named<Json>>)
    requires DistinctNames(members)
    ensures Distinct(NamesOf(members))
  {
  }

  /** The comparison is exactly equality of meaning: exact values, elements in order, members as a map. */
  lemma {:induction false} JsonEqualIsMeaning(a: Json, b: Json)
    requires Valid(a) && Valid(b)
    ensures JsonEqual(a, b) <==> MeaningOf(a, ExactValue) == MeaningOf(b, ExactValue)
    decreases a
  {
    if a.Num? && b.Num? {
      NumberEqualIsExact(a.source, b.source);
    } else if a.Arr? && b.Arr? {
      if |a.items| == |b.items| {
        forall i | 0 <= i < |a.items|
          ensures JsonEqual(a.items[i], b.items[i])
                  <==> MeaningOf(a.items[i], ExactValue) == MeaningOf(b.items[i], ExactValue)
        {
          JsonEqualIsMeaning(a.items[i], b.items[i]);
        }
        ArrayMeaning(a.items, b.items, ExactValue);
      } else {
        assert |MeaningOf(a, ExactValue).items| != |MeaningOf(b, ExactValue).items|;
      }
    } else if a.Obj? && b.Obj? {
      forall i, j | 0 <= i < |a.members| && 0 <= j < |b.members|
        ensures JsonEqual(a.members[i].value, b.members[j].value)
                <==> MeaningOf(a.members[i].value, ExactValue) == MeaningOf(b.members[j].value, ExactValue)
      {
        JsonEqualIsMeaning(a.members[i].value, b.members[j].value);
      }
      ObjectsByMeaning(a.members, b.members);
    }
  }

  lemma ArrayMeaning<N>(a: seq<Json>, b: seq<Json>, number: NumberText -> N)
    requires |a| == |b|
    ensures MeaningOf(Arr(a), number) == MeaningOf(Arr(b), number)
            <==> forall i :: 0 <= i < |a| ==> MeaningOf(a[i], number) == MeaningOf(b[i], number)
  {
    var x, y := MeaningOf(Arr(a), number).items, MeaningOf(Arr(b), number).items;
    assert forall i :: 0 <= i < |a| ==> x[i] == MeaningOf(a[i], number) && y[i] == MeaningOf(b[i], number);
  }

  /** Equal counts and inclusion of names make the name sets equal. */
  lemma ObjectsByMeaning(a: seq<Named<Json>>, b: seq<Named<Json>>)
    requires DistinctNames(a) && DistinctNames(b)
    requires forall i, j :: 0 <= i < |a| && 0 <= j < |b| ==>
               (JsonEqual(a[i].value, b[j].value)
                <==> MeaningOf(a[i].value, ExactValue) == MeaningOf(b[j].value, ExactValue))
    ensures JsonEqual(Obj(a), Obj(b)) <==> MembersMeaning(a, ExactValue) == MembersMeaning(b, ExactValue)
  {
    MembersAt(a, ExactValue);
    MembersAt(b, ExactValue);
    NamesAreDistinct(a);
    NamesAreDistinct(b);
    var x, y := MembersMeaning(a, ExactValue), MembersMeaning(b, ExactValue);
    hide JsonEqual, MembersMeaning, MeaningOf;
    forall i, j | 0 <= i < |a| && 0 <= j < |b| && a[i].name == b[j].name
      ensures x[a[i].name] == y[b[j].name] <==> JsonEqual(a[i].value, b[j].value)
    {
    }
    forall i | 0 <= i < |a| && a[i].name in y
      ensures Lookup(b, a[i].name).Some? && (JsonEqual(a[i].value, Lookup(b, a[i].name).value)
                                             <==> x[a[i].name] == y[a[i].name])
    {
      var j :| 0 <= j < |b| && NamesOf(b)[j] == a[i].name;
      LookupFinds(b, j);
    }
    MapsByName(a, b, x, y);
  }

  lemma MapsByName(a: seq<Named<Json>>, b: seq<Named<Json>>, x: map<string, Meaning<real>>,
                   y: map<string, Meaning<real>>)
    requires DistinctNames(a) && DistinctNames(b)
    requires forall name :: name in x <==> name in NamesOf(a)
    requires forall name :: name in y <==> name in NamesOf(b)
    requires forall i :: 0 <= i < |a| && a[i].name in y ==>
               Lookup(b, a[i].name).Some? && (JsonEqual(a[i].value, Lookup(b, a[i].name).value)
                                              <==> x[a[i].name] == y[a[i].name])
    ensures JsonEqual(Obj(a), Obj(b)) <==> x == y
  {
    NamesAreDistinct(a);
    NamesAreDistinct(b);
    assert forall i :: 0 <= i < |a| ==> a[i].name == NamesOf(a)[i];
    if x == y {
      SameNamesSameCount(NamesOf(a), NamesOf(b));
    }
    if JsonEqual(Obj(a), Obj(b)) {
      assert forall i :: 0 <= i < |a| ==> a[i].name in y && x[a[i].name] == y[a[i].name];
      assert |a| == |b|;
      hide JsonEqual, Lookup, NamesOf;
      SameMaps(NamesOf(a), NamesOf(b), x, y);
    }
  }

  lemma SameNamesSameCount(a: seq<string>, b: seq<string>)
    requires Distinct(a) && Distinct(b) && forall name :: name in a <==> name in b
    ensures |a| == |b|
  {
    DistinctSize(a);
    DistinctSize(b);
    assert (set n | n in a) == (set n | n in b);
  }

  lemma SameMaps(a: seq<string>, b: seq<string>, x: map<string, Meaning<real>>, y: map<string, Meaning<real>>)
    requires Distinct(a) && Distinct(b) && |a| == |b|
    requires forall name :: name in x <==> name in a
    requires forall name :: name in y <==> name in b
    requires forall i :: 0 <= i < |a| ==> a[i] in y && x[a[i]] == y[a[i]]
    ensures x == y
  {
    SameSizeSubset(a, b);
    assert x.Keys == y.Keys;
    forall name | name in x
      ensures x[name] == y[name]
    {
      var i :| 0 <= i < |a| && a[i] == name;
    }
  }

  /** The comparison is an equivalence on all trees. */
  lemma JsonEqualIsEquivalence(a: Json, b: Json, c: Json)
    requires Valid(a) && Valid(b) && Valid(c)
    ensures JsonEqual(a, a)
    ensures JsonEqual(a, b) ==> JsonEqual(b, a)
    ensures JsonEqual(a, b) && JsonEqual(b, c) ==> JsonEqual(a, c)
  {
    JsonEqualIsMeaning(a, a);
    JsonEqualIsMeaning(a, b);
    JsonEqualIsMeaning(b, a);
    JsonEqualIsMeaning(b, c);
    JsonEqualIsMeaning(a, c);
  }
}
