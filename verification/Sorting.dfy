/** Named entries in the order of `Array.prototype.sort` on their names: by UTF-16 code units. */
module Sorting {
  import opened Prelude

  // ---- Code units ----

  /** The UTF-16 code units of a character. A character above U+FFFF sorts below U+E000, by its first surrogate. */
  function CharUnits(c: char): (r: seq<nat>)
    ensures 1 <= |r| <= 2
  {
    var n := c as int;
    if n < 0x1_0000 then [n] else [0xD800 + (n - 0x1_0000) / 0x400, 0xDC00 + (n - 0x1_0000) % 0x400]
  }

  function Units(s: string): (r: seq<nat>)
    ensures r == [] <==> s == ""
  {
    if s == "" then [] else CharUnits(s[0]) + Units(s[1..])
  }

  lemma CharUnitsDiffer(a: char, b: char, x: seq<nat>, y: seq<nat>)
    requires CharUnits(a) + x == CharUnits(b) + y
    ensures a == b && x == y
  {
    var u, v := CharUnits(a) + x, CharUnits(b) + y;
    assert u[0] == v[0] && CharUnits(a)[0] == u[0] && CharUnits(b)[0] == v[0];
    assert |CharUnits(a)| == |CharUnits(b)|;
    if |CharUnits(a)| == 2 { assert u[1] == v[1] && CharUnits(a)[1] == u[1] && CharUnits(b)[1] == v[1]; }
    assert x == u[|CharUnits(a)|..] && y == v[|CharUnits(b)|..];
  }

  /** Texts with the same code units are the same. */
  lemma {:induction false} UnitsInjective(s: string, t: string)
    requires Units(s) == Units(t)
    ensures s == t
  {
    if s != "" && t != "" {
      CharUnitsDiffer(s[0], t[0], Units(s[1..]), Units(t[1..]));
      UnitsInjective(s[1..], t[1..]);
      assert s == [s[0]] + s[1..] && t == [t[0]] + t[1..];
    }
  }

  // ---- The order ----

  function LessUnits(a: seq<nat>, b: seq<nat>): bool {
    if b == [] then false
    else if a == [] then true
    else if a[0] != b[0] then a[0] < b[0]
    else LessUnits(a[1..], b[1..])
  }

  predicate Before(a: string, b: string) { LessUnits(Units(a), Units(b)) }

  lemma {:induction false} UnitsOrder(a: seq<nat>, b: seq<nat>)
    ensures !(LessUnits(a, b) && LessUnits(b, a))
    ensures LessUnits(a, b) || LessUnits(b, a) || a == b
    ensures !LessUnits(a, a)
  {
    if a != [] && b != [] {
      UnitsOrder(a[1..], b[1..]);
      assert a == [a[0]] + a[1..] && b == [b[0]] + b[1..];
    } else if a != [] {
      UnitsOrder(a[1..], b);
    }
  }

  lemma {:induction false} UnitsTransitive(a: seq<nat>, b: seq<nat>, c: seq<nat>)
    requires LessUnits(a, b) && LessUnits(b, c)
    ensures LessUnits(a, c)
  {
    if a != [] && a[0] == b[0] == c[0] { UnitsTransitive(a[1..], b[1..], c[1..]); }
  }

  /** A strict total order on texts. */
  lemma BeforeIsOrder(a: string, b: string)
    ensures !(Before(a, b) && Before(b, a))
    ensures a != b <==> Before(a, b) || Before(b, a)
  {
    UnitsOrder(Units(a), Units(b));
    if Units(a) == Units(b) { UnitsInjective(a, b); }
  }

  lemma BeforeIsTransitive(a: string, b: string, c: string)
    requires Before(a, b) && Before(b, c)
    ensures Before(a, c)
  {
    UnitsTransitive(Units(a), Units(b), Units(c));
  }

  // ---- Sorting by name ----

  function NamesOf<T>(s: seq<Named<T>>): (r: seq<string>)
    ensures |r| == |s| && forall i :: 0 <= i < |s| ==> r[i] == s[i].name
  {
    seq(|s|, i requires 0 <= i < |s| => s[i].name)
  }

  ghost predicate DistinctNames<T(!new)>(s: seq<Named<T>>) {
    forall i, j :: 0 <= i < j < |s| ==> s[i].name != s[j].name
  }

  /** Strictly ascending by name. */
  ghost predicate Ascending<T(!new)>(s: seq<Named<T>>) {
    forall i, j :: 0 <= i < j < |s| ==> Before(s[i].name, s[j].name)
  }

  function Insert<T>(e: Named<T>, s: seq<Named<T>>): seq<Named<T>> {
    if s == [] || Before(e.name, s[0].name) then [e] + s else [s[0]] + Insert(e, s[1..])
  }

  function Sort<T>(s: seq<Named<T>>): seq<Named<T>> {
    if s == [] then [] else Insert(s[0], Sort(s[1..]))
  }

  lemma {:induction false} InsertKeeps<T(!new)>(e: Named<T>, s: seq<Named<T>>)
    requires Ascending(s) && forall i :: 0 <= i < |s| ==> s[i].name != e.name
    ensures Ascending(Insert(e, s)) && |Insert(e, s)| == |s| + 1
    ensures forall x :: x in Insert(e, s) <==> x == e || x in s
  {
    hide Before;
    if s != [] {
      BeforeIsOrder(e.name, s[0].name);
      if Before(e.name, s[0].name) {
        forall j | 0 < j < |s|
          ensures Before(e.name, s[j].name)
        {
          BeforeIsTransitive(e.name, s[0].name, s[j].name);
        }
      } else {
        InsertKeeps(e, s[1..]);
        var rest := Insert(e, s[1..]);
        forall j | 0 <= j < |rest|
          ensures Before(s[0].name, rest[j].name)
        {
          assert rest[j] in rest;
        }
      }
    }
  }

  /** Sorting entries of distinct names gives the same entries, ascending. */
  lemma {:induction false} SortKeeps<T(!new)>(s: seq<Named<T>>)
    requires DistinctNames(s)
    ensures Ascending(Sort(s)) && |Sort(s)| == |s|
    ensures forall x :: x in Sort(s) <==> x in s
  {
    hide Before;
    if s != [] {
      SortKeeps(s[1..]);
      forall i | 0 <= i < |Sort(s[1..])|
        ensures Sort(s[1..])[i].name != s[0].name
      {
        assert Sort(s[1..])[i] in s[1..];
      }
      InsertKeeps(s[0], Sort(s[1..]));
    }
  }

  /** The entries with a function applied to their values. */
  function Mapped<A, B>(s: seq<Named<A>>, f: A -> B): seq<Named<B>> {
    seq(|s|, i requires 0 <= i < |s| => Named(s[i].name, f(s[i].value)))
  }

  lemma {:induction false} InsertMapped<A, B>(e: Named<A>, s: seq<Named<A>>, f: A -> B)
    ensures Mapped(Insert(e, s), f) == Insert(Named(e.name, f(e.value)), Mapped(s, f))
  {
    hide Before;
    if s != [] && !Before(e.name, s[0].name) {
      InsertMapped(e, s[1..], f);
      assert Mapped(s, f)[1..] == Mapped(s[1..], f);
      assert Mapped([s[0]] + Insert(e, s[1..]), f) == [Mapped(s, f)[0]] + Mapped(Insert(e, s[1..]), f);
    } else {
      assert Mapped([e] + s, f) == [Named(e.name, f(e.value))] + Mapped(s, f);
    }
  }

  /** Sorting looks at names only. */
  lemma {:induction false} SortMapped<A, B>(s: seq<Named<A>>, f: A -> B)
    ensures Mapped(Sort(s), f) == Sort(Mapped(s, f))
  {
    hide Insert;
    if s != [] {
      SortMapped(s[1..], f);
      InsertMapped(s[0], Sort(s[1..]), f);
      assert Mapped(s, f)[1..] == Mapped(s[1..], f);
    }
  }

  /** An ascending sequence is determined by its elements. */
  lemma {:induction false} AscendingIsUnique<T(!new)>(a: seq<Named<T>>, b: seq<Named<T>>)
    requires Ascending(a) && Ascending(b) && |a| == |b| && forall x :: x in a <==> x in b
    ensures a == b
  {
    hide Before;
    if a != [] {
      assert a[0] in a;
      assert b[0] in b;
      if a[0] != b[0] {
        var i, j :| 0 <= i < |a| && a[i] == b[0] && 0 <= j < |b| && b[j] == a[0];
        BeforeIsOrder(a[0].name, b[0].name);
      }
      forall x
        ensures x in a[1..] <==> x in b[1..]
      {
        BeforeIsOrder(a[0].name, a[0].name);
        assert x in a <==> x == a[0] || x in a[1..];
        assert x in b <==> x == b[0] || x in b[1..];
        assert a[0] !in a[1..] && b[0] !in b[1..];
      }
      AscendingIsUnique(a[1..], b[1..]);
    }
  }

  /** The order in which entries of distinct names are given does not matter. */
  lemma SortIsCanonical<T(!new)>(a: seq<Named<T>>, b: seq<Named<T>>)
    requires DistinctNames(a) && DistinctNames(b) && |a| == |b| && forall x :: x in a <==> x in b
    ensures Sort(a) == Sort(b)
  {
    SortKeeps(a);
    SortKeeps(b);
    AscendingIsUnique(Sort(a), Sort(b));
  }
}
