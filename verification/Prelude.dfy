/** Shared vocabulary: optional values, refusals, insertion-ordered tables and decimal text. */
module Prelude {

  datatype Option<+T> = None | Some(value: T)

  /** A property or member: a name with its value. */
  datatype Named<+T> = Named(name: string, value: T)

  /** Why an operation refuses its input; one constructor per family of errors that the sources throw. */
  datatype Refusal =
    | UnsupportedVersion | VersionChanged | RunChanged | BadTimestamp | BadSequence
    | DuplicateSequence | ConflictingSequence | SequenceRange | SequenceGap | PostTerminal
    | BadField | WrongState | Unknown | Duplicate | LimitExceeded | NotOffered
    | Uncorrelated | BadTransition | UnknownEvent

  datatype Result<+T> = Ok(value: T) | Refused(reason: Refusal) {
    predicate IsFailure() { Refused? }

    function PropagateFailure<U>(): Result<U>
      requires Refused?
    {
      Refused(reason)
    }

    function Extract(): T
      requires Ok?
    {
      value
    }
  }

  /** Fails with `reason` unless `condition` holds. */
  function Require(condition: bool, reason: Refusal): Result<()> {
    if condition then Ok(()) else Refused(reason)
  }

  ghost predicate Distinct<T(!new)>(s: seq<T>) {
    forall i, j :: 0 <= i < j < |s| ==> s[i] != s[j]
  }

  // ---- Insertion-ordered tables: the JavaScript Map ----

  datatype Entries<V> = Entries(order: seq<string>, at: map<string, V>) {
    ghost predicate Valid() {
      && Distinct(order)
      && (forall k :: k in order <==> k in at)
    }
  }

  /** A JavaScript Map with text keys: values by key, and the keys in order of first insertion. */
  type Table<V> = t: Entries<V> | t.Valid() witness Entries([], map[])

  function Put<V>(t: Table<V>, key: string, value: V): (r: Table<V>)
    ensures r.at == t.at[key := value]
    ensures r.order == if key in t.at then t.order else t.order + [key]
  {
    Entries(if key in t.at then t.order else t.order + [key], t.at[key := value])
  }

  function EmptyTable<V>(): (r: Table<V>)
    ensures r.order == [] && r.at == map[]
  {
    Entries([], map[])
  }

  /** A table with one key deleted. */
  function Without<V>(t: Table<V>, key: string): (r: Table<V>)
    ensures r.order == Dropping(t.order, key)
    ensures r.at == map k | k in t.at && k != key :: t.at[k]
  {
    WithoutIsTable(t.order, t.at, key);
    Entries(Dropping(t.order, key), map k | k in t.at && k != key :: t.at[k])
  }

  function Dropping(s: seq<string>, key: string): seq<string> {
    if s == [] then [] else (if s[0] == key then [] else [s[0]]) + Dropping(s[1..], key)
  }

  lemma {:induction false} DroppingKeeps(s: seq<string>, key: string)
    requires Distinct(s)
    ensures Distinct(Dropping(s, key))
    ensures forall k :: k in Dropping(s, key) <==> k in s && k != key
  {
    if s != [] {
      DroppingKeeps(s[1..], key);
      assert s[0] !in s[1..];
    }
  }

  lemma WithoutIsTable<V>(order: seq<string>, at: map<string, V>, key: string)
    requires Entries(order, at).Valid()
    ensures Entries(Dropping(order, key), map k | k in at && k != key :: at[k]).Valid()
  {
    DroppingKeeps(order, key);
  }

  /** The first i entries of a table. */
  ghost function FirstOf<V>(t: Table<V>, i: nat): (r: Table<V>)
    requires i <= |t.order|
    ensures r.order == t.order[..i]
  {
    Entries(t.order[..i], map k | k in t.at && k in t.order[..i] :: t.at[k])
  }

  lemma FirstOfNext<V>(t: Table<V>, i: nat)
    requires i < |t.order|
    ensures t.order[i] !in FirstOf(t, i).at
    ensures FirstOf(t, i + 1) == Put(FirstOf(t, i), t.order[i], t.at[t.order[i]])
  {
    assert t.order[..i + 1] == t.order[..i] + [t.order[i]];
  }

  lemma FirstOfAll<V>(t: Table<V>)
    ensures FirstOf(t, |t.order|) == t
  {
    assert t.order[..|t.order|] == t.order;
  }

  /** The keys of a table as a set. The size of a table is the number of its keys. */
  lemma TableSize<V>(t: Table<V>)
    ensures |t.order| == |t.at.Keys|
  {
    DistinctSize(t.order);
    assert (set k | k in t.order) == t.at.Keys;
  }

  lemma {:induction false} DistinctSize<T(!new)>(s: seq<T>)
    requires Distinct(s)
    ensures |s| == |set x | x in s|
  {
    if s == [] {
      assert (set x | x in s) == {};
    } else {
      var rest := s[1..];
      DistinctSize(rest);
      assert (set x | x in s) == (set x | x in rest) + {s[0]};
    }
  }

  /** Two duplicate-free sequences, one drawing its elements from the other and of equal length, are permutations. */
  lemma SameSizeSubset<T(!new)>(s: seq<T>, t: seq<T>)
    requires Distinct(s) && Distinct(t) && |s| == |t|
    requires forall x :: x in s ==> x in t
    ensures forall x :: x in t ==> x in s
  {
    DistinctSize(s);
    DistinctSize(t);
    var inner, outer := set x | x in s, set x | x in t;
    assert inner <= outer;
    forall x | x in t
      ensures x in s
    {
      assert x in outer;
      if x !in inner {
        SubsetSize(inner, outer - {x});
      }
    }
  }

  lemma {:induction false} SubsetSize<T>(a: set<T>, b: set<T>)
    requires a <= b
    ensures |a| <= |b|
  {
    if a != {} {
      var x :| x in a;
      SubsetSize(a - {x}, b - {x});
    }
  }

  /** The sum of a weight over the values of a table, taken in key order. */
  function TotalOver<V(!new)>(order: seq<string>, at: map<string, V>, weight: V -> nat): nat
    requires forall k :: k in order ==> k in at
  {
    if order == [] then 0 else weight(at[order[0]]) + TotalOver(order[1..], at, weight)
  }

  lemma {:induction false} TotalOutside<V(!new)>(order: seq<string>, at: map<string, V>, weight: V -> nat, key: string,
                                                 value: V)
    requires forall k :: k in order ==> k in at
    requires key !in order
    ensures TotalOver(order, at[key := value], weight) == TotalOver(order, at, weight)
  {
    if order != [] {
      TotalOutside(order[1..], at, weight, key, value);
    }
  }

  lemma {:induction false} TotalReplaced<V(!new)>(order: seq<string>, at: map<string, V>, weight: V -> nat, key: string,
                                                  value: V)
    requires Distinct(order) && key in order
    requires forall k :: k in order ==> k in at
    ensures TotalOver(order, at[key := value], weight) == TotalOver(order, at, weight) - weight(at[key]) + weight(value)
  {
    if order[0] == key {
      TotalOutside(order[1..], at, weight, key, value);
    } else {
      TotalReplaced(order[1..], at, weight, key, value);
    }
  }

  lemma {:induction false} TotalAppended<V(!new)>(order: seq<string>, at: map<string, V>, weight: V -> nat, key: string)
    requires forall k :: k in order + [key] ==> k in at
    ensures TotalOver(order + [key], at, weight) == TotalOver(order, at, weight) + weight(at[key])
  {
    if order == [] {
      assert order + [key] == [key];
    } else {
      assert (order + [key])[1..] == order[1..] + [key];
      TotalAppended(order[1..], at, weight, key);
    }
  }

  /** Writing one entry of a table changes a total by the difference of the two weights. */
  lemma TotalPut<V(!new)>(t: Table<V>, weight: V -> nat, key: string, value: V)
    ensures var r := Put(t, key, value);
            TotalOver(r.order, r.at, weight)
            == TotalOver(t.order, t.at, weight) + weight(value) - (if key in t.at then weight(t.at[key]) else 0)
  {
    if key in t.at {
      TotalReplaced(t.order, t.at, weight, key, value);
    } else {
      TotalOutside(t.order, t.at, weight, key, value);
      TotalAppended(t.order, t.at[key := value], weight, key);
    }
  }

  /** The text of several pieces. */
  function Concat(pieces: seq<string>): string {
    if pieces == [] then "" else Concat(pieces[..|pieces| - 1]) + pieces[|pieces| - 1]
  }

  // ---- Unsigned decimal text: 0 or digits without a leading zero ----

  const MAX_WORD32: nat := 0xFFFF_FFFF
  const MAX_WORD64: nat := 0xFFFF_FFFF_FFFF_FFFF

  predicate IsDigit(c: char) { '0' <= c <= '9' }

  predicate IsDecimal(s: string) {
    && |s| > 0
    && (forall i :: 0 <= i < |s| ==> IsDigit(s[i]))
    && (|s| > 1 ==> s[0] != '0')
  }

  /** The number that a run of digits denotes. */
  function DigitsValue(s: string): nat
    requires forall i :: 0 <= i < |s| ==> IsDigit(s[i])
  {
    if s == [] then 0 else assert IsDigit(s[|s| - 1]); 10 * DigitsValue(s[..|s| - 1]) + (s[|s| - 1] as int - '0' as int)
  }

  // ---- White space, as `trim` and the `\s` class of JavaScript take it ----

  predicate IsSpace(c: char) {
    || c in "\t\n\r \U{000B}\U{000C}\U{00A0}\U{1680}\U{2028}\U{2029}\U{202F}\U{205F}\U{3000}\U{FEFF}"
    || '\U{2000}' <= c <= '\U{200A}'
  }

  predicate IsBlank(s: string) { forall i :: 0 <= i < |s| ==> IsSpace(s[i]) }
}
