/** Where the strings of a text lie, told by its quotes and backslashes, and what the two scans find by their flags. */
module JsonStrings {
  import opened Prelude
  import opened JsonScanner
  import opened JsonRoundTrip

  // ---- Quotes and backslashes ----

  /** The number of backslashes directly before a position. */
  function Backslashes(s: string, i: nat): nat
    requires i <= |s|
  {
    if i == 0 || s[i - 1] != '\\' then 0 else 1 + Backslashes(s, i - 1)
  }

  /** After an opening quote, a quote closes the string unless an odd number of backslashes stands before it. */
  predicate ClosesAt(s: string, i: nat) {
    0 < i < |s| && s[i] == '"' && Backslashes(s, i) % 2 == 0
  }

  /** One whole string with both of its quotes. */
  predicate IsQuoted(s: string) {
    && |s| >= 2 && s[0] == '"' && ClosesAt(s, |s| - 1)
    && forall i :: 0 < i < |s| - 1 ==> !ClosesAt(s, i)
  }

  /** Nothing, or a string that no quote closes. */
  predicate IsUnclosed(s: string) {
    s != "" ==> s[0] == '"' && forall i :: 0 < i < |s| ==> !ClosesAt(s, i)
  }

  /** A stretch without quotes and then a whole string. */
  datatype Stretch = Stretch(outside: string, quoted: string)

  function Laid(stretches: seq<Stretch>, rest: string): string {
    if stretches == [] then rest
    else stretches[0].outside + (stretches[0].quoted + Laid(stretches[1..], rest))
  }

  /** How a text falls into what is outside its strings and the strings themselves; the last one may be unclosed. */
  predicate IsLayout(text: string, stretches: seq<Stretch>, outside: string, open: string) {
    && text == Laid(stretches, outside + open)
    && '"' !in outside && IsUnclosed(open)
    && forall k :: 0 <= k < |stretches| ==> '"' !in stretches[k].outside && IsQuoted(stretches[k].quoted)
  }

  predicate HasSpace(s: string) { exists i :: 0 <= i < |s| && IsSpace(s[i]) }

  // ---- The flags inside a string ----

  /** The escape flag is set after an odd number of backslashes. */
  lemma {:induction false} ScanInside(q: string, i: nat, rest: string)
    requires 0 < i < |q| && IsQuoted(q)
    ensures OuterSpace(q[i..] + rest, true, Backslashes(q, i) % 2 == 1) == OuterSpace(rest, false, false)
    decreases |q| - i
  {
    var s, escaped := q[i..] + rest, Backslashes(q, i) % 2 == 1;
    assert s[0] == q[i] && s[1..] == q[i + 1..] + rest;
    assert Backslashes(q, i + 1) == if q[i] == '\\' then 1 + Backslashes(q, i) else 0;
    if i < |q| - 1 {
      assert !ClosesAt(q, i);
      ScanInside(q, i + 1, rest);
    } else {
      assert ClosesAt(q, i) && s[1..] == rest;
    }
  }

  lemma {:induction false} ScanUnclosed(q: string, i: nat)
    requires 0 < i <= |q| && IsUnclosed(q)
    ensures !OuterSpace(q[i..], true, Backslashes(q, i) % 2 == 1)
    decreases |q| - i
  {
    if i < |q| {
      assert q[i..][1..] == q[i + 1..] && !ClosesAt(q, i);
      assert Backslashes(q, i + 1) == if q[i] == '\\' then 1 + Backslashes(q, i) else 0;
      ScanUnclosed(q, i + 1);
    }
  }

  lemma {:induction false} ScanOutside(s: string, rest: string)
    requires '"' !in s
    ensures OuterSpace(s + rest, false, false) <==> HasSpace(s) || OuterSpace(rest, false, false)
  {
    if s == "" {
      assert s + rest == rest;
    } else {
      assert (s + rest)[0] == s[0] && (s + rest)[1..] == s[1..] + rest && s[0] in s;
      ScanOutside(s[1..], rest);
      SpaceIn(s);
    }
  }

  lemma SpaceIn(s: string)
    requires s != ""
    ensures HasSpace(s) <==> IsSpace(s[0]) || HasSpace(s[1..])
  {
    hide IsSpace;
    if HasSpace(s[1..]) {
      var i :| 0 <= i < |s| - 1 && IsSpace(s[1..][i]);
      assert IsSpace(s[i + 1]);
    }
    if HasSpace(s) && !IsSpace(s[0]) {
      var i :| 0 <= i < |s| && IsSpace(s[i]);
      assert IsSpace(s[1..][i - 1]);
    }
  }

  /** White space counts exactly where it stands outside every string. */
  lemma {:induction false} OuterSpaceExactly(text: string, stretches: seq<Stretch>, outside: string, open: string)
    requires IsLayout(text, stretches, outside, open)
    ensures OuterSpace(text, false, false)
            <==> HasSpace(outside) || exists k :: 0 <= k < |stretches| && HasSpace(stretches[k].outside)
    decreases |stretches|
  {
    hide HasSpace, IsQuoted, IsUnclosed, OuterSpace;
    if stretches == [] {
      ScanOutside(outside, open);
      ScanLast(open);
    } else {
      var first, rest := stretches[0], Laid(stretches[1..], outside + open);
      ScanOutside(first.outside, first.quoted + rest);
      ScanQuoted(first.quoted, rest);
      assert forall k :: 0 <= k < |stretches| - 1 ==> stretches[1..][k] == stretches[k + 1];
      OuterSpaceExactly(rest, stretches[1..], outside, open);
      assert forall k :: 0 < k < |stretches| ==> stretches[k] == stretches[1..][k - 1];
    }
  }

  lemma ScanQuoted(q: string, rest: string)
    requires IsQuoted(q)
    ensures OuterSpace(q + rest, false, false) == OuterSpace(rest, false, false)
  {
    assert (q + rest)[0] == '"' && (q + rest)[1..] == q[1..] + rest;
    ScanInside(q, 1, rest);
  }

  lemma ScanLast(open: string)
    requires IsUnclosed(open)
    ensures !OuterSpace(open, false, false)
  {
    if open != "" { ScanUnclosed(open, 1); }
  }

  // ---- Every text has such a layout ----

  /** The scanned end of a string is its closing quote; without one there is none. */
  lemma {:induction false} StringFrom(s: string, i: nat)
    requires 0 < i <= |s| && s[0] == '"' && forall j :: 0 < j < i ==> !ClosesAt(s, j)
    ensures match StringLength(s[i..], Backslashes(s, i) % 2 == 1)
            case None => IsUnclosed(s)
            case Some(n) => IsQuoted(s[..i + n])
    decreases |s| - i
  {
    if i < |s| {
      assert s[i..][1..] == s[i + 1..];
      assert Backslashes(s, i + 1) == if s[i] == '\\' then 1 + Backslashes(s, i) else 0;
      if ClosesAt(s, i) {
        var q := s[..i + 1];
        forall j | 0 < j <= i
          ensures ClosesAt(q, j) == ClosesAt(s, j)
        {
          SameBackslashes(s, i + 1, j);
        }
        assert ClosesAt(q, i) && IsQuoted(q) && StringLength(s[i..], false) == Some(1);
      } else {
        StringFrom(s, i + 1);
      }
    }
  }

  lemma {:induction false} SameBackslashes(s: string, n: nat, j: nat)
    requires j <= n <= |s|
    ensures Backslashes(s[..n], j) == Backslashes(s, j)
  {
    if j > 0 { SameBackslashes(s, n, j - 1); }
  }

  /** A string ends, for the scanner, exactly at the first quote that an even number of backslashes precedes. */
  lemma StringEndsExactly(s: string)
    requires s != "" && s[0] == '"'
    ensures match StringLength(s[1..], false)
            case None => IsUnclosed(s)
            case Some(n) => IsQuoted(s[..1 + n])
  {
    StringFrom(s, 1);
  }

  lemma {:induction false} HasLayout(text: string)
    returns (stretches: seq<Stretch>, outside: string, open: string)
    ensures IsLayout(text, stretches, outside, open)
    decreases |text|
  {
    hide IsQuoted, IsUnclosed, StringLength;
    var n := QuoteIn(text);
    if n == |text| {
      stretches, outside, open := [], text, "";
      NothingUnclosed();
      assert text == outside + open;
    } else {
      var s := text[n..];
      StringEndsExactly(s);
      match StringLength(s[1..], false)
      case None =>
        stretches, outside, open := [], text[..n], s;
      case Some(m) =>
        var more;
        more, outside, open := HasLayout(s[1 + m..]);
        var first := Stretch(text[..n], s[..1 + m]);
        stretches := [first] + more;
        assert stretches[1..] == more;
        assert s == first.quoted + s[1 + m..] && text == first.outside + s;
    }
  }

  lemma NothingUnclosed()
    ensures IsUnclosed("")
  {
  }

  lemma {:induction false} QuoteIn(text: string) returns (n: nat)
    ensures n <= |text| && '"' !in text[..n] && (n < |text| ==> text[n] == '"')
  {
    if text == "" || text[0] == '"' {
      n := 0;
    } else {
      n := QuoteIn(text[1..]);
      n := n + 1;
      assert text[..n] == [text[0]] + text[1..][..n - 1];
    }
  }
}
