/** The scanner of compact JSON objects, against the compact printer (ext-pi/src/supervisor.ts). */
module JsonScanner {
  import opened Prelude
  import opened JsonPrint

  /** Whether JSON.parse accepts a text. */
  type Accepts = string -> bool

  // ---- Reading a quoted string back ----

  /** The text whose quotation is exactly this one, if any. */
  function Unquote(text: string): Option<string> {
    if |text| < 2 || text[0] != '"' || text[|text| - 1] != '"' then None else UnquoteChars(text[1..|text| - 1])
  }

  function UnquoteChars(s: string): Option<string>
    decreases |s|
  {
    if s == "" then Some("")
    else
      match UnquoteChar(s)
      case None => None
      case Some(c) =>
        var n := |QuoteChar(c)|;
        match UnquoteChars(s[n..])
        case None => None
        case Some(rest) => Some([c] + rest)
  }

  /** The character whose quotation begins this text. */
  function UnquoteChar(s: string): (r: Option<char>)
    requires s != ""
    ensures r.Some? ==> QuoteChar(r.value) <= s
  {
    if s[0] == '"' then None
    else if s[0] != '\\' then if s[0] as int < 0x20 then None else Some(s[0])
    else if |s| < 2 then None
    else if s[1] == '"' then Some('"')
    else if s[1] == '\\' then Some('\\')
    else if s[1] == 'b' then Some('\U{0008}')
    else if s[1] == 'f' then Some('\U{000C}')
    else if s[1] == 'n' then Some('\n')
    else if s[1] == 'r' then Some('\r')
    else if s[1] == 't' then Some('\t')
    else if |s| < 6 || s[1] != 'u' || s[2] != '0' || s[3] != '0' then None
    else ControlChar(s)
  }

  function HexValue(c: char): Option<nat> {
    if '0' <= c <= '9' then Some(c as int - '0' as int) else if 'a' <= c <= 'f' then Some(c as int - 'a' as int + 10)
    else None
  }

  function ControlChar(s: string): (r: Option<char>)
    requires |s| >= 6 && s[..4] == "\\u00"
    ensures r.Some? ==> QuoteChar(r.value) <= s
  {
    match HexValue(s[4])
    case None => None
    case Some(high) =>
      match HexValue(s[5])
      case None => None
      case Some(low) =>
        var c := (16 * high + low) as char;
        if high < 2 && |QuoteChar(c)| == 6 then Some(c) else None
  }

  lemma UnquoteCharIs(c: char, rest: string)
    ensures UnquoteChar(QuoteChar(c) + rest) == Some(c)
  {
    var s := QuoteChar(c) + rest;
    if |QuoteChar(c)| == 6 {
      assert s[..4] == "\\u00" && s[4] == HexDigit(c as int / 16) && s[5] == HexDigit(c as int % 16);
      assert HexValue(s[4]) == Some(c as int / 16) && HexValue(s[5]) == Some(c as int % 16);
    } else if |QuoteChar(c)| == 2 {
      assert s[0] == QuoteChar(c)[0] && s[1] == QuoteChar(c)[1];
    }
  }

  lemma {:induction false} UnquoteCharsIs(t: string)
    ensures UnquoteChars(QuoteChars(t)) == Some(t)
  {
    if t != "" {
      UnquoteCharIs(t[0], QuoteChars(t[1..]));
      UnquoteCharsIs(t[1..]);
      assert (QuoteChar(t[0]) + QuoteChars(t[1..]))[|QuoteChar(t[0])|..] == QuoteChars(t[1..]);
      assert [t[0]] + t[1..] == t;
    }
  }

  lemma {:induction false} UnquotedIsQuoted(s: string)
    requires UnquoteChars(s).Some?
    ensures QuoteChars(UnquoteChars(s).value) == s
    decreases |s|
  {
    if s != "" {
      hide UnquoteChar, QuoteChar, QuoteChars;
      var c := UnquoteChar(s).value;
      var more := s[|QuoteChar(c)|..];
      PrefixSplits(QuoteChar(c), s);
      UnquotedIsQuoted(more);
      QuoteCons(c, UnquoteChars(more).value);
    } else {
      assert QuoteChars("") == "";
    }
  }

  lemma PrefixSplits(p: string, s: string)
    requires p <= s
    ensures s == p + s[|p|..]
  {
  }

  lemma QuoteCons(c: char, rest: string)
    ensures QuoteChars([c] + rest) == QuoteChar(c) + QuoteChars(rest)
  {
    assert ([c] + rest)[1..] == rest;
  }

  /** Unquote undoes Quote, and accepts nothing else. */
  lemma UnquoteIsInverse(text: string, t: string)
    ensures Unquote(text) == Some(t) <==> text == Quote(t)
  {
    if text == Quote(t) {
      UnquoteCharsIs(t);
      assert text[1..|text| - 1] == QuoteChars(t);
    }
    if Unquote(text) == Some(t) {
      UnquotedIsQuoted(text[1..|text| - 1]);
      assert text == "\"" + text[1..|text| - 1] + "\"";
    }
  }

  // ---- The scanners, as lengths of a prefix of the text that remains ----

  function Plus(n: nat, m: Option<nat>): Option<nat> {
    match m case None => None case Some(k) => Some(n + k)
  }

  /** The characters after an opening quote up to its closing quote, inclusive. */
  function StringLength(s: string, escaped: bool): (r: Option<nat>)
    ensures r.Some? ==> 1 <= r.value <= |s|
  {
    if s == "" then None
    else if !escaped && s[0] == '"' then Some(1)
    else Plus(1, StringLength(s[1..], !escaped && s[0] == '\\'))
  }

  /** The characters up to the bracket that closes `depth` open ones. */
  function NestedLength(s: string, depth: nat): (r: Option<nat>)
    ensures r.Some? ==> 1 <= r.value <= |s|
    decreases |s|
  {
    if s == "" then None
    else if s[0] == '"' then
      match StringLength(s[1..], false)
      case None => None
      case Some(n) => Plus(1 + n, NestedLength(s[1 + n..], depth))
    else if s[0] == '{' || s[0] == '[' then Plus(1, NestedLength(s[1..], depth + 1))
    else if s[0] == '}' || s[0] == ']' then
      if depth == 1 then Some(1) else if depth == 0 then None else Plus(1, NestedLength(s[1..], depth - 1))
    else Plus(1, NestedLength(s[1..], depth))
  }

  /** The characters before a comma or a closing brace. */
  function ScalarLength(s: string): (n: nat)
    ensures n <= |s| && (n < |s| ==> s[n] == ',' || s[n] == '}')
    ensures forall i :: 0 <= i < n ==> s[i] != ',' && s[i] != '}'
  {
    if s == "" || s[0] == ',' || s[0] == '}' then 0 else 1 + ScalarLength(s[1..])
  }

  /** The length of the value that a text begins with. */
  function ValueLength(s: string): (r: Option<nat>)
    ensures r.Some? ==> r.value <= |s|
  {
    if s != "" && s[0] == '"' then Plus(1, StringLength(s[1..], false))
    else if s == "" || (s[0] != '{' && s[0] != '[') then Some(ScalarLength(s))
    else NestedLength(s, 0)
  }

  lemma SplitEntry(s: string, n: nat, m: nat)
    requires 1 + n < |s| && s[1 + n] == ':' && 2 + n + m <= |s|
    ensures s == s[..1 + n] + ":" + s[2 + n..][..m] + s[2 + n + m..]
  {
    assert s[2 + n..][..m] == s[2 + n..2 + n + m];
    assert s == s[..1 + n] + [s[1 + n]] + s[2 + n..2 + n + m] + s[2 + n + m..];
  }

  /** The first member of a text that begins with one: its key, its raw value, and what follows the value. */
  function FirstEntry(accepts: Accepts, s: string): (r: Option<(Named<string>, string)>)
    ensures r.Some? ==> s == Quote(r.value.0.name) + ":" + r.value.0.value + r.value.1 && accepts(r.value.0.value)
  {
    if s == "" || s[0] != '"' then None
    else
      match StringLength(s[1..], false)
      case None => None
      case Some(n) =>
        match Unquote(s[..1 + n])
        case None => None
        case Some(key) =>
          if 1 + n == |s| || s[1 + n] != ':' then None
          else
            match ValueLength(s[2 + n..])
            case None => None
            case Some(m) =>
              var raw := s[2 + n..][..m];
              UnquoteIsInverse(s[..1 + n], key);
              SplitEntry(s, n, m);
              if accepts(raw) then Some((Named(key, raw), s[2 + n + m..])) else None
  }

  /** The members from a position inside the braces to the closing brace, which must be the last character. */
  function EntriesFrom(accepts: Accepts, s: string): Option<seq<Named<string>>>
    decreases |s|
  {
    if |s| <= 1 then None
    else
      match FirstEntry(accepts, s)
      case None => None
      case Some((entry, rest)) =>
        if rest == "}" then Some([entry])
        else if rest == "" || rest[0] != ',' then None
        else
          match EntriesFrom(accepts, rest[1..])
          case None => None
          case Some(more) => Some([entry] + more)
  }

  function CompactEntries(accepts: Accepts, s: string): Option<seq<Named<string>>> {
    if |s| < 2 || s[0] != '{' || s[|s| - 1] != '}' then None
    else if s[1] == '}' then Some([])
    else EntriesFrom(accepts, s[1..])
  }

  // ---- What is accepted reprints to the text ----

  lemma {:induction false} EntriesReprint(accepts: Accepts, s: string)
    requires EntriesFrom(accepts, s).Some?
    ensures var entries := EntriesFrom(accepts, s).value;
            entries != [] && s == Join(MemberTexts(entries)) + "}" && forall i :: 0 <= i < |entries| ==>
                accepts(entries[i].value)
    decreases |s|
  {
    var (entry, rest) := FirstEntry(accepts, s).value;
    hide FirstEntry, Quote, Join, MemberTexts;
    if rest == "}" {
      JoinMembers(entry, []);
      assert [entry] == [entry] + [];
    } else {
      EntriesReprint(accepts, rest[1..]);
      var more := EntriesFrom(accepts, rest[1..]).value;
      JoinMembers(entry, more);
      hide EntriesFrom;
      Reassociate(Quote(entry.name) + ":" + entry.value, Join(MemberTexts(more)));
      assert rest == "," + rest[1..];
    }
  }

  lemma Reassociate(text: string, more: string)
    ensures text + ("," + (more + "}")) == (text + ("," + more)) + "}"
  {
  }

  lemma JoinMembers(entry: Named<string>, more: seq<Named<string>>)
    ensures Join(MemberTexts([entry] + more))
            == (Quote(entry.name) + ":" + entry.value) + (if more == [] then "" else "," + Join(MemberTexts(more)))
  {
    hide Quote;
    var texts := MemberTexts([entry] + more);
    assert texts[1..] == MemberTexts(more);
    if more != [] { assert texts[0] + "," + Join(texts[1..]) == texts[0] + ("," + Join(texts[1..])); }
  }

  /** A non-empty result reprints to the input: the text holds those members and nothing else. */
  lemma AcceptedReprints(accepts: Accepts, s: string)
    requires CompactEntries(accepts, s).Some? && CompactEntries(accepts, s).value != []
    ensures var entries := CompactEntries(accepts, s).value;
            s == "{" + Join(MemberTexts(entries)) + "}" && forall i :: 0 <= i < |entries| ==> accepts(entries[i].value)
  {
    EntriesReprint(accepts, s[1..]);
    InBraces(s, Join(MemberTexts(CompactEntries(accepts, s).value)));
    hide EntriesFrom, Quote, Join, MemberTexts;
  }

  lemma InBraces(s: string, text: string)
    requires s != "" && s[0] == '{' && s[1..] == text + "}"
    ensures s == "{" + text + "}"
  {
    assert s == [s[0]] + s[1..];
  }

  /** The empty result says less: the early return looks at two characters and the last one only. */
  lemma EmptyResult(accepts: Accepts, s: string)
    ensures CompactEntries(accepts, s) == Some([]) <==> |s| >= 2 && s[..2] == "{}" && s[|s| - 1] == '}'
  {
    if |s| >= 2 && s[0] == '{' && s[|s| - 1] == '}' && s[1] != '}' && EntriesFrom(accepts, s[1..]).Some? {
      EntriesReprint(accepts, s[1..]);
      hide EntriesFrom, Quote, Join, MemberTexts;
    }
  }

  // ---- The scanners as they run ----

  method JsonStringEnd(value: string, start: nat) returns (end: Option<nat>)
    requires start < |value|
    ensures end == Plus(start + 1, StringLength(value[start + 1..], false))
  {
    var escaped := false;
    for index := start + 1 to |value|
      invariant Plus(index, StringLength(value[index..], escaped))
                == Plus(start + 1, StringLength(value[start + 1..], false))
    {
      assert value[index..][1..] == value[index + 1..];
      if escaped {
        escaped := false;
      } else if value[index] == '\\' {
        escaped := true;
      } else if value[index] == '"' {
        return Some(index + 1);
      }
    }
    end := None;
  }

  method JsonValueEnd(value: string, start: nat) returns (end: Option<nat>)
    requires start <= |value|
    ensures end == Plus(start, ValueLength(value[start..]))
  {
    if start < |value| && value[start] == '"' {
      assert value[start..][1..] == value[start + 1..];
      end := JsonStringEnd(value, start);
      return;
    }
    if start == |value| || (value[start] != '{' && value[start] != '[') {
      var index := start;
      while index < |value| && value[index] != ',' && value[index] != '}'
        invariant start <= index <= |value|
        invariant index + ScalarLength(value[index..]) == start + ScalarLength(value[start..])
      {
        assert value[index..][1..] == value[index + 1..];
        index := index + 1;
      }
      return Some(index);
    }
    end := NestedEnd(value, start);
  }

  /** The position after the bracket that closes `depth` open ones, seen from a position. */
  function NestedFrom(value: string, index: nat, depth: nat): Option<nat>
    requires index <= |value|
  {
    Plus(index, NestedLength(value[index..], depth))
  }

  /** One character or one whole string of the bracket-counting loop. */
  lemma NestedNext(value: string, index: nat, depth: nat)
    requires index < |value|
    ensures var n, c := NestedFrom(value, index, depth), value[index];
            if c == '"' then
              match Plus(index + 1, StringLength(value[index + 1..], false))
              case None => n.None?
              case Some(past) => n == NestedFrom(value, past, depth)
            else if c == '{' || c == '[' then n == NestedFrom(value, index + 1, depth + 1)
            else if c == '}' || c == ']' then
              (depth == 1 ==> n == Some(index + 1)) && (depth > 1 ==> n == NestedFrom(value, index + 1, depth - 1))
            else n == NestedFrom(value, index + 1, depth)
  {
    var s := value[index..];
    assert s[1..] == value[index + 1..];
    var n := StringLength(s[1..], false);
    if n.Some? { assert s[1 + n.value..] == value[index + 1 + n.value..]; }
  }

  /** The bracket-counting loop; strings are skipped whole. */
  method NestedEnd(value: string, start: nat) returns (end: Option<nat>)
    requires start < |value| && (value[start] == '{' || value[start] == '[')
    ensures end == NestedFrom(value, start, 0)
  {
    hide NestedFrom, StringLength;
    NestedNext(value, start, 0);
    var depth, index: nat := 1, start + 1;
    while index < |value|
      invariant start < index <= |value| && depth >= 1
      invariant NestedFrom(value, index, depth) == NestedFrom(value, start, 0)
      decreases |value| - index
    {
      NestedNext(value, index, depth);
      if value[index] == '"' {
        var past := JsonStringEnd(value, index);
        if past.None? { return None; }
        index := past.value;
      } else if value[index] == '{' || value[index] == '[' {
        depth, index := depth + 1, index + 1;
      } else if value[index] == '}' || value[index] == ']' {
        if depth == 1 { return Some(index + 1); }
        depth, index := depth - 1, index + 1;
      } else {
        index := index + 1;
      }
    }
    NothingNests(value, depth);
    end := None;
  }

  lemma NothingNests(value: string, depth: nat)
    ensures NestedFrom(value, |value|, depth) == None
  {
  }

  /** The first member from a position of the text, and the position after its value. */
  function EntryAt(accepts: Accepts, value: string, index: nat): (r: Option<(Named<string>, nat)>)
    requires index <= |value|
    ensures r.Some? ==> index < r.value.1 <= |value|
  {
    match FirstEntry(accepts, value[index..])
    case None => None
    case Some((entry, rest)) => Some((entry, |value| - |rest|))
  }

  /** One key, its colon and its raw value. */
  method NextEntry(accepts: Accepts, value: string, index: nat) returns (r: Option<(Named<string>, nat)>)
    requires index < |value|
    ensures r == EntryAt(accepts, value, index)
  {
    hide Unquote, StringLength, ValueLength, Quote;
    var here := value[index..];
    if value[index] != '"' { return None; }
    var keyEnd := JsonStringEnd(value, index);
    assert here[1..] == value[index + 1..];
    if keyEnd.None? { return None; }
    assert here[..keyEnd.value - index] == value[index..keyEnd.value];
    var key := Unquote(value[index..keyEnd.value]);
    if key.None? || keyEnd.value == |value| || value[keyEnd.value] != ':' { return None; }
    var valueStart := keyEnd.value + 1;
    assert here[valueStart - index..] == value[valueStart..];
    var valueEnd := JsonValueEnd(value, valueStart);
    if valueEnd.None? { return None; }
    var raw := value[valueStart..valueEnd.value];
    assert here[valueStart - index..][..valueEnd.value - valueStart] == raw;
    if !accepts(raw) { return None; }
    r := Some((Named(key.value, raw), valueEnd.value));
  }

  /** The members from a position of the text. */
  function EntriesAt(accepts: Accepts, value: string, index: nat): Option<seq<Named<string>>>
    requires index <= |value|
  {
    EntriesFrom(accepts, value[index..])
  }

  lemma EntriesNext(accepts: Accepts, value: string, index: nat)
    requires index < |value| - 1
    ensures EntriesAt(accepts, value, index)
            == match EntryAt(accepts, value, index)
               case None => None
               case Some((entry, end)) =>
                 if end == |value| - 1 && value[end] == '}' then Some([entry])
                 else if end == |value| || value[end] != ',' then None
                 else Followed([entry], EntriesAt(accepts, value, end + 1))
  {
    hide FirstEntry, Quote;
    if EntryAt(accepts, value, index).Some? {
      var rest := FirstEntry(accepts, value[index..]).value.1;
      var end := |value| - |rest|;
      EntryEnds(accepts, value, index);
      assert rest == "}" <==> end == |value| - 1 && value[end] == '}';
      if end < |value| { assert rest[0] == value[end] && rest[1..] == value[end + 1..]; }
    }
  }

  lemma EntryEnds(accepts: Accepts, value: string, index: nat)
    requires index <= |value| && FirstEntry(accepts, value[index..]).Some?
    ensures var rest := FirstEntry(accepts, value[index..]).value.1;
            |rest| <= |value| && rest == value[|value| - |rest|..]
  {
    hide Quote;
    var (entry, rest) := FirstEntry(accepts, value[index..]).value;
    hide FirstEntry;
    SuffixIsSuffix(value[index..], Quote(entry.name) + ":" + entry.value, rest);
  }

  lemma SuffixIsSuffix(s: string, a: string, b: string)
    requires s == a + b
    ensures b == s[|s| - |b|..]
  {
  }

  method CompactObjectEntries(accepts: Accepts, value: string) returns (r: Option<seq<Named<string>>>)
    ensures r == CompactEntries(accepts, value)
  {
    CompactStart(accepts, value);
    FollowedByNothing();
    EntriesStop(accepts, value);
    hide EntryAt, EntriesAt, CompactEntries, Followed;
    if |value| < 2 || value[0] != '{' || value[|value| - 1] != '}' { return None; }
    var entries: seq<Named<string>> := [];
    var index := 1;
    if value[index] == '}' { return Some(entries); }
    FollowedByAll(EntriesAt(accepts, value, 1));
    while index < |value| - 1
      invariant 1 <= index <= |value|
      invariant CompactEntries(accepts, value) == Followed(entries, EntriesAt(accepts, value, index))
      decreases |value| - index
    {
      var next := NextEntry(accepts, value, index);
      EntriesNext(accepts, value, index);
      if next.None? { return None; }
      var (entry, end) := next.value;
      FollowedByLast(entries, entry);
      if end < |value| { FollowedNext(entries, entry, EntriesAt(accepts, value, end + 1)); }
      entries := entries + [entry];
      if end < |value| && value[end] == '}' {
        if end != |value| - 1 { return None; }
        return Some(entries);
      }
      if end == |value| || value[end] != ',' { return None; }
      index := end + 1;
    }
    return None;
  }

  lemma CompactStart(accepts: Accepts, value: string)
    ensures CompactEntries(accepts, value)
            == if |value| < 2 || value[0] != '{' || value[|value| - 1] != '}' then None
               else if value[1] == '}' then Some([])
               else EntriesAt(accepts, value, 1)
  {
    hide EntriesFrom;
  }

  lemma EntriesStop(accepts: Accepts, value: string)
    ensures forall index: nat :: |value| - 1 <= index <= |value| ==> EntriesAt(accepts, value, index).None?
  {
    hide FirstEntry;
  }

  lemma FollowedByAll(after: Option<seq<Named<string>>>)
    ensures Followed([], after) == after
  {
    if after.Some? { assert [] + after.value == after.value; }
  }

  lemma FollowedByNothing()
    ensures forall before: seq<Named<string>> :: Followed(before, None) == None
  {
  }

  lemma FollowedByLast(before: seq<Named<string>>, entry: Named<string>)
    ensures Followed(before, Some([entry])) == Some(before + [entry])
  {
  }

  lemma FollowedNext(before: seq<Named<string>>, entry: Named<string>, after: Option<seq<Named<string>>>)
    ensures Followed(before, Followed([entry], after)) == Followed(before + [entry], after)
  {
    if after.Some? { assert before + ([entry] + after.value) == before + [entry] + after.value; }
  }

  function Followed(before: seq<Named<string>>, after: Option<seq<Named<string>>>): Option<seq<Named<string>>> {
    match after case None => None case Some(more) => Some(before + more)
  }
}
