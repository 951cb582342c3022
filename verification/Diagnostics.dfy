/**
 The stored diagnostics of a run: redacted line by line, bounded, whatever the chunks (`#queueStderr` of
 ext-pi/src/supervisor.ts).
 */
module Diagnostics {
  import opened Prelude
  import opened TextLines
  import opened Utf8
  import Journal

  const MAX_STDERR_LOG: nat := 10 * 1024 * 1024
  const MAX_STDERR_LINE: nat := 64 * 1024

  /** The redaction of one line. */
  type Redactor = string -> string

  function Overlong(): string { "[REDACTED OVERLONG DIAGNOSTIC]\n" }

  function Marker(): string { "\n[agent-cat stderr truncated at 10485760 bytes]\n" }

  predicate IsOverlong(line: string) { |Encode(line)| > MAX_STDERR_LINE }

  // ---- The simple form: every line of the whole text, in order ----

  function LineOutput(redact: Redactor, line: string): string {
    if IsOverlong(line) then Overlong() else redact(line) + "\n"
  }

  function Diagnose(redact: Redactor, text: string): string
    decreases |text|
  {
    var end := Journal.LineEnd(text);
    if end < |text| then LineOutput(redact, text[..end]) + Diagnose(redact, text[end + 1..])
    else if text == "" then ""
    else if IsOverlong(text) then Overlong()
    else redact(text)
  }

  /** What follows the line that is being dropped. */
  function AfterLine(redact: Redactor, text: string): string {
    var end := Journal.LineEnd(text);
    if end == |text| then "" else Diagnose(redact, text[end + 1..])
  }

  // ---- The streaming form ----

  /** The unfinished line, or that an overlong one is being dropped. */
  datatype Held = Held(pending: string, dropping: bool)

  /** The output that is still to come from what is held and the text that follows. */
  function ToCome(redact: Redactor, held: Held, more: string): string {
    if held.dropping then AfterLine(redact, held.pending + more) else Diagnose(redact, held.pending + more)
  }

  /** What is held between chunks: an unfinished line within the limit, or nothing of a dropped one. */
  predicate AtRest(held: Held) {
    && Journal.LineEnd(held.pending) == |held.pending|
    && (if held.dropping then held.pending == "" else !IsOverlong(held.pending))
  }

  lemma OverlongGrows(line: string, more: string)
    ensures IsOverlong(line) ==> IsOverlong(line + more)
  {
    EncodeAppend(line, more);
    hide Encode;
  }

  /** The first line of a text that begins with a complete line. */
  lemma LineFirst(a: string, b: string)
    requires Journal.LineEnd(a) < |a|
    ensures var end := Journal.LineEnd(a);
            Journal.LineEnd(a + b) == end && (a + b)[..end] == a[..end] && (a + b)[end + 1..] == a[end + 1..] + b
  {
    Journal.LineEndAppend(a, b);
    hide Journal.LineEnd;
  }

  /** The first line of a text that begins with an unfinished line. */
  lemma LineGoesOn(a: string, b: string)
    requires Journal.LineEnd(a) == |a|
    ensures var end := Journal.LineEnd(b);
            Journal.LineEnd(a + b) == |a| + end && (a + b)[..|a| + end] == a + b[..end]
    ensures var end := Journal.LineEnd(b);
            end < |b| ==> (a + b)[|a| + end + 1..] == b[end + 1..]
  {
    Journal.LineEndAppend(a, b);
    hide Journal.LineEnd;
  }

  /** An unfinished line that is too long will give one redacted line, wherever it ends. */
  lemma OverlongIsDropped(redact: Redactor, pending: string, more: string)
    requires Journal.LineEnd(pending) == |pending| && IsOverlong(pending)
    ensures Diagnose(redact, pending + more) == Overlong() + AfterLine(redact, more)
  {
    LineGoesOn(pending, more);
    assert pending != "" by { assert Encode("") == []; }
    hide Journal.LineEnd, IsOverlong, Overlong;
    var end := Journal.LineEnd(more);
    OverlongGrows(pending, more[..end]);
    OverlongGrows(pending, more);
    if end == |more| { assert Overlong() + "" == Overlong(); }
  }

  /** A complete line at the front is output at once. */
  lemma LineIsOutput(redact: Redactor, pending: string, more: string)
    requires Journal.LineEnd(pending) < |pending|
    ensures var end := Journal.LineEnd(pending);
            Diagnose(redact, pending + more) == LineOutput(redact, pending[..end])
              + Diagnose(redact, pending[end + 1..] + more)
  {
    hide Journal.LineEnd, LineOutput;
    LineFirst(pending, more);
  }

  lemma DroppedLineEnds(redact: Redactor, pending: string, more: string)
    requires Journal.LineEnd(pending) < |pending|
    ensures AfterLine(redact, pending + more) == Diagnose(redact, pending[Journal.LineEnd(pending) + 1..] + more)
  {
    hide Journal.LineEnd, Diagnose;
    LineFirst(pending, more);
  }

  lemma DroppedLineGoesOn(redact: Redactor, pending: string, more: string)
    requires Journal.LineEnd(pending) == |pending|
    ensures AfterLine(redact, pending + more) == AfterLine(redact, more)
  {
    hide Journal.LineEnd, Diagnose;
    LineGoesOn(pending, more);
  }

  // ---- Cutting at a character boundary ----

  const REPLACEMENT: char := '\U{FFFD}'

  /** The longest prefix of a text whose encoding fits. */
  function Fitting(s: string, maximum: nat): (p: string)
    ensures p <= s && |Encode(p)| <= maximum
    decreases |s|
  {
    if |Encode(s)| <= maximum then s else Fitting(s[..|s| - 1], maximum)
  }

  /**
   The prefix kept of bytes that are too many: a cut character is left out, and so is a replacement character on the
   cut.
   */
  function Utf8Prefix(s: string, maximum: nat): (p: string)
    ensures p <= s && |Encode(p)| <= maximum
  {
    var p := Fitting(s, maximum);
    if |Encode(p)| == maximum && p != "" && p[|p| - 1] == REPLACEMENT then
      ShorterFits(p);
      p[..|p| - 1]
    else p
  }

  lemma ShorterFits(p: string)
    requires p != ""
    ensures Encode(p) == Encode(p[..|p| - 1]) + EncodeChar(p[|p| - 1])
  {
    assert p == p[..|p| - 1] + [p[|p| - 1]];
    EncodeAppend(p[..|p| - 1], [p[|p| - 1]]);
    EncodeOne(p[|p| - 1]);
  }

  lemma {:induction false} FittingIsLong(s: string, maximum: nat)
    requires |Encode(s)| > maximum
    ensures |Encode(Fitting(s, maximum))| >= maximum - 3
    decreases |s|
  {
    ShorterFits(s);
    if |Encode(s[..|s| - 1])| > maximum { FittingIsLong(s[..|s| - 1], maximum); }
  }

  /** A cut costs at most three bytes. */
  lemma PrefixIsLong(s: string, maximum: nat)
    requires |Encode(s)| > maximum
    ensures |Encode(Utf8Prefix(s, maximum))| >= maximum - 3
  {
    FittingIsLong(s, maximum);
    var p := Fitting(s, maximum);
    if |Encode(p)| == maximum && p != "" && p[|p| - 1] == REPLACEMENT {
      ShorterFits(p);
      assert |EncodeChar(REPLACEMENT)| == 3;
    }
  }

  // ---- The bounded log ----

  function ContentLimit(): (n: nat)
    ensures n > 0
  {
    MarkerLength();
    MAX_STDERR_LOG - |Encode(Marker())|
  }

  lemma MarkerLength()
    ensures 3 <= |Encode(Marker())| < MAX_STDERR_LOG
  {
    EncodedLength(Marker());
    assert |Marker()| == 48;
  }

  lemma {:induction false} EncodedLength(s: string)
    ensures |s| <= |Encode(s)| <= 4 * |s|
  {
    if s != "" { EncodedLength(s[1..]); }
  }

  /** The log after one more output, as bytes are appended to the file. */
  function Logged(log: seq<Byte>, output: string): seq<Byte> {
    if output == "" || |log| >= MAX_STDERR_LOG then log
    else
      var remaining := if |log| <= ContentLimit() then ContentLimit() - |log| else 0;
      if |Encode(output)| <= remaining then log + Encode(output)
      else log + Encode(Utf8Prefix(output, remaining)) + Encode(Marker())
  }

  /** The log is the content so far, or a prefix of it that was cut by at most three bytes, and one or two markers. */
  ghost predicate LogOk(content: string, log: seq<Byte>) {
    || (log == Encode(content) && |log| <= ContentLimit())
    || (exists p: string :: CutAt(content, log, p))
  }

  predicate CutAt(content: string, log: seq<Byte>, p: string) {
    && p <= content && ContentLimit() - 3 <= |Encode(p)| <= ContentLimit() < |Encode(content)|
    && (log == Encode(p) + Encode(Marker()) || (|Encode(p)| < ContentLimit()
                                                && log == Encode(p) + Encode(Marker()) + Encode(Marker())))
  }

  lemma LoggedIsOk(content: string, log: seq<Byte>, output: string)
    requires LogOk(content, log)
    ensures LogOk(content + output, Logged(log, output))
  {
    hide Encode, Marker, Utf8Prefix, CutAt, ContentLimit;
    if output == "" {
      assert content + output == content;
    } else if exists p: string :: CutAt(content, log, p) {
      var p: string :| CutAt(content, log, p);
      SecondMarker(content, log, output, p);
    } else {
      FirstCut(content, log, output);
    }
  }

  lemma SecondMarker(content: string, log: seq<Byte>, output: string, p: string)
    requires CutAt(content, log, p) && output != ""
    ensures CutAt(content + output, Logged(log, output), p)
  {
    hide Encode, Marker, Utf8Prefix, ContentLimit;
    LimitAndMarker();
    EncodeAppend(content, output);
    NothingEncodes(output);
    EmptyPrefix(output);
    PrefixOfMore(p, content, output);
    AppendNothing(log, Encode(Marker()));
  }

  lemma LimitAndMarker()
    ensures 3 <= |Encode(Marker())| && ContentLimit() + |Encode(Marker())| == MAX_STDERR_LOG
  {
    hide Encode, Marker;
    MarkerLength();
  }

  lemma PrefixOfMore(p: string, content: string, output: string)
    requires p <= content
    ensures p <= content + output
  {
  }

  lemma AppendNothing(log: seq<Byte>, marker: seq<Byte>)
    ensures log + Encode("") + marker == log + marker
  {
    assert Encode("") == [];
    assert log + [] == log;
  }

  lemma NothingEncodes(s: string)
    ensures s != "" ==> |Encode(s)| > 0
  {
  }

  lemma EmptyPrefix(s: string)
    ensures Utf8Prefix(s, 0) == ""
  {
    hide Utf8Prefix;
    NothingEncodes(Utf8Prefix(s, 0));
  }

  lemma FirstCut(content: string, log: seq<Byte>, output: string)
    requires log == Encode(content) && |log| <= ContentLimit() && output != ""
    ensures LogOk(content + output, Logged(log, output))
  {
    hide Encode, Marker, Utf8Prefix, ContentLimit;
    LimitAndMarker();
    EncodeAppend(content, output);
    var remaining := ContentLimit() - |log|;
    if |Encode(output)| > remaining {
      var cut := Utf8Prefix(output, remaining);
      PrefixIsLong(output, remaining);
      EncodeAppend(content, cut);
      assert content + cut <= content + output;
      assert CutAt(content + output, Logged(log, output), content + cut);
    }
  }

  /** The bound of the log: at most one marker more than its nominal size. */
  lemma LogIsBounded(content: string, log: seq<Byte>)
    requires LogOk(content, log)
    ensures |log| < MAX_STDERR_LOG + |Encode(Marker())|
    ensures |Encode(content)| <= ContentLimit() ==> log == Encode(content)
  {
    hide Encode, Marker, ContentLimit;
    LimitAndMarker();
  }

  // ---- When the log ends with two markers ----

  /** The log after a history of outputs. */
  function LogOf(outputs: seq<string>): seq<Byte> {
    if outputs == [] then [] else Logged(LogOf(outputs[..|outputs| - 1]), outputs[|outputs| - 1])
  }

  lemma ConcatNext(outputs: seq<string>)
    requires outputs != []
    ensures Concat(outputs) == Concat(outputs[..|outputs| - 1]) + outputs[|outputs| - 1]
  {
  }

  /**
   Whatever the outputs: the log is what they say, or a prefix of it that was cut by at most three bytes, and one or two
   markers.
   */
  lemma {:induction false} LogOfIsOk(outputs: seq<string>)
    ensures LogOk(Concat(outputs), LogOf(outputs))
  {
    hide Logged, LogOk;
    if outputs == [] {
      EmptyLogIsOk();
    } else {
      LogOfIsOk(outputs[..|outputs| - 1]);
      LoggedIsOk(Concat(outputs[..|outputs| - 1]), LogOf(outputs[..|outputs| - 1]), outputs[|outputs| - 1]);
    }
  }

  lemma EmptyLogIsOk()
    ensures LogOk("", [])
  {
    hide Marker;
    LimitAndMarker();
    assert Encode("") == [];
    hide ContentLimit;
  }

  /** After a cut, further output adds a second marker exactly when the cut had left room below the limit. */
  lemma {:induction false} AfterTheCut(log: seq<Byte>, p: string, after: seq<string>, outputs: seq<string>)
    requires LogOf(outputs) == Encode(p) + Encode(Marker()) && ContentLimit() - 3 <= |Encode(p)| <= ContentLimit()
    requires log == Encode(p) + Encode(Marker())
    ensures LogOf(outputs + after)
            == if |Encode(p)| < ContentLimit() && Concat(after) != "" then log + Encode(Marker()) else log
  {
    hide Encode, Marker, ContentLimit, Logged;
    if after == [] {
      assert outputs + after == outputs;
    } else {
      var init, last := after[..|after| - 1], after[|after| - 1];
      AfterTheCut(log, p, init, outputs);
      assert (outputs + after)[..|outputs + after| - 1] == outputs + init;
      ConcatNext(after);
      MarkedLogGrows(log, p, last);
    }
  }

  lemma MarkedLogGrows(log: seq<Byte>, p: string, output: string)
    requires log == Encode(p) + Encode(Marker()) && ContentLimit() - 3 <= |Encode(p)| <= ContentLimit()
    ensures Logged(log, output) == if |Encode(p)| < ContentLimit() && output != "" then log + Encode(Marker()) else log
    ensures |Encode(p)| < ContentLimit() ==> Logged(log + Encode(Marker()), output) == log + Encode(Marker())
  {
    hide Encode, Marker, Utf8Prefix, ContentLimit;
    LimitAndMarker();
    NothingEncodes(output);
    EmptyPrefix(output);
    AppendNothing(log, Encode(Marker()));
  }

  lemma {:induction false} UncutLog(outputs: seq<string>)
    requires |Encode(Concat(outputs))| <= ContentLimit()
    ensures LogOf(outputs) == Encode(Concat(outputs))
  {
    hide Encode, Marker, ContentLimit, Utf8Prefix;
    if outputs == [] {
      NothingWritten();
    } else {
      var init, last := outputs[..|outputs| - 1], outputs[|outputs| - 1];
      EncodeAppend(Concat(init), last);
      UncutLog(init);
      LimitAndMarker();
      NothingWritten();
      assert Encode(Concat(init)) + [] == Encode(Concat(init));
    }
  }

  lemma NothingWritten()
    ensures Encode("") == []
  {
  }

  /** What is kept of the whole when the output `cut` after the text `before` goes over the limit. */
  function KeptOf(before: string, cut: string): string
    requires |Encode(before)| <= ContentLimit()
  {
    before + Utf8Prefix(cut, ContentLimit() - |Encode(before)|)
  }

  /**
   The log of a history of outputs of which `cut` is the first to go over the limit: what is kept and one marker, and a
   second marker exactly when what is kept leaves room below the limit and something was output afterwards.
   */
  lemma SecondMarkerExactly(before: seq<string>, cut: string, after: seq<string>)
    requires |Encode(Concat(before))| <= ContentLimit() < |Encode(Concat(before) + cut)|
    ensures var p := KeptOf(Concat(before), cut);
            var log := Encode(p) + Encode(Marker());
            LogOf(before + [cut] + after)
              == if |Encode(p)| < ContentLimit() && Concat(after) != "" then log + Encode(Marker()) else log
  {
    hide Encode, Marker, Utf8Prefix, ContentLimit;
    UncutLog(before);
    LimitAndMarker();
    EncodeAppend(Concat(before), cut);
    assert (before + [cut])[..|before + [cut]| - 1] == before;
    var remaining := ContentLimit() - |Encode(Concat(before))|;
    PrefixIsLong(cut, remaining);
    EncodeAppend(Concat(before), Utf8Prefix(cut, remaining));
    var p := KeptOf(Concat(before), cut);
    hide KeptOf, Logged, LogOf;
    FirstMarker(before, cut);
    AfterTheCut(Encode(p) + Encode(Marker()), p, after, before + [cut]);
  }

  lemma FirstMarker(before: seq<string>, cut: string)
    requires LogOf(before) == Encode(Concat(before)) && |Encode(Concat(before))| <= ContentLimit()
    requires |Encode(cut)| > ContentLimit() - |Encode(Concat(before))|
    ensures LogOf(before + [cut]) == Encode(KeptOf(Concat(before), cut)) + Encode(Marker())
  {
    hide Encode, Marker, KeptOf, ContentLimit, Logged;
    assert (before + [cut])[..|before + [cut]| - 1] == before;
    CutLog(Concat(before), cut);
  }

  lemma CutLog(before: string, cut: string)
    requires |Encode(before)| <= ContentLimit() && |Encode(cut)| > ContentLimit() - |Encode(before)|
    ensures Logged(Encode(before), cut) == Encode(KeptOf(before, cut)) + Encode(Marker())
  {
    hide Encode, Marker, Utf8Prefix, ContentLimit;
    NothingWritten();
    LimitAndMarker();
    EncodeAppend(before, Utf8Prefix(cut, ContentLimit() - |Encode(before)|));
  }

  lemma {:induction false} FittingAppend(a: string, b: string, maximum: nat)
    requires |Encode(a)| <= maximum
    ensures Fitting(a + b, maximum) == a + Fitting(b, maximum - |Encode(a)|)
    decreases |b|
  {
    EncodeAppend(a, b);
    hide Encode;
    if |Encode(b)| > maximum - |Encode(a)| {
      assert b != "" by { NothingWritten(); }
      assert (a + b)[..|a + b| - 1] == a + b[..|b| - 1];
      FittingAppend(a, b[..|b| - 1], maximum);
    }
  }

  /**
   Whether the cut leaves room, in terms of the whole text that was output and of where its outputs were split: either a
   character of it straddles the limit, or the last character before the limit is a replacement character and no output
   ended there.
   */
  lemma RoomExactly(before: string, cut: string)
    requires |Encode(before)| <= ContentLimit() < |Encode(before + cut)|
    ensures var fitting := Fitting(before + cut, ContentLimit());
            |Encode(KeptOf(before, cut))| < ContentLimit()
            <==> |Encode(fitting)| < ContentLimit()
                 || (fitting != "" && fitting[|fitting| - 1] == REPLACEMENT && |Encode(before)| < ContentLimit())
  {
    hide Encode, ContentLimit;
    var limit := ContentLimit();
    FittingAppend(before, cut, limit);
    var rest := Fitting(cut, limit - |Encode(before)|);
    EncodeAppend(before, rest);
    EncodeAppend(before, Utf8Prefix(cut, limit - |Encode(before)|));
    NothingWritten();
    NothingEncodes(rest);
    if rest != "" {
      assert (before + rest)[|before + rest| - 1] == rest[|rest| - 1];
      ShorterFits(rest);
      NothingEncodes([rest[|rest| - 1]]);
      EncodeOne(rest[|rest| - 1]);
    }
  }

  // ---- Draining the queue ----

  /** Take the complete lines from what is held: the output, and what is held then. */
  function DrainOf(redact: Redactor, held: Held): (string, Held)
    decreases |held.pending|, held.dropping
  {
    var newline := Journal.LineEnd(held.pending);
    if newline == |held.pending| then
      if held.dropping then ("", Held("", true))
      else if IsOverlong(held.pending) then (Overlong(), Held("", true))
      else ("", held)
    else
      var (more, after) := DrainOf(redact, Held(held.pending[newline + 1..], false));
      ((if held.dropping then "" else LineOutput(redact, held.pending[..newline])) + more, after)
  }

  predicate Drains(redact: Redactor, before: Held, after: Held, output: string, more: string) {
    ToCome(redact, before, more) == output + ToCome(redact, after, more)
  }

  /** For every text that may follow, the output and what is still to come are what was to come before. */
  lemma {:induction false} DrainIsExact(redact: Redactor, held: Held, more: string)
    ensures var (output, after) := DrainOf(redact, held); AtRest(after) && Drains(redact, held, after, output, more)
    decreases |held.pending|
  {
    hide LineOutput, Overlong, IsOverlong, Journal.LineEnd, Drains, ToCome;
    var newline := Journal.LineEnd(held.pending);
    EmptyAtRest();
    if newline < |held.pending| {
      var rest := Held(held.pending[newline + 1..], false);
      DrainIsExact(redact, rest, more);
      var (output, after) := DrainOf(redact, rest);
      hide AtRest;
      LineIsDrained(redact, held, rest, after, output, more);
    } else {
      UnfinishedIsDrained(redact, held, more);
    }
  }

  lemma LineIsDrained(redact: Redactor, held: Held, rest: Held, after: Held, output: string, more: string)
    requires Journal.LineEnd(held.pending) < |held.pending|
             && rest == Held(held.pending[Journal.LineEnd(held.pending) + 1..], false)
    requires Drains(redact, rest, after, output, more)
    ensures var line := if held.dropping then "" else LineOutput(redact, held.pending[..Journal.LineEnd(held.pending)]);
            Drains(redact, held, after, line + output, more)
  {
    hide Diagnose, AfterLine, LineOutput, Journal.LineEnd;
    if held.dropping {
      DroppedLineEnds(redact, held.pending, more);
      assert "" + output == output;
    } else {
      LineIsOutput(redact, held.pending, more);
      Regroup(LineOutput(redact, held.pending[..Journal.LineEnd(held.pending)]), output, ToCome(redact, after, more));
    }
  }

  lemma UnfinishedIsDrained(redact: Redactor, held: Held, more: string)
    requires Journal.LineEnd(held.pending) == |held.pending|
    ensures if held.dropping then Drains(redact, held, Held("", true), "", more)
            else if IsOverlong(held.pending) then Drains(redact, held, Held("", true), Overlong(), more)
            else Drains(redact, held, held, "", more)
  {
    hide Diagnose, AfterLine, Overlong, IsOverlong, Journal.LineEnd;
    assert "" + more == more;
    if held.dropping {
      DroppedLineGoesOn(redact, held.pending, more);
      assert "" + AfterLine(redact, more) == AfterLine(redact, more);
    } else if IsOverlong(held.pending) {
      OverlongIsDropped(redact, held.pending, more);
    } else {
      assert "" + ToCome(redact, held, more) == ToCome(redact, held, more);
    }
  }

  lemma Regroup(a: string, b: string, c: string)
    ensures a + (b + c) == (a + b) + c
  {
  }

  lemma EmptyAtRest()
    ensures AtRest(Held("", true)) && AtRest(Held("", false)) && Journal.LineEnd("") == 0
  {
    assert Encode("") == [];
  }

  // ---- Chunk by chunk ----

  function HeldAfter(redact: Redactor, chunks: seq<string>): Held {
    if chunks == [] then Held("", false)
    else DrainOf(redact, Grown(HeldAfter(redact, chunks[..|chunks| - 1]), chunks[|chunks| - 1])).1
  }

  function Grown(held: Held, chunk: string): Held { Held(held.pending + chunk, held.dropping) }

  /** The output of every chunk. */
  function OutputsOf(redact: Redactor, chunks: seq<string>): seq<string> {
    if chunks == [] then []
    else
      OutputsOf(redact, chunks[..|chunks| - 1])
        + [DrainOf(redact, Grown(HeldAfter(redact, chunks[..|chunks| - 1]), chunks[|chunks| - 1])).0]
  }

  /** The outputs when the last chunk ends the stream: an unfinished line is redacted with it. */
  function FinalOutputs(redact: Redactor, chunks: seq<string>): seq<string>
    requires chunks != []
  {
    var held, outputs := HeldAfter(redact, chunks), OutputsOf(redact, chunks);
    outputs[..|outputs| - 1] + [outputs[|outputs| - 1]
                                + (if held.dropping || held.pending == "" then "" else redact(held.pending))]
  }

  /** For every text that may follow, what was output and what is to come are the redaction of the whole. */
  lemma {:induction false} OutputsAreRedaction(redact: Redactor, chunks: seq<string>, more: string)
    ensures AtRest(HeldAfter(redact, chunks))
    ensures Concat(OutputsOf(redact, chunks)) + ToCome(redact, HeldAfter(redact, chunks), more)
            == Diagnose(redact, Concat(chunks) + more)
  {
    hide Diagnose, AfterLine, DrainOf, AtRest;
    if chunks == [] {
      EmptyAtRest();
      assert "" + more == more && "" + Diagnose(redact, more) == Diagnose(redact, more);
    } else {
      var init, last := chunks[..|chunks| - 1], chunks[|chunks| - 1];
      var before := HeldAfter(redact, init);
      var (output, after) := DrainOf(redact, Grown(before, last));
      OutputsAreRedaction(redact, init, last + more);
      DrainIsExact(redact, Grown(before, last), more);
      Regroup(before.pending, last, more);
      Regroup(Concat(init), last, more);
      Regroup(Concat(OutputsOf(redact, init)), output, ToCome(redact, after, more));
      var outputs := OutputsOf(redact, chunks);
      assert outputs[..|outputs| - 1] == OutputsOf(redact, init) && outputs[|outputs| - 1] == output;
    }
  }

  lemma FinalOutputsAreRedaction(redact: Redactor, chunks: seq<string>)
    requires chunks != []
    ensures Concat(FinalOutputs(redact, chunks)) == Diagnose(redact, Concat(chunks))
  {
    OutputsAreRedaction(redact, chunks, "");
    var held, outputs := HeldAfter(redact, chunks), OutputsOf(redact, chunks);
    assert held.pending + "" == held.pending && Concat(chunks) + "" == Concat(chunks);
    FinalPart(redact, held);
    hide Diagnose, AfterLine, HeldAfter, OutputsOf;
    var last := if held.dropping || held.pending == "" then "" else redact(held.pending);
    ConcatNext(outputs);
    ConcatNext(FinalOutputs(redact, chunks));
    assert FinalOutputs(redact, chunks)[..|outputs| - 1] == outputs[..|outputs| - 1];
    Regroup(Concat(outputs[..|outputs| - 1]), outputs[|outputs| - 1], last);
  }

  // ---- Line by line: what is output is redacted ----

  lemma FirstLine(line: string, rest: string)
    requires Journal.LineEnd(line) == |line|
    ensures var text := line + "\n" + rest;
            Journal.LineEnd(text) == |line| && text[..|line|] == line && text[|line| + 1..] == rest
  {
    hide Journal.LineEnd;
    assert line + "\n" + rest == line + ("\n" + rest);
    Journal.LineEndAppend(line, "\n" + rest);
    assert ("\n" + rest)[0] == '\n';
  }

  /** What the lines of a text are output as. */
  ghost predicate Redacted(redact: Redactor, lines: seq<string>, last: string, output: string) {
    exists pieces: seq<string> ::
      && |pieces| == |lines|
      && (forall i :: 0 <= i < |lines| ==> PieceOf(redact, lines[i], pieces[i]))
      && output == Concat(pieces) + EndOf(redact, last)
  }

  /** A line within the limit is redacted; a longer one is replaced. */
  predicate PieceOf(redact: Redactor, line: string, piece: string) {
    if |Encode(line)| <= 65_536 then piece == redact(line) + "\n" else piece == "[REDACTED OVERLONG DIAGNOSTIC]\n"
  }

  /** So is an unfinished line at the end of the stream. */
  function EndOf(redact: Redactor, last: string): string {
    if last == "" then "" else if |Encode(last)| <= 65_536 then redact(last) else "[REDACTED OVERLONG DIAGNOSTIC]\n"
  }

  lemma {:induction false} DiagnoseLines(redact: Redactor, lines: seq<string>,
                                         last: string) returns (pieces: seq<string>)
    requires AreLines(lines) && '\n' !in last
    ensures |pieces| == |lines| && forall i :: 0 <= i < |lines| ==> PieceOf(redact, lines[i], pieces[i])
    ensures Diagnose(redact, Joined(lines) + last) == Concat(pieces) + EndOf(redact, last)
  {
    hide Journal.LineEnd, Encode, Diagnose;
    if lines == [] {
      pieces := [];
      assert Joined(lines) + last == last && Concat(pieces) + EndOf(redact, last) == EndOf(redact, last);
      LastIsDiagnosed(redact, last);
    } else {
      var rest := DiagnoseLines(redact, lines[1..], last);
      var piece := LineIsDiagnosed(redact, lines[0], Joined(lines[1..]) + last);
      pieces := [piece] + rest;
      assert Joined(lines) + last == lines[0] + "\n" + (Joined(lines[1..]) + last);
      ConcatFirst(piece, rest);
      Regroup(piece, Concat(rest), EndOf(redact, last));
    }
  }

  lemma LastIsDiagnosed(redact: Redactor, last: string)
    requires '\n' !in last
    ensures Diagnose(redact, last) == EndOf(redact, last)
  {
    assert Journal.LineEnd(last) == |last|;
  }

  lemma LineIsDiagnosed(redact: Redactor, line: string, rest: string) returns (piece: string)
    requires '\n' !in line
    ensures PieceOf(redact, line, piece) && Diagnose(redact, line + "\n" + rest) == piece + Diagnose(redact, rest)
  {
    assert Journal.LineEnd(line) == |line|;
    hide Encode;
    FirstLine(line, rest);
    piece := LineOutput(redact, line);
  }

  lemma {:induction false} ConcatFirst(first: string, rest: seq<string>)
    ensures Concat([first] + rest) == first + Concat(rest)
  {
    if rest == [] {
      assert [first] + rest == [first] && Concat([first][..0]) == "";
    } else {
      var init, last := rest[..|rest| - 1], rest[|rest| - 1];
      ConcatFirst(first, init);
      assert ([first] + rest)[..|[first] + rest| - 1] == [first] + init;
      Regroup(first, Concat(init), last);
    }
  }

  /**
   However the text of the stream is split into chunks, its outputs up to the end are its lines in order: each line
   within the limit redacted, each longer one replaced, and an unfinished last line likewise.
   */
  lemma OutputsAreLines(redact: Redactor, chunks: seq<string>, lines: seq<string>, last: string)
    requires chunks != [] && Splits(Concat(chunks), lines, last)
    ensures Redacted(redact, lines, last, Concat(FinalOutputs(redact, chunks)))
  {
    hide Diagnose, FinalOutputs, Concat, PieceOf, EndOf;
    FinalOutputsAreRedaction(redact, chunks);
    var pieces := DiagnoseLines(redact, lines, last);
  }

  /** A character that redaction never lets through is in no output, unless the replacement or the newline holds it. */
  lemma NothingPasses(redact: Redactor, chunks: seq<string>, c: char, i: nat)
    requires chunks != [] && i < |FinalOutputs(redact, chunks)|
    requires forall line: string :: c !in redact(line)
    requires c !in "[REDACTED OVERLONG DIAGNOSTIC]\n"
    ensures c !in FinalOutputs(redact, chunks)[i]
  {
    hide Diagnose, FinalOutputs, PieceOf, EndOf;
    var lines, last := LinesOf(Concat(chunks));
    OutputsAreLines(redact, chunks, lines, last);
    var output := Concat(FinalOutputs(redact, chunks));
    var pieces: seq<string> :|
      && |pieces| == |lines|
      && (forall k :: 0 <= k < |lines| ==> PieceOf(redact, lines[k], pieces[k]))
      && output == Concat(pieces) + EndOf(redact, last);
    forall k | 0 <= k < |pieces|
      ensures c !in pieces[k]
    {
      PieceIsClean(redact, lines[k], pieces[k], c);
    }
    EndIsClean(redact, last, c);
    ConcatIsClean(pieces, c);
    if c in FinalOutputs(redact, chunks)[i] { PartOfConcat(FinalOutputs(redact, chunks), i, c); }
  }

  lemma PieceIsClean(redact: Redactor, line: string, piece: string, c: char)
    requires PieceOf(redact, line, piece) && c !in redact(line) && c !in "[REDACTED OVERLONG DIAGNOSTIC]\n"
    ensures c !in piece
  {
  }

  lemma EndIsClean(redact: Redactor, last: string, c: char)
    requires c !in redact(last) && c !in "[REDACTED OVERLONG DIAGNOSTIC]\n"
    ensures c !in EndOf(redact, last)
  {
  }

  lemma {:induction false} ConcatIsClean(pieces: seq<string>, c: char)
    requires forall k :: 0 <= k < |pieces| ==> c !in pieces[k]
    ensures c !in Concat(pieces)
  {
    if pieces != [] { ConcatIsClean(pieces[..|pieces| - 1], c); }
  }

  lemma {:induction false} PartOfConcat(pieces: seq<string>, i: nat, c: char)
    requires i < |pieces| && c in pieces[i]
    ensures c in Concat(pieces)
  {
    if i < |pieces| - 1 { PartOfConcat(pieces[..|pieces| - 1], i, c); }
  }

  lemma FinalPart(redact: Redactor, held: Held)
    requires AtRest(held)
    ensures ToCome(redact, held, "") == if held.dropping || held.pending == "" then "" else redact(held.pending)
  {
    assert held.pending + "" == held.pending;
  }

  lemma NothingReceived(redact: Redactor)
    ensures HeldAfter(redact, []) == Held("", false) && OutputsOf(redact, []) == [] && LogOf([]) == []
  {
    hide DrainOf, Encode;
  }

  // ---- The queue ----

  class StderrQueue {
    var pending: string
    var dropping: bool
    // The bytes of stderr.log.
    var log: seq<Byte>
    // Everything received, and everything output before the bound was applied.
    ghost var chunks: seq<string>
    ghost var outputs: seq<string>

    /** Before the end of the stream: the state that the chunks lead to. */
    ghost predicate Follows(redact: Redactor)
      reads this
    {
      && Held(pending, dropping) == HeldAfter(redact, chunks)
      && outputs == OutputsOf(redact, chunks)
      && log == LogOf(outputs)
    }

    constructor (redact: Redactor)
      ensures Follows(redact) && chunks == [] && log == []
    {
      NothingReceived(redact);
      hide HeldAfter, OutputsOf, LogOf;
      pending, dropping, log, chunks, outputs := "", false, [], [], [];
    }

    /** Take complete lines from what is pending; stop at an unfinished one. */
    method Drain(redact: Redactor) returns (output: string)
      modifies this`pending, this`dropping
      ensures (output, Held(pending, dropping)) == DrainOf(redact, old(Held(pending, dropping)))
    {
      hide LineOutput, Overlong, IsOverlong, Journal.LineEnd;
      output := "";
      ghost var before := Held(pending, dropping);
      assert "" + DrainOf(redact, before).0 == DrainOf(redact, before).0;
      while true
        invariant var (more, after) := DrainOf(redact, Held(pending, dropping));
                  (output + more, after) == DrainOf(redact, before)
        decreases |pending|, dropping
      {
        var newline := Journal.LineEnd(pending);
        if dropping {
          if newline == |pending| {
            pending := "";
            assert output + "" == output;
            break;
          }
          pending, dropping := pending[newline + 1..], false;
          assert forall more: string :: "" + more == more;
        } else if newline == |pending| {
          assert output + "" == output;
          if IsOverlong(pending) { output, pending, dropping := output + Overlong(), "", true; }
          break;
        } else {
          var line, rest := LineOutput(redact, pending[..newline]), pending[newline + 1..];
          Regroup(output, line, DrainOf(redact, Held(rest, false)).0);
          output, pending := output + line, rest;
        }
      }
    }

    /** One chunk, or the end of the stream. */
    method Queue(redact: Redactor, chunk: string, final: bool)
      requires Follows(redact)
      modifies this
      ensures chunks == old(chunks) + [chunk] && log == LogOf(outputs) && LogOk(Concat(outputs), log)
      ensures !final ==> Follows(redact)
      ensures final ==> outputs == FinalOutputs(redact, chunks)
      ensures final ==> forall lines, last ::
                Splits(Concat(chunks), lines, last) ==> Redacted(redact, lines, last, Concat(outputs))
    {
      hide Diagnose, LineOutput, LogOk, Logged, DrainOf, HeldAfter, OutputsOf, LogOf, FinalOutputs, Concat, Redacted,
           Splits;
      NextChunk(redact, chunks, chunk);
      pending := pending + chunk;
      var output := Drain(redact);
      chunks := chunks + [chunk];
      if final {
        forall lines, last | Splits(Concat(chunks), lines, last)
          ensures Redacted(redact, lines, last, Concat(FinalOutputs(redact, chunks)))
        {
          OutputsAreLines(redact, chunks, lines, last);
        }
        if !dropping && pending != "" { output := output + redact(pending); } else { assert output + "" == output; }
        pending := if dropping then pending else "";
      }
      NextLog(outputs, output);
      outputs := outputs + [output];
      LogOfIsOk(outputs);
      log := Logged(log, output);
    }
  }

  lemma NextChunk(redact: Redactor, chunks: seq<string>, chunk: string)
    ensures var (output, held) := DrainOf(redact, Grown(HeldAfter(redact, chunks), chunk));
            && HeldAfter(redact, chunks + [chunk]) == held
            && OutputsOf(redact, chunks + [chunk]) == OutputsOf(redact, chunks) + [output]
            && FinalOutputs(redact, chunks + [chunk])
               == OutputsOf(redact, chunks) + [output
                                               + (if held.dropping || held.pending == "" then ""
                                                  else redact(held.pending))]
  {
    hide DrainOf;
    assert (chunks + [chunk])[..|chunks + [chunk]| - 1] == chunks;
    var (output, held) := DrainOf(redact, Grown(HeldAfter(redact, chunks), chunk));
    assert (OutputsOf(redact, chunks) + [output])[..|OutputsOf(redact, chunks)|] == OutputsOf(redact, chunks);
  }

  lemma NextLog(outputs: seq<string>, output: string)
    ensures LogOf(outputs + [output]) == Logged(LogOf(outputs), output)
  {
    hide Logged;
    assert (outputs + [output])[..|outputs + [output]| - 1] == outputs;
  }

  // ---- Two markers do happen ----

  /** Short lines of eight bytes each. */
  function Lines(n: nat): string { if n == 0 then "" else Letters(7) + "\n" + Lines(n - 1) }

  lemma {:induction false} LinesEncoded(n: nat)
    ensures |Encode(Lines(n))| == 8 * n
  {
    AsciiEncoded(Letters(7) + "\n");
    NothingWritten();
    if n > 0 {
      LinesEncoded(n - 1);
      hide Encode, Letters;
      EncodeAppend(Letters(7) + "\n", Lines(n - 1));
    }
  }

  function AsIs(): Redactor { (line: string) => line }

  /** A short complete line is output as it is. */
  lemma LineDrained(line: string, rest: string)
    requires Journal.LineEnd(line) == |line| && !IsOverlong(line)
    ensures var (more, after) := DrainOf(AsIs(), Held(rest, false));
            DrainOf(AsIs(), Held(line + "\n" + rest, false)) == (line + "\n" + more, after)
  {
    hide IsOverlong, Journal.LineEnd, AsIs, LineOutput;
    FirstLine(line, rest);
    OutputAsIs(line);
  }

  lemma OutputAsIs(line: string)
    requires !IsOverlong(line)
    ensures LineOutput(AsIs(), line) == line + "\n"
  {
  }

  lemma LettersAreLine(n: nat, more: string)
    requires more == "" || more == "\U{00E9}"
    requires n <= 7
    ensures Journal.LineEnd(Letters(n) + more) == |Letters(n) + more| && !IsOverlong(Letters(n) + more)
  {
    EncodedLength(Letters(n) + more);
  }

  lemma {:induction false} LinesDrained(n: nat, rest: string)
    ensures var (more, after) := DrainOf(AsIs(), Held(rest, false));
            DrainOf(AsIs(), Held(Lines(n) + rest, false)) == (Lines(n) + more, after)
  {
    var (more, after) := DrainOf(AsIs(), Held(rest, false));
    hide DrainOf, AsIs, Letters, Journal.LineEnd, IsOverlong;
    if n == 0 {
      assert "" + rest == rest && "" + more == more;
    } else {
      LinesDrained(n - 1, rest);
      LettersAreLine(7, "");
      assert Letters(7) + "" == Letters(7);
      LineDrained(Letters(7), Lines(n - 1) + rest);
      assert Lines(n) + rest == Letters(7) + "\n" + (Lines(n - 1) + rest);
      assert Lines(n) + more == Letters(7) + "\n" + (Lines(n - 1) + more);
    }
  }

  /** Lines that fill the log to the byte before its limit. */
  function AlmostFull(): string {
    Lines((ContentLimit() - 1) / 8) + Letters((ContentLimit() - 1) % 8)
  }

  /** A text of which one character straddles the limit, received before some more text. */
  function Straddling(): seq<string> { [AlmostFull() + "\U{00E9}" + "\n", "\n"] }

  lemma NothingDrained()
    ensures DrainOf(AsIs(), Held("", false)) == ("", Held("", false))
  {
    NothingWritten();
  }

  /** A text that is drained to nothing is output as it is. */
  lemma DrainedText(lines: nat, letters: nat)
    requires letters <= 7
    ensures var text := Lines(lines) + Letters(letters) + "\U{00E9}" + "\n";
            DrainOf(AsIs(), Held(text, false)) == (text, Held("", false))
  {
    hide DrainOf, AsIs, Letters, Lines, Journal.LineEnd, IsOverlong;
    var line := Letters(letters) + "\U{00E9}";
    LettersAreLine(letters, "\U{00E9}");
    LineDrained(line, "");
    NothingDrained();
    assert line + "\n" + "" == line + "\n";
    LinesDrained(lines, line + "\n");
    assert Lines(lines) + (line + "\n") == Lines(lines) + Letters(letters) + "\U{00E9}" + "\n";
  }

  lemma EmptyLineDrained()
    ensures DrainOf(AsIs(), Held("\n", false)) == ("\n", Held("", false))
  {
    hide DrainOf, AsIs;
    NothingDrained();
    assert "" + "\n" + "" == "\n";
    assert !IsOverlong("") by { NothingWritten(); }
    LineDrained("", "");
  }

  lemma OutputsOfTwo(redact: Redactor, a: string, b: string)
    requires DrainOf(redact, Held(a, false)) == (a, Held("", false))
             && DrainOf(redact, Held(b, false)) == (b, Held("", false))
    ensures OutputsOf(redact, [a, b]) == [a, b]
  {
    hide DrainOf;
    assert [a, b][..1] == [a] && [a][..0] == [];
    assert "" + a == a && "" + b == b;
    assert HeldAfter(redact, [a]) == Held("", false) && OutputsOf(redact, [a]) == [a];
  }

  lemma AlmostFullIs()
    ensures |Encode(AlmostFull())| == ContentLimit() - 1
  {
    hide Lines, Encode, Letters;
    var lines, letters := (ContentLimit() - 1) / 8, (ContentLimit() - 1) % 8;
    LinesEncoded(lines);
    LettersEncoded(letters);
    EncodeAppend(Lines(lines), Letters(letters));
  }

  lemma StraddlingIsOutput()
    ensures OutputsOf(AsIs(), Straddling()) == Straddling()
  {
    hide Lines, Letters, AsIs, DrainOf, OutputsOf, ContentLimit;
    DrainedText((ContentLimit() - 1) / 8, (ContentLimit() - 1) % 8);
    EmptyLineDrained();
    OutputsOfTwo(AsIs(), Straddling()[0], Straddling()[1]);
  }

  /** The stored log of this diagnostics text ends with two markers. */
  lemma TwoMarkersHappen()
    ensures LogOf(OutputsOf(AsIs(), Straddling())) == Encode(AlmostFull()) + Encode(Marker()) + Encode(Marker())
  {
    hide AlmostFull, OutputsOf, LogOf, Encode, Marker, ContentLimit, KeptOf;
    StraddlingIsOutput();
    AlmostFullIs();
    StraddlingCut(AlmostFull(), "\n");
    var cut := AlmostFull() + "\U{00E9}" + "\n";
    assert Straddling() == [] + [cut] + ["\n"] && "" + cut == cut;
    assert ["\n"][..0] == [];
    assert Concat(["\n"]) == "" + "\n" && Concat([]) == "";
    NothingWritten();
    SecondMarkerExactly([], cut, ["\n"]);
  }

  /** A two-byte character on the limit: the text before it is kept. */
  lemma StraddlingCut(kept: string, more: string)
    requires |Encode(kept)| == ContentLimit() - 1
    ensures KeptOf("", kept + "\U{00E9}" + more) == kept && |Encode(kept + "\U{00E9}" + more)| > ContentLimit()
  {
    hide Encode, ContentLimit;
    NothingWritten();
    TwoBytes(more);
    EncodeAppend(kept, "\U{00E9}" + more);
    assert kept + ("\U{00E9}" + more) == kept + "\U{00E9}" + more;
    FittingAppend(kept, "\U{00E9}" + more, ContentLimit());
    FitsNothing("\U{00E9}" + more);
    assert kept + "" == kept && "" + kept == kept;
  }

  lemma TwoBytes(more: string)
    ensures |Encode("\U{00E9}" + more)| >= 2
  {
    EncodeAppend("\U{00E9}", more);
    assert "\U{00E9}"[1..] == "";
  }

  /** No prefix of a text that begins with a two-byte character has one byte. */
  lemma FitsNothing(s: string)
    requires s != "" && s[0] == '\U{00E9}'
    ensures Fitting(s, 1) == ""
  {
  }
}
