/**
 Journal replay: the streaming frame reader, what it computes, and when two journals agree (ext-pi/src/supervisor.ts).
 */
module Journal {
  import opened Prelude
  import opened Snapshots
  import opened Reducer
  import opened TextLines
  import opened Utf8
  import RunTheorems

  const MAX_FRAME: nat := 1024 * 1024
  const MAX_JOURNAL_FILE: nat := 512 * 1024 * 1024

  type Bytes = seq<Byte>

  /** JSON.parse of one line, read as an envelope; `None` when it throws. */
  type Parser = string -> Option<Envelope>

  // ---- The simple form: fold the reducer over the non-empty lines of a text ----

  /** The index of the first newline, or the length of the text. */
  function LineEnd(text: string): (i: nat)
    ensures i <= |text|
    ensures i < |text| ==> text[i] == '\n'
    ensures forall k :: 0 <= k < i ==> text[k] != '\n'
  {
    if text == "" || text[0] == '\n' then 0 else 1 + LineEnd(text[1..])
  }

  function ReduceLine(parse: Parser, s: Snapshot, line: string): Option<Snapshot> {
    if line == "" then Some(s)
    else if |Encode(line)| > MAX_FRAME then None
    else
      match parse(line)
      case None => None
      case Some(envelope) =>
        match ReduceEvent(s, envelope)
        case Refused(_) => None
        case Ok(t) => Some(t)
  }

  /** The snapshot after the complete lines of a text, and the text after the last newline. */
  function FoldLines(parse: Parser, s: Snapshot, text: string): Option<(Snapshot, string)>
    decreases |text|
  {
    var end := LineEnd(text);
    if end == |text| then Some((s, text))
    else
      match ReduceLine(parse, s, text[..end])
      case None => None
      case Some(t) => FoldLines(parse, t, text[end + 1..])
  }

  /** The snapshot of a whole text, whose last line must be complete. */
  function FoldText(parse: Parser, s: Snapshot, text: string): Option<Snapshot> {
    match FoldLines(parse, s, text)
    case None => None
    case Some((t, rest)) => if rest == "" then Some(t) else None
  }

  function JournalText(file: Bytes): Option<string> {
    if |file| > MAX_JOURNAL_FILE then None else DecodeAll(file)
  }

  /** What a stored journal reduces to; `None` when it is refused. */
  function ReduceFile(parse: Parser, runId: string, file: Bytes): Option<Snapshot> {
    match JournalText(file)
    case None => None
    case Some(text) => FoldText(parse, InitialSnapshot(runId), text)
  }

  // ---- Laws of the fold ----

  lemma LineEndAppend(a: string, b: string)
    ensures LineEnd(a + b) == if LineEnd(a) < |a| then LineEnd(a) else |a| + LineEnd(b)
  {
    var i := if LineEnd(a) < |a| then LineEnd(a) else |a| + LineEnd(b);
    var j := LineEnd(a + b);
    assert forall k :: 0 <= k < i ==> (a + b)[k] != '\n';
    assert i < |a + b| ==> (a + b)[i] == '\n';
  }

  lemma FoldUnfolds(parse: Parser, s: Snapshot, text: string)
    ensures var end := LineEnd(text);
            FoldLines(parse, s, text)
            == if end == |text| then Some((s, text))
               else match ReduceLine(parse, s, text[..end])
                    case None => None
                    case Some(t) => FoldLines(parse, t, text[end + 1..])
  {
    hide ReduceLine, LineEnd;
  }

  /** Reading more text resumes from the unfinished line. */
  lemma {:induction false} FoldAppend(parse: Parser, s: Snapshot, a: string, b: string)
    ensures FoldLines(parse, s, a + b)
            == match FoldLines(parse, s, a)
               case None => None
               case Some((t, rest)) => FoldLines(parse, t, rest + b)
    decreases |a|
  {
    hide ReduceLine, FoldLines, LineEnd;
    LineEndAppend(a, b);
    FoldUnfolds(parse, s, a);
    FoldUnfolds(parse, s, a + b);
    var end := LineEnd(a);
    if end < |a| {
      assert (a + b)[..end] == a[..end] && (a + b)[end + 1..] == a[end + 1..] + b;
      match ReduceLine(parse, s, a[..end])
      case None =>
      case Some(t) => FoldAppend(parse, t, a[end + 1..], b);
    }
  }

  /** An unfinished line that is already too long can only be refused, whatever follows. */
  lemma OverlongIsRefused(parse: Parser, s: Snapshot, buffered: string, more: string)
    requires LineEnd(buffered) == |buffered| && |Encode(buffered)| > MAX_FRAME
    ensures FoldText(parse, s, buffered + more).None?
  {
    LineEndAppend(buffered, more);
    var end := LineEnd(buffered + more);
    if end < |buffered + more| {
      var line := (buffered + more)[..end];
      assert line == buffered + more[..end - |buffered|];
      EncodeAppend(buffered, more[..end - |buffered|]);
      assert buffered != "";
    }
  }

  /** The rest that a fold leaves over holds no newline. */
  lemma {:induction false} RestIsUnfinished(parse: Parser, s: Snapshot, text: string)
    requires FoldLines(parse, s, text).Some?
    ensures var rest := FoldLines(parse, s, text).value.1; LineEnd(rest) == |rest|
    decreases |text|
  {
    hide ReduceLine;
    var end := LineEnd(text);
    if end < |text| {
      RestIsUnfinished(parse, ReduceLine(parse, s, text[..end]).value, text[end + 1..]);
    }
  }

  // ---- The streaming reader ----

  /** A fatal TextDecoder: it holds back unfinished bytes and removes one leading byte-order mark. */
  class TextDecoder {
    var pending: Bytes
    var started: bool
    ghost var consumed: Bytes
    ghost var text: string

    ghost predicate Valid()
      reads this
    {
      && Run([], consumed) == Some((text, pending))
      && IsPending(pending)
      && (started <==> text != "")
    }

    constructor ()
      ensures Valid() && consumed == [] && text == "" && pending == []
    {
      pending, started, consumed, text := [], false, [], "";
    }

    method Decode(chunk: Bytes) returns (r: Option<string>)
      requires Valid()
      modifies this
      ensures r.Some? ==>
                Valid() && consumed == old(consumed) + chunk && StripBom(text) == StripBom(old(text)) + r.value
      ensures r.None? ==> Run([], old(consumed) + chunk).None?
    {
      hide Run;
      RunAppend([], consumed, chunk);
      match Run(pending, chunk)
      case None => return None;
      case Some((more, held)) =>
        r := Some(if started then more else StripBom(more));
        StripAppend(text, more);
        consumed, text, pending, started := consumed + chunk, text + more, held, started || more != "";
    }
  }

  lemma StripAppend(a: string, b: string)
    ensures StripBom(a + b) == if a == "" then StripBom(b) else StripBom(a) + b
  {
    if a == "" { assert a + b == b; }
  }

  function ConcatBytes(chunks: seq<Bytes>): Bytes {
    if chunks == [] then [] else chunks[0] + ConcatBytes(chunks[1..])
  }

  /** One stored journal as the restore sees it. Since SHA-256 is taken to be injective, the digest is the content. */
  datatype ReducedJournal = ReducedJournal(bytes: nat, digest: Bytes, snapshot: Snapshot)

  /** The lines of a buffer, up to the unfinished one. */
  method ConsumeLines(parse: Parser, s: Snapshot, text: string) returns (r: Option<(Snapshot, string)>)
    ensures r == FoldLines(parse, s, text)
  {
    hide ReduceLine;
    var snapshot, buffered := s, text;
    while true
      invariant FoldLines(parse, snapshot, buffered) == FoldLines(parse, s, text)
      decreases |buffered|
    {
      var newline := LineEnd(buffered);
      if newline == |buffered| { return Some((snapshot, buffered)); }
      var line := buffered[..newline];
      match ReduceLine(parse, snapshot, line)
      case None => return None;
      case Some(next) => snapshot, buffered := next, buffered[newline + 1..];
    }
  }

  /**
   Read a journal chunk by chunk, with a line buffered across chunks and a length check on the unfinished line.
   However the file is split into chunks, the outcome is the fold of the reducer over its non-empty lines.
   */
  method ReduceJournal(parse: Parser, runId: string, chunks: seq<Bytes>) returns (r: Option<ReducedJournal>)
    ensures match ReduceFile(parse, runId, ConcatBytes(chunks))
            case None => r.None?
            case Some(snapshot) => r == Some(ReducedJournal(|ConcatBytes(chunks)|, ConcatBytes(chunks), snapshot))
  {
    hide Run, FoldLines, ReduceFile, StripBom;
    ghost var file := ConcatBytes(chunks);
    var decoder := new TextDecoder();
    var total, digest, buffered, snapshot := 0, [], "", InitialSnapshot(runId);
    NothingFolds(parse, snapshot);
    for i := 0 to |chunks|
      invariant decoder.Valid() && fresh(decoder)
      invariant file == decoder.consumed + ConcatBytes(chunks[i..])
      invariant total == |decoder.consumed| <= MAX_JOURNAL_FILE && digest == decoder.consumed
      invariant FoldLines(parse, InitialSnapshot(runId), StripBom(decoder.text)) == Some((snapshot, buffered))
    {
      var chunk := chunks[i];
      assert ConcatBytes(chunks[i..]) == chunk + ConcatBytes(chunks[i..][1..]) && chunks[i..][1..] == chunks[i + 1..];
      assert file == (decoder.consumed + chunk) + ConcatBytes(chunks[i + 1..]);
      ghost var before := decoder.consumed;
      total := total + |chunk|;
      if total > MAX_JOURNAL_FILE {
        TooLarge(parse, runId, file);
        return None;
      }
      digest := digest + chunk;
      var decoded := decoder.Decode(chunk);
      if decoded.None? {
        Undecodable(parse, runId, file, before + chunk, ConcatBytes(chunks[i + 1..]));
        return None;
      }
      FoldAppend(parse, InitialSnapshot(runId), StripBom(decoder.text)[..|StripBom(decoder.text)| - |decoded.value|],
                 decoded.value);
      assert StripBom(decoder.text)[..|StripBom(decoder.text)| - |decoded.value|] + decoded.value
             == StripBom(decoder.text);
      var folded := ConsumeLines(parse, snapshot, buffered + decoded.value);
      if folded.None? {
        RefusedPrefix(parse, runId, file, decoder.consumed, ConcatBytes(chunks[i + 1..]), decoder.text,
                      decoder.pending);
        return None;
      }
      snapshot, buffered := folded.value.0, folded.value.1;
      if |Encode(buffered)| > MAX_FRAME {
        OverlongPrefix(parse, runId, file, decoder.consumed, ConcatBytes(chunks[i + 1..]), decoder.text,
                       decoder.pending);
        return None;
      }
    }
    assert decoder.consumed == file;
    FinishedJournal(parse, runId, file, decoder.text, decoder.pending, snapshot, buffered);
    if decoder.pending != [] || buffered != "" { return None; }
    return Some(ReducedJournal(total, digest, snapshot));
  }

  lemma TooLarge(parse: Parser, runId: string, file: Bytes)
    requires |file| > MAX_JOURNAL_FILE
    ensures ReduceFile(parse, runId, file).None?
  {
  }

  lemma Undecodable(parse: Parser, runId: string, file: Bytes, consumed: Bytes, rest: Bytes)
    requires file == consumed + rest && Run([], consumed).None?
    ensures ReduceFile(parse, runId, file).None?
  {
    hide FoldText;
    RunAppend([], consumed, rest);
    hide Run;
  }

  lemma NothingFolds(parse: Parser, s: Snapshot)
    ensures FoldLines(parse, s, StripBom("")) == Some((s, ""))
  {
  }

  lemma MoreText(file: Bytes, consumed: Bytes, rest: Bytes, text: string, pending: Bytes) returns (more: string)
    requires file == consumed + rest && Run([], consumed) == Some((text, pending)) && text != ""
             && JournalText(file).Some?
    ensures JournalText(file) == Some(StripBom(text) + more)
  {
    hide Run;
    RunAppend([], consumed, rest);
    more := Run(pending, rest).value.0;
    StripAppend(text, more);
  }

  lemma RefusedPrefix(parse: Parser, runId: string, file: Bytes, consumed: Bytes, rest: Bytes, text: string,
                      pending: Bytes)
    requires file == consumed + rest && Run([], consumed) == Some((text, pending))
    requires FoldLines(parse, InitialSnapshot(runId), StripBom(text)).None?
    ensures ReduceFile(parse, runId, file).None?
  {
    if JournalText(file).Some? {
      NothingFolds(parse, InitialSnapshot(runId));
      var more := MoreText(file, consumed, rest, text, pending);
      FoldAppend(parse, InitialSnapshot(runId), StripBom(text), more);
    }
  }

  lemma OverlongPrefix(parse: Parser, runId: string, file: Bytes, consumed: Bytes, rest: Bytes, text: string,
                       pending: Bytes)
    requires file == consumed + rest && Run([], consumed) == Some((text, pending))
    requires FoldLines(parse, InitialSnapshot(runId), StripBom(text)).Some?
    requires |Encode(FoldLines(parse, InitialSnapshot(runId), StripBom(text)).value.1)| > MAX_FRAME
    ensures ReduceFile(parse, runId, file).None?
  {
    if JournalText(file).Some? {
      NothingFolds(parse, InitialSnapshot(runId));
      var more := MoreText(file, consumed, rest, text, pending);
      FoldAppend(parse, InitialSnapshot(runId), StripBom(text), more);
      RestIsUnfinished(parse, InitialSnapshot(runId), StripBom(text));
      var (s, buffered) := FoldLines(parse, InitialSnapshot(runId), StripBom(text)).value;
      OverlongIsRefused(parse, s, buffered, more);
    }
  }

  lemma FinishedJournal(parse: Parser, runId: string, file: Bytes, text: string, pending: Bytes, snapshot: Snapshot,
                        buffered: string)
    requires Run([], file) == Some((text, pending)) && |file| <= MAX_JOURNAL_FILE
    requires FoldLines(parse, InitialSnapshot(runId), StripBom(text)) == Some((snapshot, buffered))
    ensures ReduceFile(parse, runId, file) == if pending == [] && buffered == "" then Some(snapshot) else None
  {
    hide Run, FoldLines;
  }

  // ---- What a journal says: the envelopes of its lines ----

  /** The envelope of a line, if it is not empty and parses. */
  function EventOf(parse: Parser, line: string): seq<Envelope> {
    if line == "" || parse(line).None? then [] else [parse(line).value]
  }

  /** The envelopes that the non-empty complete lines of a text parse to. */
  function EventsOf(parse: Parser, text: string): seq<Envelope>
    decreases |text|
  {
    var end := LineEnd(text);
    if end == |text| then [] else EventOf(parse, text[..end]) + EventsOf(parse, text[end + 1..])
  }

  lemma LineIsReplay(parse: Parser, s: Snapshot, line: string)
    requires ReduceLine(parse, s, line).Some?
    ensures Replay(s, EventOf(parse, line)) == Ok(ReduceLine(parse, s, line).value)
  {
    hide ReduceEvent;
    if line != "" {
      var first := parse(line).value;
      assert [first][..0] == [];
    }
  }

  /** A fold over lines is a replay of their envelopes. */
  lemma {:induction false} FoldIsReplay(parse: Parser, s: Snapshot, text: string)
    requires FoldLines(parse, s, text).Some?
    ensures Replay(s, EventsOf(parse, text)) == Ok(FoldLines(parse, s, text).value.0)
    decreases |text|
  {
    hide ReduceEvent;
    var end := LineEnd(text);
    if end < |text| {
      var t := ReduceLine(parse, s, text[..end]).value;
      FoldIsReplay(parse, t, text[end + 1..]);
      LineIsReplay(parse, s, text[..end]);
      ReplayAppend(s, EventOf(parse, text[..end]), EventsOf(parse, text[end + 1..]));
    }
  }

  lemma EventsUnfold(parse: Parser, text: string)
    ensures var end := LineEnd(text);
            EventsOf(parse, text)
            == if end == |text| then [] else EventOf(parse, text[..end]) + EventsOf(parse, text[end + 1..])
  {
    hide LineEnd;
  }

  /** More text only adds envelopes. */
  lemma {:induction false} EventsGrow(parse: Parser, a: string, b: string)
    ensures EventsOf(parse, a) <= EventsOf(parse, a + b)
    decreases |a|
  {
    hide LineEnd, EventsOf;
    LineEndAppend(a, b);
    EventsUnfold(parse, a);
    EventsUnfold(parse, a + b);
    var end := LineEnd(a);
    if end < |a| {
      assert (a + b)[..end] == a[..end] && (a + b)[end + 1..] == a[end + 1..] + b;
      EventsGrow(parse, a[end + 1..], b);
    }
  }

  /** The envelopes of complete lines and then of more text. */
  lemma {:induction false} EventsAppend(parse: Parser, a: string, b: string)
    requires a == "" || a[|a| - 1] == '\n'
    ensures EventsOf(parse, a + b) == EventsOf(parse, a) + EventsOf(parse, b)
    decreases |a|
  {
    hide LineEnd, EventsOf;
    LineEndAppend(a, b);
    EventsUnfold(parse, a);
    EventsUnfold(parse, a + b);
    var end := LineEnd(a);
    if a == "" {
      assert a + b == b;
    } else {
      assert (a + b)[..end] == a[..end] && (a + b)[end + 1..] == a[end + 1..] + b;
      EventsAppend(parse, a[end + 1..], b);
    }
  }

  /** Nothing is left over exactly when the text ends with a newline. */
  lemma {:induction false} NothingLeftOver(parse: Parser, s: Snapshot, text: string)
    requires FoldLines(parse, s, text).Some?
    ensures FoldLines(parse, s, text).value.1 == "" <==> text == "" || text[|text| - 1] == '\n'
    decreases |text|
  {
    hide ReduceLine;
    var end := LineEnd(text);
    if end < |text| {
      NothingLeftOver(parse, ReduceLine(parse, s, text[..end]).value, text[end + 1..]);
    }
  }

  /** A line that the reader takes: a blank one, or one within the frame limit that parses. */
  predicate Readable(parse: Parser, line: string) {
    line != "" ==> |Encode(line)| <= 1024 * 1024 && parse(line).Some?
  }

  /** The envelopes of the lines that are not blank. */
  function EnvelopesOf(parse: Parser, lines: seq<string>): seq<Envelope> {
    if lines == [] then []
    else
      (if lines[0] == "" || parse(lines[0]).None? then [] else [parse(lines[0]).value])
      + EnvelopesOf(parse, lines[1..])
  }

  ghost predicate FoldsTo(parse: Parser, s: Snapshot, lines: seq<string>, t: Option<Snapshot>) {
    t == if (forall i :: 0 <= i < |lines| ==> Readable(parse, lines[i])) && Replay(s, EnvelopesOf(parse, lines)).Ok?
         then Some(Replay(s, EnvelopesOf(parse, lines)).value) else None
  }

  lemma FirstLineOf(line: string, rest: string)
    requires '\n' !in line
    ensures var text := line + "\n" + rest;
            LineEnd(text) == |line| < |text| && text[..|line|] == line && text[|line| + 1..] == rest
  {
    var text := line + "\n" + rest;
    assert text[|line|] == '\n' && forall k :: 0 <= k < |line| ==> text[k] == line[k] && line[k] in line;
  }

  lemma LineReducesTo(parse: Parser, s: Snapshot, line: string)
    ensures FoldsTo(parse, s, [line], ReduceLine(parse, s, line))
  {
    hide ReduceEvent;
    OneEnvelope(parse, line);
    assert [line][0] == line;
    if line != "" && parse(line).Some? {
      var e := parse(line).value;
      assert [e][..0] == [] && Replay(s, [e]) == ReduceEvent(s, e);
    }
  }

  lemma OneEnvelope(parse: Parser, line: string)
    ensures EnvelopesOf(parse, [line]) == EventOf(parse, line)
  {
    assert [line][1..] == [];
    assert EventOf(parse, line) + [] == EventOf(parse, line);
  }

  lemma MoreEnvelopes(parse: Parser, lines: seq<string>)
    requires lines != []
    ensures EnvelopesOf(parse, lines) == EventOf(parse, lines[0]) + EnvelopesOf(parse, lines[1..])
  {
  }

  lemma FoldsCompose(parse: Parser, s: Snapshot, lines: seq<string>, t: Option<Snapshot>, u: Option<Snapshot>)
    requires lines != [] && FoldsTo(parse, s, [lines[0]], t)
    requires if t.Some? then FoldsTo(parse, t.value, lines[1..], u) else u.None?
    ensures FoldsTo(parse, s, lines, u)
  {
    hide ReduceEvent, Readable, Replay;
    var first := EventOf(parse, lines[0]);
    OneEnvelope(parse, lines[0]);
    MoreEnvelopes(parse, lines);
    ReplayAppend(s, first, EnvelopesOf(parse, lines[1..]));
    assert Readable(parse, [lines[0]][0]) == Readable(parse, lines[0]);
    assert forall i :: 0 < i < |lines| ==> lines[i] == lines[1..][i - 1];
    if forall i :: 0 <= i < |lines[1..]| ==> Readable(parse, lines[1..][i]) {
      assert forall i :: 0 < i < |lines| ==> Readable(parse, lines[i]);
    } else {
      var i :| 0 <= i < |lines[1..]| && !Readable(parse, lines[1..][i]);
      assert !Readable(parse, lines[i + 1]);
    }
  }

  lemma {:induction false} LinesFold(parse: Parser, s: Snapshot, lines: seq<string>, last: string)
    requires AreLines(lines) && '\n' !in last
    ensures var fold := FoldLines(parse, s, Joined(lines) + last);
            && FoldsTo(parse, s, lines, if fold.Some? then Some(fold.value.0) else None)
            && (fold.Some? ==> fold.value.1 == last)
    decreases |lines|
  {
    hide ReduceLine, LineEnd, FoldLines, FoldsTo;
    if lines == [] {
      assert Joined(lines) + last == last;
      LastFolds(parse, s, last);
    } else {
      var rest := Joined(lines[1..]) + last;
      assert Joined(lines) + last == lines[0] + "\n" + rest;
      FirstLineOf(lines[0], rest);
      FoldUnfolds(parse, s, Joined(lines) + last);
      LineReducesTo(parse, s, lines[0]);
      var t := ReduceLine(parse, s, lines[0]);
      if t.Some? {
        LinesFold(parse, t.value, lines[1..], last);
        var fold := FoldLines(parse, t.value, rest);
        FoldsCompose(parse, s, lines, t, if fold.Some? then Some(fold.value.0) else None);
      } else {
        FoldsCompose(parse, s, lines, t, None);
      }
    }
  }

  lemma LastFolds(parse: Parser, s: Snapshot, last: string)
    requires '\n' !in last
    ensures FoldLines(parse, s, last) == Some((s, last)) && FoldsTo(parse, s, [], Some(s))
  {
    assert LineEnd(last) == |last|;
  }

  /**
   A journal is accepted exactly when it is not too large, is UTF-8, ends with a newline unless it is empty, and its
   lines, within the frame limit, parse to envelopes that the reducer accepts one after the other; it then is their
   replay.
   */
  lemma JournalExactly(parse: Parser, runId: string, file: Bytes, lines: seq<string>, last: string)
    requires DecodeAll(file).Some? ==> Splits(DecodeAll(file).value, lines, last)
    ensures var envelopes := EnvelopesOf(parse, lines);
            ReduceFile(parse, runId, file)
            == if |file| <= 512 * 1024 * 1024 && DecodeAll(file).Some? && last == ""
                  && (forall i :: 0 <= i < |lines| ==> Readable(parse, lines[i]))
                  && Replay(InitialSnapshot(runId), envelopes).Ok?
               then Some(Replay(InitialSnapshot(runId), envelopes).value)
               else None
  {
    hide Replay, Readable, EnvelopesOf, FoldLines, DecodeAll, AreLines;
    if DecodeAll(file).Some? { LinesFold(parse, InitialSnapshot(runId), lines, last); }
  }

  /** An accepted journal of n envelopes is a run of the reducer that ends at sequence n - 1. */
  lemma AcceptedJournal(parse: Parser, runId: string, file: Bytes)
    requires ReduceFile(parse, runId, file).Some?
    ensures var s := ReduceFile(parse, runId, file).value;
            && Reachable(s) && s.runId == runId
            && s.lastSequence == RunTheorems.LastSequenceOf(|EventsOf(parse, JournalText(file).value)|)
  {
    hide Replay, FoldLines, EventsOf;
    var text := JournalText(file).value;
    FoldIsReplay(parse, InitialSnapshot(runId), text);
    RunTheorems.AcceptedCount(runId, EventsOf(parse, text));
  }

  // ---- Agreement of two journals ----

  function SequenceOf(s: Snapshot): int {
    match s.lastSequence case None => -1 case Some(n) => n
  }

  /**
   The prefix check of a restore: equal journals at equal sequence, otherwise the shorter one is a prefix in bytes.
   */
  predicate JournalPrefix(left: ReducedJournal, leftFile: Bytes, right: ReducedJournal, rightFile: Bytes) {
    if SequenceOf(left.snapshot) == SequenceOf(right.snapshot) then
      left.bytes == right.bytes && left.digest == right.digest
    else if SequenceOf(left.snapshot) < SequenceOf(right.snapshot) then
      left.bytes <= right.bytes && left.bytes <= |rightFile| && rightFile[..left.bytes] == left.digest
    else
      right.bytes <= left.bytes && right.bytes <= |leftFile| && leftFile[..right.bytes] == right.digest
  }

  /** The record that the reader makes of an accepted file. */
  function JournalOf(parse: Parser, runId: string, file: Bytes): ReducedJournal
    requires ReduceFile(parse, runId, file).Some?
  {
    ReducedJournal(|file|, file, ReduceFile(parse, runId, file).value)
  }

  /** Decoding a longer file resumes where a decoded prefix ended. */
  lemma TextOfPrefix(shorter: Bytes, rest: Bytes)
    requires JournalText(shorter).Some? && JournalText(shorter + rest).Some?
    ensures JournalText(shorter).value <= JournalText(shorter + rest).value
  {
    hide Run;
    RunAppend([], shorter, rest);
    var (text, held) := Run([], shorter).value;
    if shorter == [] {
      NothingRuns();
    } else {
      RunSound([], shorter);
      assert [] + shorter == shorter;
      StripAppend(text, Run(held, rest).value.0);
    }
  }

  lemma NothingRuns()
    ensures Run([], []) == Some(("", [])) && StripBom("") == ""
  {
  }

  /** The fold over a longer journal is the fold of the shorter state over the remaining lines. */
  lemma LongerResumesShorter(parse: Parser, runId: string, shorter: Bytes, longer: Bytes)
    requires shorter <= longer
    requires ReduceFile(parse, runId, shorter).Some? && ReduceFile(parse, runId, longer).Some?
    ensures JournalText(shorter).value <= JournalText(longer).value
    ensures FoldText(parse, ReduceFile(parse, runId, shorter).value,
                     JournalText(longer).value[|JournalText(shorter).value|..])
            == ReduceFile(parse, runId, longer)
  {
    hide FoldLines;
    assert longer == shorter + longer[|shorter|..];
    TextOfPrefix(shorter, longer[|shorter|..]);
    var a, b := JournalText(shorter).value, JournalText(longer).value;
    assert b == a + b[|a|..];
    FoldAppend(parse, InitialSnapshot(runId), a, b[|a|..]);
    var rest := FoldLines(parse, InitialSnapshot(runId), a).value.1;
    assert rest + b[|a|..] == b[|a|..];
  }

  /** No line of a text is reduced when the snapshot is terminal already. */
  lemma {:induction false} TerminalFold(parse: Parser, s: Snapshot, text: string)
    requires IsTerminal(s.status) && FoldLines(parse, s, text).Some?
    ensures FoldLines(parse, s, text).value.0 == s
    decreases |text|
  {
    var end := LineEnd(text);
    if end < |text| {
      assert ReduceLine(parse, s, text[..end]) == Some(s);
      TerminalFold(parse, s, text[end + 1..]);
    }
  }

  /**
   Two accepted journals that pass the prefix check: one resumes the other, and a terminal shorter one equals the
   longer.
   */
  lemma JournalsAgree(parse: Parser, runId: string, left: Bytes, right: Bytes)
    requires ReduceFile(parse, runId, left).Some? && ReduceFile(parse, runId, right).Some?
    requires JournalPrefix(JournalOf(parse, runId, left), left, JournalOf(parse, runId, right), right)
    requires SequenceOf(ReduceFile(parse, runId, left).value) <= SequenceOf(ReduceFile(parse, runId, right).value)
    ensures left <= right
    ensures JournalText(left).value <= JournalText(right).value
    ensures FoldText(parse, ReduceFile(parse, runId, left).value, JournalText(right).value[|JournalText(left).value|..])
            == ReduceFile(parse, runId, right)
    ensures IsTerminal(ReduceFile(parse, runId, left).value.status) ==> left == right
  {
    hide FoldLines, JournalText;
    LongerResumesShorter(parse, runId, left, right);
    var s := ReduceFile(parse, runId, left).value;
    if IsTerminal(s.status) {
      TerminalFold(parse, s, JournalText(right).value[|JournalText(left).value|..]);
    }
  }
}
