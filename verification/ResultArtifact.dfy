/** The verification of a stored result artifact (`verifyResultArtifact` of ext-pi/src/supervisor.ts). */
module ResultArtifact {
  import opened Prelude
  import opened Snapshots
  import opened Sorting
  import opened Jsons
  import opened JsonPrint
  import opened JsonScanner
  import opened JsonRoundTrip
  import opened JsonReading
  import opened JsonValues
  import Utf8

  type Bytes = seq<Utf8.Byte>

  /**
   What the verification takes from its platform: JSON.parse, the double that a number text is shown as, and SHA-256.
   */
  datatype Platform = Platform(parse: string -> Option<Value>, shown: NumberText -> string, sha256: Bytes -> string)

  function AcceptedBy(parse: string -> Option<Value>): Accepts { text => parse(text).Some? }

  function VersionKey(): string { "artifactVersion" }

  function ResultKey(): string { "result" }

  function RunKey(): string { "runId" }

  function CodeKey(): string { "code" }

  function ValueKey(): string { "value" }

  /** The bytes before the decoding: their number, their digest, and a newline at the end only. */
  predicate BytesMatch(platform: Platform, reference: ResultRef, bytes: Bytes): (r: bool)
    ensures r ==> bytes != [] && bytes == bytes[..|bytes| - 1] + [10]
  {
    && |bytes| <= MAX_SNAPSHOT_FILE
    && IsDecimal(reference.bytes) && DigitsValue(reference.bytes) == |bytes|
    && platform.sha256(bytes) == reference.sha256
    && bytes != [] && bytes[|bytes| - 1] == 10 && 10 !in bytes[..|bytes| - 1]
  }

  /** The parsed value against the raw entries. */
  predicate FieldsMatch(platform: Platform, runId: string, code: Value, artifact: Value, entries: seq<Named<string>>) {
    && artifact.JObj?
    && NamesOf(entries) == [VersionKey(), ResultKey(), RunKey()]
    && entries[0].value == "1" && Lookup(artifact.members, VersionKey()) == Some(JNum("1"))
    && entries[2].value == Quote(runId) && Lookup(artifact.members, RunKey()) == Some(JText(runId))
    && Lookup(artifact.members, ResultKey()).Some? && Lookup(artifact.members, ResultKey()).value.JObj?
    && CodeMatches(code, Lookup(artifact.members, ResultKey()).value.members,
                   CompactEntries(AcceptedBy(platform.parse), entries[1].value))
  }

  /** The code against its raw text and against the parsed field, both by JSON.stringify. */
  predicate CodeMatches(code: Value, result: seq<Named<Value>>, entries: Option<seq<Named<string>>>) {
    && entries.Some? && NamesOf(entries.value) == [CodeKey(), ValueKey()]
    && entries.value[0].value == Stringify(code)
    && Lookup(result, CodeKey()).Some? && Stringify(Lookup(result, CodeKey()).value) == Stringify(code)
  }

  predicate TextMatches(platform: Platform, runId: string, code: Value, compact: string) {
    && !OuterSpace(compact, false, false)
    && platform.parse(compact).Some?
    && CompactEntries(AcceptedBy(platform.parse), compact).Some?
    && FieldsMatch(platform, runId, code, platform.parse(compact).value,
                   CompactEntries(AcceptedBy(platform.parse), compact).value)
  }

  predicate Verified(platform: Platform, runId: string, reference: ResultRef, bytes: Bytes) {
    && BytesMatch(platform, reference, bytes)
    && var decoded := Utf8.DecodeAll(bytes[..|bytes| - 1]);
       decoded.Some? && TextMatches(platform, runId, reference.code, decoded.value)
  }

  /** The verification as it runs. */
  method VerifyResultArtifact(platform: Platform, runId: string, reference: ResultRef,
                              bytes: Bytes) returns (accepted: bool)
    ensures accepted == Verified(platform, runId, reference, bytes)
  {
    hide CompactEntries, OuterSpace, Lookup, Quote, Stringify, VersionKey, ResultKey, RunKey, CodeKey, ValueKey;
    if !BytesMatch(platform, reference, bytes) { return false; }
    var compact := Utf8.DecodeAll(bytes[..|bytes| - 1]);
    if compact.None? { return false; }
    var spaced := JsonHasOuterWhitespace(compact.value);
    if spaced { return false; }
    var artifact := platform.parse(compact.value);
    if artifact.None? || !artifact.value.JObj? { return false; }
    var found := CompactObjectEntries(AcceptedBy(platform.parse), compact.value);
    if found.None? { return false; }
    var entries := found.value;
    if NamesOf(entries) != [VersionKey(), ResultKey(), RunKey()] { return false; }
    if entries[0].value != "1" || Lookup(artifact.value.members, VersionKey()) != Some(JNum("1")) { return false; }
    if entries[2].value != Quote(runId) || Lookup(artifact.value.members, RunKey()) != Some(JText(runId)) {
      return false;
    }
    var result := Lookup(artifact.value.members, ResultKey());
    if result.None? || !result.value.JObj? { return false; }
    var resultEntries := CompactObjectEntries(AcceptedBy(platform.parse), entries[1].value);
    if resultEntries.None? || NamesOf(resultEntries.value) != [CodeKey(), ValueKey()] { return false; }
    var code := Lookup(result.value.members, CodeKey());
    return resultEntries.value[0].value == Stringify(reference.code) && code.Some?
           && Stringify(code.value) == Stringify(reference.code);
  }

  // ---- What is accepted has one fixed shape ----

  /** The artifact of a result: the fixed members around the texts of its code and value. */
  function ArtifactEntries(runId: string, code: string, value: string): seq<Named<string>> {
    [Named(VersionKey(), "1"), Named(ResultKey(), ObjectOf(ResultEntries(code, value))), Named(RunKey(), Quote(runId))]
  }

  function ResultEntries(code: string, value: string): seq<Named<string>> {
    [Named(CodeKey(), code), Named(ValueKey(), value)]
  }

  function ObjectOf(entries: seq<Named<string>>): string { "{" + Join(MemberTexts(entries)) + "}" }

  function ArtifactText(runId: string, code: string, value: string): string {
    ObjectOf(ArtifactEntries(runId, code, value))
  }

  lemma AcceptedIsObject(accepts: Accepts, text: string)
    requires CompactEntries(accepts, text).Some? && CompactEntries(accepts, text).value != []
    ensures var entries := CompactEntries(accepts, text).value;
            text == ObjectOf(entries) && forall i :: 0 <= i < |entries| ==> accepts(entries[i].value)
  {
    AcceptedReprints(accepts, text);
  }

  lemma ResultShape(accepts: Accepts, code: string, text: string)
    requires var entries := CompactEntries(accepts, text);
             entries.Some? && NamesOf(entries.value) == [CodeKey(), ValueKey()] && entries.value[0].value == code
    ensures var entries := CompactEntries(accepts, text).value;
            text == ObjectOf(ResultEntries(code, entries[1].value)) && accepts(entries[1].value)
  {
    var entries := CompactEntries(accepts, text).value;
    hide CompactEntries, Join, Quote, MemberTexts, ObjectOf, VersionKey, ResultKey, RunKey, CodeKey, ValueKey;
    AcceptedIsObject(accepts, text);
    assert NamesOf(entries)[0] == entries[0].name && NamesOf(entries)[1] == entries[1].name;
    assert entries == ResultEntries(code, entries[1].value);
  }

  lemma ArtifactShape(accepts: Accepts, runId: string, code: string, text: string)
    requires var entries := CompactEntries(accepts, text);
             && entries.Some? && NamesOf(entries.value) == [VersionKey(), ResultKey(), RunKey()]
             && entries.value[0].value == "1" && entries.value[2].value == Quote(runId)
             && var inner := CompactEntries(accepts, entries.value[1].value);
                inner.Some? && NamesOf(inner.value) == [CodeKey(), ValueKey()] && inner.value[0].value == code
    ensures exists value :: text == ArtifactText(runId, code, value) && accepts(value)
  {
    hide *;
    var entries := CompactEntries(accepts, text).value;
    AcceptedIsObject(accepts, text);
    ResultShape(accepts, code, entries[1].value);
    var value := CompactEntries(accepts, entries[1].value).value[1].value;
    ArtifactOf(entries, runId, code, value);
    assert text == ArtifactText(runId, code, value) && accepts(value);
  }

  lemma ArtifactOf(entries: seq<Named<string>>, runId: string, code: string, value: string)
    requires NamesOf(entries) == [VersionKey(), ResultKey(), RunKey()]
    requires entries[0].value == "1" && entries[1].value == ObjectOf(ResultEntries(code, value))
             && entries[2].value == Quote(runId)
    ensures ObjectOf(entries) == ArtifactText(runId, code, value)
  {
    hide ObjectOf, Quote, ResultEntries, VersionKey, ResultKey, RunKey;
    assert NamesOf(entries)[0] == entries[0].name && NamesOf(entries)[1] == entries[1].name
           && NamesOf(entries)[2] == entries[2].name;
    assert entries == ArtifactEntries(runId, code, value);
  }

  lemma AcceptedMatches(platform: Platform, runId: string, reference: ResultRef, bytes: Bytes)
    requires Verified(platform, runId, reference, bytes)
    ensures IsDecimal(reference.bytes) && DigitsValue(reference.bytes) == |bytes| <= 64 * 1024 * 1024
    ensures platform.sha256(bytes) == reference.sha256
  {
    hide TextMatches, IsDecimal, DigitsValue, Utf8.DecodeAll;
  }

  /** What the accepted text is parsed to, and that it has white space inside strings only. */
  lemma AcceptedFields(platform: Platform, runId: string, reference: ResultRef, bytes: Bytes)
    returns (text: string, result: Value)
    requires Verified(platform, runId, reference, bytes)
    ensures Utf8.DecodeAll(bytes[..|bytes| - 1]) == Some(text) && 10 !in bytes[..|bytes| - 1]
    ensures !OuterSpace(text, false, false)
    ensures platform.parse(text).Some? && platform.parse(text).value.JObj? && result.JObj?
    ensures var members := platform.parse(text).value.members;
            && Lookup(members, "artifactVersion") == Some(JNum("1"))
            && Lookup(members, "runId") == Some(JText(runId))
            && Lookup(members, "result") == Some(result)
    ensures var code := Lookup(result.members, "code");
            code.Some? && Stringify(code.value) == Stringify(reference.code)
  {
    hide CompactEntries, OuterSpace, Lookup, Quote, Stringify, IsDecimal, DigitsValue, Utf8.DecodeAll;
    text := Utf8.DecodeAll(bytes[..|bytes| - 1]).value;
    result := Lookup(platform.parse(text).value.members, ResultKey()).value;
  }

  /** With a digest that tells bytes apart, one reference accepts at most one artifact. */
  lemma OneArtifactPerReference(platform: Platform, runId: string, otherRun: string, reference: ResultRef, bytes: Bytes,
                                other: Bytes)
    requires forall a: Bytes, b: Bytes :: platform.sha256(a) == platform.sha256(b) ==> a == b
    requires Verified(platform, runId, reference, bytes) && Verified(platform, otherRun, reference, other)
    ensures bytes == other
  {
    hide Verified;
    AcceptedMatches(platform, runId, reference, bytes);
    AcceptedMatches(platform, otherRun, reference, other);
  }

  /** The bytes of a byte-order mark. */
  const BOM_BYTES: Bytes := [0xEF, 0xBB, 0xBF]

  /**
   An accepted artifact is, byte for byte, the encoding of the fixed shape around JSON.stringify of the code and some
   JSON text, and one newline - behind a byte-order mark, if it begins with one: the decoder removes a leading mark, so
   the verification cannot see it. Its length and its digest are those that the reference names.
   */
  lemma AcceptedArtifact(platform: Platform, runId: string, reference: ResultRef, bytes: Bytes) returns (value: string)
    requires Verified(platform, runId, reference, bytes)
    ensures IsDecimal(reference.bytes) && DigitsValue(reference.bytes) == |bytes| <= 64 * 1024 * 1024
    ensures platform.sha256(bytes) == reference.sha256
    ensures platform.parse(value).Some?
    ensures var text := ArtifactText(runId, Stringify(reference.code), value);
            if BOM_BYTES <= bytes then bytes == BOM_BYTES + Utf8.Encode(text) + [10]
            else bytes == Utf8.Encode(text) + [10]
  {
    hide *;
    AcceptedMatches(platform, runId, reference, bytes);
    var text := VerifiedText(platform, runId, reference, bytes);
    value := TextShape(platform, runId, reference.code, text);
    var body := bytes[..|bytes| - 1];
    ArtifactStart(runId, Stringify(reference.code), value);
    BodyOfText(body, text);
    if BOM_BYTES <= body {
      assert BOM_BYTES <= bytes;
    } else {
      assert bytes[0] == body[0] == 0x7B;
    }
  }

  lemma VerifiedText(platform: Platform, runId: string, reference: ResultRef, bytes: Bytes) returns (text: string)
    requires Verified(platform, runId, reference, bytes)
    ensures bytes != [] && bytes == bytes[..|bytes| - 1] + [10]
    ensures Utf8.DecodeAll(bytes[..|bytes| - 1]) == Some(text) && TextMatches(platform, runId, reference.code, text)
  {
    hide TextMatches, BytesMatch, Utf8.DecodeAll;
    text := Utf8.DecodeAll(bytes[..|bytes| - 1]).value;
  }

  lemma TextShape(platform: Platform, runId: string, code: Value, text: string) returns (value: string)
    requires TextMatches(platform, runId, code, text)
    ensures text == ArtifactText(runId, Stringify(code), value) && platform.parse(value).Some?
  {
    hide CompactEntries, OuterSpace, Lookup, ArtifactText, Quote, Stringify, VersionKey, ResultKey, RunKey, CodeKey,
         ValueKey;
    ArtifactShape(AcceptedBy(platform.parse), runId, Stringify(code), text);
    value :| text == ArtifactText(runId, Stringify(code), value) && AcceptedBy(platform.parse)(value);
  }

  lemma BodyOfText(body: Bytes, text: string)
    requires Utf8.DecodeAll(body) == Some(text) && text != "" && text[0] == '{'
    ensures if BOM_BYTES <= body then body == BOM_BYTES + Utf8.Encode(text)
            else body == Utf8.Encode(text) && body != [] && body[0] == 0x7B
    ensures BOM_BYTES[0] == 0xEF
  {
    Utf8.DecodeExactly(body, text);
    EncodedStart(text);
    EncodedBom(text);
    hide Utf8.DecodeAll, Utf8.Encode;
  }

  lemma ArtifactStart(runId: string, code: string, value: string)
    ensures ArtifactText(runId, code, value) != "" && ArtifactText(runId, code, value)[0] == '{'
  {
  }

  lemma EncodedStart(text: string)
    requires text != "" && text[0] == '{'
    ensures Utf8.Encode(text) != [] && Utf8.Encode(text)[0] == 0x7B
  {
  }

  lemma EncodedBom(text: string)
    ensures Utf8.Encode([Utf8.BOM] + text) == BOM_BYTES + Utf8.Encode(text)
  {
    assert ([Utf8.BOM] + text)[1..] == text;
    assert Utf8.EncodeChar(Utf8.BOM) == BOM_BYTES;
  }

  /** The mark is not only tolerated: any accepted artifact stays accepted behind one, under the matching reference. */
  lemma MarkedArtifact(platform: Platform, runId: string, reference: ResultRef, bytes: Bytes, marked: ResultRef)
    requires Verified(platform, runId, reference, bytes) && !(BOM_BYTES <= bytes)
    requires marked.code == reference.code && BytesMatch(platform, marked, BOM_BYTES + bytes)
    ensures Verified(platform, runId, marked, BOM_BYTES + bytes)
  {
    hide TextMatches, BytesMatch, Utf8.DecodeAll, Utf8.Encode;
    var text := VerifiedText(platform, runId, reference, bytes);
    var body := bytes[..|bytes| - 1];
    MarkedBody(body, text, bytes);
    assert (BOM_BYTES + bytes)[..|BOM_BYTES + bytes| - 1] == BOM_BYTES + body;
  }

  lemma MarkedBody(body: Bytes, text: string, bytes: Bytes)
    requires Utf8.DecodeAll(body) == Some(text) && body <= bytes && !(BOM_BYTES <= bytes)
    ensures Utf8.DecodeAll(BOM_BYTES + body) == Some(text)
  {
    Utf8.DecodeExactly(body, text);
    EncodedBom(text);
    Utf8.DecodeExactly(BOM_BYTES + body, text);
    hide Utf8.DecodeAll, Utf8.Encode;
  }

  // ---- Which printed artifacts are accepted ----

  /** JSON.parse reads every compact print: doubles for its numbers, members in own order. */
  ghost predicate ReadsBack(platform: Platform) {
    forall j: Json :: Valid(j) ==> platform.parse(Encode(j)) == Some(ReadOf(j, platform.shown))
  }

  /** A reader that gives some tree back whose print a text is. */
  ghost function Reader(text: string): (r: Option<Json>)
    ensures r.Some? ==> Valid(r.value) && Encode(r.value) == text
    ensures r.None? ==> forall j :: Valid(j) ==> Encode(j) != text
  {
    if exists j :: Valid(j) && Encode(j) == text then
      var j :| Valid(j) && Encode(j) == text;
      Some(j)
    else None
  }

  ghost function Parsed(text: string, shown: NumberText -> string): Option<Value> {
    match Reader(text) case None => None case Some(j) => Some(ReadOf(j, shown))
  }

  /** Compact prints can be read in this way at all: what a print says of a tree is all that a reader needs. */
  lemma SomeReaderReadsBack(shown: NumberText -> string, sha256: Bytes -> string)
    ensures ReadsBack(Platform(text => Parsed(text, shown), shown, sha256))
    ensures Rounds((s: NumberText) => s)
  {
    hide Encode, Reader, ReadOf;
    var platform := Platform(text => Parsed(text, shown), shown, sha256);
    forall j: Json | Valid(j)
      ensures platform.parse(Encode(j)) == Some(ReadOf(j, shown))
    {
      var read := Reader(Encode(j)).value;
      EncodeIsMeaning(read, j);
      ReadDependsOnMeaning(read, j, shown);
    }
  }

  function ResultTree(code: Json, value: Json): Json {
    Obj([Named(CodeKey(), code), Named(ValueKey(), value)])
  }

  /** The artifact as a tree. */
  function ArtifactTree(runId: string, code: Json, value: Json): Json {
    Obj([Named(VersionKey(), Num("1")), Named(ResultKey(), ResultTree(code, value)), Named(RunKey(), Text(runId))])
  }

  lemma KeyOrder()
    ensures Before(CodeKey(), ValueKey()) && Before(VersionKey(), ResultKey()) && Before(ResultKey(), RunKey())
  {
    hide Before;
    BeforeByFirst(CodeKey(), ValueKey());
    BeforeByFirst(VersionKey(), ResultKey());
    BeforeByFirst(ResultKey()[1..], RunKey()[1..]);
    BeforeByRest(ResultKey(), RunKey());
  }

  lemma BeforeByFirst(a: string, b: string)
    requires a != "" && b != "" && a[0] < b[0] && b[0] as int < 0x80
    ensures Before(a, b)
  {
  }

  lemma BeforeByRest(a: string, b: string)
    requires a != "" && b != "" && a[0] == b[0] && b[0] as int < 0x80 && Before(a[1..], b[1..])
    ensures Before(a, b)
  {
    assert Units(a)[1..] == Units(a[1..]) && Units(b)[1..] == Units(b[1..]);
  }

  lemma SortedTwo<T>(a: Named<T>, b: Named<T>)
    requires Before(a.name, b.name)
    ensures Sort([a, b]) == [a, b]
  {
    hide Before;
    assert [a, b][1..] == [b] && [b][1..] == [];
    assert Sort([b]) == [b];
  }

  lemma SortedThree<T>(a: Named<T>, b: Named<T>, c: Named<T>)
    requires Before(a.name, b.name) && Before(b.name, c.name)
    ensures Sort([a, b, c]) == [a, b, c]
  {
    hide Before;
    SortedTwo(b, c);
    assert [a, b, c][1..] == [b, c];
  }

  /** The compact print of the artifact tree is the fixed shape around the prints of the code and the value. */
  lemma ArtifactPrint(runId: string, code: Json, value: Json)
    ensures Encode(ArtifactTree(runId, code, value)) == ArtifactText(runId, Encode(code), Encode(value))
  {
    hide Sort, Join, MemberTexts, ArtifactTree, ArtifactEntries;
    ArtifactMembers(runId, code, value);
    AreObjects(runId, code, value);
    SortCommutes(ArtifactTree(runId, code, value).members, Source);
    ObjectText(ArtifactTree(runId, code, value).members);
  }

  lemma ResultPrint(code: Json, value: Json)
    ensures Encode(ResultTree(code, value)) == ObjectOf(ResultEntries(Encode(code), Encode(value)))
  {
    hide Sort, Join, MemberTexts, ResultTree, ResultEntries;
    ResultMembers(code, value);
    AreObjects("", code, value);
    SortCommutes(ResultTree(code, value).members, Source);
    ObjectText(ResultTree(code, value).members);
  }

  lemma AreObjects(runId: string, code: Json, value: Json)
    ensures ArtifactTree(runId, code, value).Obj? && ResultTree(code, value).Obj?
  {
  }

  lemma KeysDiffer()
    ensures CodeKey() != ValueKey() && VersionKey() != ResultKey() && ResultKey() != RunKey()
            && VersionKey() != RunKey()
  {
    hide *;
    KeyOrder();
    BeforeIsOrder(CodeKey(), ValueKey());
    BeforeIsOrder(VersionKey(), ResultKey());
    BeforeIsOrder(ResultKey(), RunKey());
    BeforeIsTransitive(VersionKey(), ResultKey(), RunKey());
    BeforeIsOrder(VersionKey(), RunKey());
  }

  lemma ArtifactIsValid(runId: string, code: Json, value: Json)
    requires Valid(code) && Valid(value)
    ensures Valid(ArtifactTree(runId, code, value)) && Valid(ResultTree(code, value))
  {
    hide VersionKey, ResultKey, RunKey, CodeKey, ValueKey, Valid;
    KeysDiffer();
    ScalarsAreValid(runId);
    ValidTwo(Named(CodeKey(), code), Named(ValueKey(), value));
    ValidThree(Named(VersionKey(), Num("1")), Named(ResultKey(), ResultTree(code, value)),
               Named(RunKey(), Text(runId)));
  }

  lemma ScalarsAreValid(runId: string)
    ensures Valid(Text(runId)) && Valid(Num("1"))
  {
  }

  lemma ValidTwo(a: Named<Json>, b: Named<Json>)
    requires a.name != b.name && Valid(a.value) && Valid(b.value)
    ensures Valid(Obj([a, b]))
  {
  }

  lemma ValidThree(a: Named<Json>, b: Named<Json>, c: Named<Json>)
    requires a.name != b.name && a.name != c.name && b.name != c.name && Valid(a.value) && Valid(b.value)
             && Valid(c.value)
    ensures Valid(Obj([a, b, c]))
  {
  }

  /** The members of the two objects are in order, and print as the entries of the fixed shape. */
  lemma ResultMembers(code: Json, value: Json)
    ensures var members := ResultTree(code, value).members;
            Sort(members) == members && PrintMembers(members, Source) == ResultEntries(Encode(code), Encode(value))
  {
    hide CodeKey, ValueKey, Before, Sort, Print;
    KeyOrder();
    var members := ResultTree(code, value).members;
    SortedTwo(members[0], members[1]);
    assert members == [members[0], members[1]];
  }

  lemma ArtifactMembers(runId: string, code: Json, value: Json)
    ensures var members := ArtifactTree(runId, code, value).members;
            Sort(members) == members && PrintMembers(members, Source)
              == ArtifactEntries(runId, Encode(code), Encode(value))
  {
    hide VersionKey, ResultKey, RunKey, Before, Sort, Quote, ObjectOf, ResultTree;
    KeyOrder();
    ResultPrint(code, value);
    var members := ArtifactTree(runId, code, value).members;
    SortedThree(members[0], members[1], members[2]);
    assert members == [members[0], members[1], members[2]];
  }

  lemma AcceptsAll(platform: Platform, members: seq<Named<Json>>)
    requires ReadsBack(platform) && Valid(Obj(members))
    ensures forall i :: 0 <= i < |members| ==> AcceptedBy(platform.parse)(Encode(members[i].value))
  {
    hide Encode, ReadOf;
  }

  lemma EntriesAreReadBack(platform: Platform, members: seq<Named<Json>>)
    requires ReadsBack(platform) && Valid(Obj(members)) && Sort(members) == members
    ensures CompactEntries(AcceptedBy(platform.parse), Encode(Obj(members))) == Some(PrintMembers(members, Source))
  {
    hide *;
    AcceptsAll(platform, members);
    CompactRoundTrip(AcceptedBy(platform.parse), members);
  }

  // ---- What is read of a printed artifact ----

  lemma KeysAreNoIndices()
    ensures !IsIndex(VersionKey()) && !IsIndex(ResultKey()) && !IsIndex(RunKey()) && !IsIndex(CodeKey())
            && !IsIndex(ValueKey())
  {
    assert !IsDigit(VersionKey()[0]) && !IsDigit(ResultKey()[0]) && !IsDigit(RunKey()[0]) && !IsDigit(CodeKey()[0])
           && !IsDigit(ValueKey()[0]);
  }

  /** Sorted members of names that are no indices are read in their order. */
  lemma PlainMembersAreRead(members: seq<Named<Json>>, shown: NumberText -> string)
    requires Sort(members) == members && forall i :: 0 <= i < |members| ==> !IsIndex(members[i].name)
    ensures ReadOf(Obj(members), shown) == JObj(ReadMembers(members, shown))
  {
    hide ReadOf, Sort, IsIndex, OwnOrder;
    ReadObject(members, shown);
    OrderedIsKept(ReadMembers(members, shown));
  }

  lemma ResultIsRead(code: Json, value: Json, shown: NumberText -> string)
    ensures ReadOf(ResultTree(code, value), shown)
            == JObj([Named(CodeKey(), ReadOf(code, shown)), Named(ValueKey(), ReadOf(value, shown))])
  {
    hide CodeKey, ValueKey, Sort, Print, ReadOf, IsIndex;
    KeysAreNoIndices();
    ResultMembers(code, value);
    PlainMembersAreRead(ResultTree(code, value).members, shown);
  }

  lemma ArtifactIsRead(runId: string, code: Json, value: Json, shown: NumberText -> string)
    ensures ReadOf(ArtifactTree(runId, code, value), shown)
            == JObj([Named(VersionKey(), JNum(shown("1"))), Named(ResultKey(), ReadOf(ResultTree(code, value), shown)),
                     Named(RunKey(), JText(runId))])
  {
    hide VersionKey, ResultKey, RunKey, Sort, Print, ResultTree, IsIndex, ArtifactEntries, OwnOrder;
    KeysAreNoIndices();
    ArtifactMembers(runId, code, value);
    var members := ArtifactTree(runId, code, value).members;
    PlainMembersAreRead(members, shown);
    assert ReadOf(Num("1"), shown) == JNum(shown("1")) && ReadOf(Text(runId), shown) == JText(runId);
  }

  lemma LookupTwo<T(!new)>(a: Named<T>, b: Named<T>)
    requires a.name != b.name
    ensures Lookup([a, b], a.name) == Some(a.value) && Lookup([a, b], b.name) == Some(b.value)
  {
    LookupFinds([a, b], 0);
    LookupFinds([a, b], 1);
  }

  lemma LookupThree<T(!new)>(a: Named<T>, b: Named<T>, c: Named<T>)
    requires a.name != b.name && a.name != c.name && b.name != c.name
    ensures Lookup([a, b, c], a.name) == Some(a.value) && Lookup([a, b, c], b.name) == Some(b.value)
            && Lookup([a, b, c], c.name) == Some(c.value)
  {
    LookupFinds([a, b, c], 0);
    LookupFinds([a, b, c], 1);
    LookupFinds([a, b, c], 2);
  }

  /** The fields of a printed artifact as they are read. */
  lemma FieldsAreRead(platform: Platform, runId: string, code: Json, value: Json)
    requires Rounds(platform.shown)
    ensures var read := ReadOf(ArtifactTree(runId, code, value), platform.shown);
            && read.JObj? && Lookup(read.members, VersionKey()) == Some(JNum("1"))
            && Lookup(read.members, RunKey()) == Some(JText(runId))
            && var result := Lookup(read.members, ResultKey());
               result.Some? && result.value.JObj?
                 && Lookup(result.value.members, CodeKey()) == Some(ReadOf(code, platform.shown))
  {
    hide *;
    KeysDiffer();
    OneIsShown(platform.shown);
    ArtifactIsRead(runId, code, value, platform.shown);
    ResultIsRead(code, value, platform.shown);
    LookupThree(Named(VersionKey(), JNum("1")), Named(ResultKey(), ReadOf(ResultTree(code, value), platform.shown)),
                Named(RunKey(), JText(runId)));
    LookupTwo(Named(CodeKey(), ReadOf(code, platform.shown)), Named(ValueKey(), ReadOf(value, platform.shown)));
  }

  lemma OneIsShown(shown: NumberText -> string)
    requires Rounds(shown)
    ensures shown("1") == "1"
  {
  }

  // ---- Acceptance ----

  /**
   The printed text matches a reference exactly when its code, and the code as read, are both written as the code was
   printed.
   */
  lemma PrintedTextMatches(platform: Platform, runId: string, given: Value, code: Json, value: Json)
    requires ReadsBack(platform) && Rounds(platform.shown) && Valid(code) && Valid(value)
    ensures var text := ArtifactText(runId, Encode(code), Encode(value));
            TextMatches(platform, runId, given, text)
            <==> Stringify(given) == Encode(code) && Stringify(ReadOf(code, platform.shown)) == Encode(code)
    ensures '\n' !in ArtifactText(runId, Encode(code), Encode(value))
  {
    hide *;
    var tree, text := ArtifactTree(runId, code, value), ArtifactText(runId, Encode(code), Encode(value));
    var inner := ResultTree(code, value);
    assert tree.Obj? && inner.Obj? by { AreObjects(runId, code, value); }
    ArtifactIsValid(runId, code, value);
    ArtifactPrint(runId, code, value);
    ResultPrint(code, value);
    NoOuterSpace(tree);
    ReadsOne(platform, tree);
    FieldsAreRead(platform, runId, code, value);
    ArtifactMembers(runId, code, value);
    ResultMembers(code, value);
    EntriesAreReadBack(platform, tree.members);
    EntriesAreReadBack(platform, inner.members);
    var read := ReadOf(tree, platform.shown);
    MatchesByCode(platform, runId, given, Encode(code), Encode(value), text, read,
                  Lookup(read.members, ResultKey()).value, ReadOf(code, platform.shown));
  }

  lemma ReadsOne(platform: Platform, j: Json)
    requires ReadsBack(platform) && Valid(j)
    ensures platform.parse(Encode(j)) == Some(ReadOf(j, platform.shown))
  {
  }

  lemma NoOuterSpace(j: Json)
    requires Valid(j)
    ensures !OuterSpace(Encode(j), false, false) && '\n' !in Encode(j)
  {
    EncodePasses(j);
    assert PassesOver(Encode(j), "", 0);
    assert Encode(j) + "" == Encode(j);
  }

  lemma MatchesByCode(platform: Platform, runId: string, given: Value, code: string, value: string, text: string,
                      read: Value, result: Value, parsed: Value)
    requires !OuterSpace(text, false, false) && platform.parse(text) == Some(read)
    requires CompactEntries(AcceptedBy(platform.parse), text) == Some(ArtifactEntries(runId, code, value))
    requires CompactEntries(AcceptedBy(platform.parse), ObjectOf(ResultEntries(code, value)))
             == Some(ResultEntries(code, value))
    requires read.JObj? && Lookup(read.members, VersionKey()) == Some(JNum("1"))
             && Lookup(read.members, RunKey()) == Some(JText(runId))
    requires result.JObj? && Lookup(read.members, ResultKey()) == Some(result)
             && Lookup(result.members, CodeKey()) == Some(parsed)
    ensures TextMatches(platform, runId, given, text) <==> Stringify(given) == code && Stringify(parsed) == code
  {
    hide CompactEntries, OuterSpace, Lookup, Quote, Stringify, ObjectOf, VersionKey, ResultKey, RunKey, CodeKey,
         ValueKey;
    assert NamesOf(ArtifactEntries(runId, code, value)) == [VersionKey(), ResultKey(), RunKey()];
    assert NamesOf(ResultEntries(code, value)) == [CodeKey(), ValueKey()];
  }

  lemma {:induction false} NoNewlineBytes(text: string)
    requires '\n' !in text
    ensures 10 !in Utf8.Encode(text)
  {
    hide Utf8.EncodeChar;
    if text != "" {
      Utf8.CharShape(text[0]);
      NoNewlineBytes(text[1..]);
    }
  }

  /** A code that is written as the artifact prints it is also read back as it was printed. */
  lemma SpelledCodeSurvives(given: Value, code: Json, shown: NumberText -> string)
    requires Rounds(shown) && IsValue(given, shown) && Valid(code) && Stringify(given) == Encode(code)
    ensures Stringify(ReadOf(code, shown)) == Encode(code)
  {
    hide Stringify, ReadOf, Encode, Spells, Rounds, IsValue, Survives;
    ValuesShowNumbers(given, shown);
    StringifyIsEncode(given, code);
    SpelledSurvives(given, code, shown);
    SurvivesExactly(code, shown);
  }

  /** The printed bytes of an artifact under a reference that names their length and digest. */
  ghost predicate Refers(platform: Platform, runId: string, reference: ResultRef, code: Json, value: Json, bytes: Bytes)
  {
    && bytes == Utf8.Encode(Encode(ArtifactTree(runId, code, value))) + [10] && |bytes| <= MAX_SNAPSHOT_FILE
    && IsDecimal(reference.bytes) && DigitsValue(reference.bytes) == |bytes|
    && platform.sha256(bytes) == reference.sha256
  }

  /**
   The printed artifact of any code and value, under a reference to those bytes: it is accepted exactly when
   JSON.stringify writes the reference's code as the artifact prints the code.
   */
  lemma PrintedArtifactIsAccepted(platform: Platform, runId: string, reference: ResultRef, code: Json, value: Json,
                                  bytes: Bytes)
    requires ReadsBack(platform) && Rounds(platform.shown) && Valid(code) && Valid(value)
    requires IsValue(reference.code, platform.shown) && Refers(platform, runId, reference, code, value, bytes)
    ensures Verified(platform, runId, reference, bytes) <==> Stringify(reference.code) == Encode(code)
  {
    hide ReadsBack, Rounds, IsValue, ReadOf, Stringify, ArtifactTree, TextMatches, Encode, ArtifactText, Utf8.DecodeAll,
         Utf8.Encode, IsDecimal, DigitsValue;
    var text := ArtifactText(runId, Encode(code), Encode(value));
    ArtifactPrint(runId, code, value);
    PrintedTextMatches(platform, runId, reference.code, code, value);
    NoNewlineBytes(text);
    var body := Utf8.Encode(text);
    assert bytes[..|bytes| - 1] == body;
    ArtifactStart(runId, Encode(code), Encode(value));
    Utf8.DecodeExactly(body, text);
    if Stringify(reference.code) == Encode(code) { SpelledCodeSurvives(reference.code, code, platform.shown); }
  }

  /**
   When the reference came from a print of the same code, the artifact is accepted exactly when every number in the code
   is written as JSON.stringify shows it and no object in it has sorted names that are array indices out of order.
   */
  lemma OwnArtifactIsAccepted(platform: Platform, runId: string, reference: ResultRef, code: Json, value: Json,
                              bytes: Bytes)
    requires ReadsBack(platform) && Rounds(platform.shown) && Valid(code) && Valid(value)
    requires reference.code == ReadOf(code, platform.shown) && Refers(platform, runId, reference, code, value, bytes)
    ensures Verified(platform, runId, reference, bytes) <==> Survives(code, platform.shown)
  {
    hide *;
    ReadIsValue(code, platform.shown);
    PrintedArtifactIsAccepted(platform, runId, reference, code, value, bytes);
    SurvivesExactly(code, platform.shown);
  }

  /** A code with the members 10 and 9, which are sorted as texts when printed and as numbers when read. */
  function NumberedCode(): Json { Obj([Named("10", Null), Named("9", Null)]) }

  lemma NumberedCodeDoesNotSurvive(shown: NumberText -> string)
    ensures Valid(NumberedCode()) && !Survives(NumberedCode(), shown)
  {
    assert DigitsValue("9") == 9 && DigitsValue("10") == 10 by {
      assert "10"[..1] == "1" && "1"[..0] == "" && "9"[..0] == "";
    }
    assert Before("10", "9") by { BeforeByFirst("10", "9"); }
    SortedTwo(Named("10", Null), Named("9", Null));
    assert !InOwnOrder(NumberedCode().members) by {
      assert Rank(NumberedCode().members[0].name) == 10 && Rank(NumberedCode().members[1].name) == 9;
    }
  }
}
