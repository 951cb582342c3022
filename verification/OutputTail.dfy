/** The bounded output tail of an attempt (`tail` of ext-pi/src/reducer.ts). */
module OutputTail {
  import opened Prelude
  import opened Utf8

  const OUTPUT_TAIL: nat := 64 * 1024

  /** The longest suffix of a text whose encoding fits the tail. */
  function TailOf(s: string): (r: string)
    ensures |Encode(r)| <= OUTPUT_TAIL
    ensures |r| <= |s| && r == s[|s| - |r|..]
  {
    if |Encode(s)| <= OUTPUT_TAIL then s else TailOf(s[1..])
  }

  /** No longer suffix fits, and byte alignment costs at most three bytes. */
  lemma {:induction false} TailIsLongest(s: string, k: nat)
    requires k <= |s| && |Encode(s[k..])| <= OUTPUT_TAIL
    ensures |s| - k <= |TailOf(s)|
    ensures |Encode(s)| > OUTPUT_TAIL ==> |Encode(TailOf(s))| >= OUTPUT_TAIL - 3
    decreases |s|
  {
    if |Encode(s)| > OUTPUT_TAIL {
      assert k > 0 && s[k..] == s[1..][k - 1..];
      TailIsLongest(s[1..], k - 1);
    }
  }

  /** Appending to a tail and cutting again loses nothing that one cut of the whole would have kept. */
  lemma {:induction false} TailAppend(a: string, b: string)
    ensures TailOf(TailOf(a) + b) == TailOf(a + b)
    decreases |a|
  {
    if |Encode(a)| > OUTPUT_TAIL {
      EncodeAppend(a, b);
      assert (a + b)[1..] == a[1..] + b;
      TailAppend(a[1..], b);
    }
  }

  /** The tail kept by appending chunks one at a time. */
  function TailOfStream(chunks: seq<string>): string {
    if chunks == [] then "" else TailOf(TailOfStream(chunks[..|chunks| - 1]) + chunks[|chunks| - 1])
  }

  lemma {:induction false} StreamingTailIsExact(chunks: seq<string>)
    ensures TailOfStream(chunks) == TailOf(Concat(chunks))
  {
    if chunks != [] {
      var init, last := chunks[..|chunks| - 1], chunks[|chunks| - 1];
      StreamingTailIsExact(init);
      TailAppend(Concat(init), last);
    }
  }

  // ---- The byte loop ----

  /** The first character boundary of `bytes` at or after `i`. */
  function BoundaryFrom(bytes: seq<Byte>, i: nat): (j: nat)
    requires i <= |bytes|
    ensures i <= j <= |bytes|
    ensures j == |bytes| || !IsContinuation(bytes[j])
    ensures forall k :: i <= k < j ==> IsContinuation(bytes[k])
    decreases |bytes| - i
  {
    if i < |bytes| && IsContinuation(bytes[i]) then BoundaryFrom(bytes, i + 1) else i
  }

  /** A boundary with only continuation bytes before it is the first one. */
  lemma BoundaryUnique(bytes: seq<Byte>, i: nat, j: nat)
    requires i <= j <= |bytes|
    requires forall k :: i <= k < j ==> IsContinuation(bytes[k])
    requires j == |bytes| || !IsContinuation(bytes[j])
    ensures BoundaryFrom(bytes, i) == j
  {
  }

  /** Beyond its first character, the boundaries of an encoding are those of the rest. */
  lemma BoundaryInRest(e: seq<Byte>, rest: seq<Byte>, i: nat)
    requires i <= |rest|
    ensures BoundaryFrom(e + rest, |e| + i) == |e| + BoundaryFrom(rest, i)
  {
    var bytes := e + rest;
    var inner := BoundaryFrom(rest, i);
    forall k | |e| + i <= k < |e| + inner
      ensures IsContinuation(bytes[k])
    {
      assert bytes[k] == rest[k - |e|];
    }
    if inner < |rest| { assert bytes[|e| + inner] == rest[inner]; }
    BoundaryUnique(bytes, |e| + i, |e| + inner);
  }

  predicate StartsAtBoundary(bytes: seq<Byte>) {
    bytes == [] || !IsContinuation(bytes[0])
  }

  lemma EncodingStartsAtBoundary(s: string)
    ensures StartsAtBoundary(Encode(s))
  {
    if s != [] {
      CharShape(s[0]);
      assert Encode(s)[0] == EncodeChar(s[0])[0];
    }
  }

  /** A cut inside the first character moves to its end. */
  lemma BoundaryAfterFirst(e: seq<Byte>, rest: seq<Byte>, i: nat)
    requires 0 < i <= |e| && StartsAtBoundary(rest)
    requires forall k :: 0 < k < |e| ==> IsContinuation(e[k])
    ensures BoundaryFrom(e + rest, i) == |e|
  {
    var bytes := e + rest;
    if rest != [] { assert bytes[|e|] == rest[0]; }
    BoundaryUnique(bytes, i, |e|);
  }

  /** The bytes that a cut keeps. */
  function CutBytes(bytes: seq<Byte>): seq<Byte> {
    if |bytes| <= OUTPUT_TAIL then bytes else bytes[BoundaryFrom(bytes, |bytes| - OUTPUT_TAIL)..]
  }

  lemma DropBeyond(e: seq<Byte>, rest: seq<Byte>, i: nat)
    requires i <= |rest|
    ensures (e + rest)[|e| + i..] == rest[i..]
  {
  }

  lemma CutStep(e: seq<Byte>, rest: seq<Byte>)
    requires |e + rest| > OUTPUT_TAIL && StartsAtBoundary(rest)
    requires forall k :: 0 < k < |e| ==> IsContinuation(e[k])
    ensures CutBytes(e + rest) == CutBytes(rest)
  {
    hide BoundaryFrom, IsContinuation, StartsAtBoundary;
    var bytes := e + rest;
    if |rest| <= OUTPUT_TAIL {
      BoundaryAfterFirst(e, rest, |bytes| - OUTPUT_TAIL);
      assert bytes[|e|..] == rest;
    } else {
      var i := |rest| - OUTPUT_TAIL;
      BoundaryInRest(e, rest, i);
      DropBeyond(e, rest, BoundaryFrom(rest, i));
    }
  }

  /** Cutting the encoding at the first boundary within reach of the limit encodes the tail. */
  lemma {:induction false} BoundaryIsTail(s: string)
    ensures CutBytes(Encode(s)) == Encode(TailOf(s))
    decreases |s|
  {
    if |Encode(s)| > OUTPUT_TAIL {
      EncodingStartsAtBoundary(s[1..]);
      CharShape(s[0]);
      CutStep(EncodeChar(s[0]), Encode(s[1..]));
      BoundaryIsTail(s[1..]);
    }
  }

  /** What the bytes from the cut onwards decode to. */
  lemma CutDecodes(s: string)
    requires |Encode(s)| > OUTPUT_TAIL
    ensures Run([], Encode(s)[BoundaryFrom(Encode(s), |Encode(s)| - OUTPUT_TAIL)..]) == Some((TailOf(s), []))
  {
    hide EncodeChar, Run, Encode, BoundaryFrom, TailOf;
    BoundaryIsTail(s);
    DecodeEncode(TailOf(s));
  }

  method Tail(value: string) returns (r: string)
    ensures r == TailOf(value)
  {
    hide EncodeChar, Run, Encode;
    var bytes := Encode(value);
    if |bytes| <= OUTPUT_TAIL { return value; }
    var start := |bytes| - OUTPUT_TAIL;
    while start < |bytes| && IsContinuation(bytes[start])
      invariant |bytes| - OUTPUT_TAIL <= start <= |bytes|
      invariant BoundaryFrom(bytes, start) == BoundaryFrom(bytes, |bytes| - OUTPUT_TAIL)
    {
      start := start + 1;
    }
    CutDecodes(value);
    r := Run([], bytes[start..]).value.0;
  }
}
