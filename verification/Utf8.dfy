/** UTF-8 as sections 3 and 4 of RFC 3629 define it, and the streaming fatal decoder that reads the journals. */
module Utf8 {
  import opened Prelude

  type Byte = b: int | 0 <= b < 256

  predicate IsContinuation(b: Byte) { 0x80 <= b < 0xC0 }

  function EncodeChar(c: char): (r: seq<Byte>)
    ensures 1 <= |r| <= 4
  {
    var n := c as int;
    if n < 0x80 then [n]
    else if n < 0x800 then [0xC0 + n / 64, 0x80 + n % 64]
    else if n < 0x1_0000 then [0xE0 + n / 4096, 0x80 + n / 64 % 64, 0x80 + n % 64]
    else [0xF0 + n / 26_2144, 0x80 + n / 4096 % 64, 0x80 + n / 64 % 64, 0x80 + n % 64]
  }

  /** A lead byte and then continuation bytes; the byte 10 encodes the newline and appears nowhere else. */
  lemma CharShape(c: char)
    ensures !IsContinuation(EncodeChar(c)[0])
    ensures forall i :: 0 < i < |EncodeChar(c)| ==> IsContinuation(EncodeChar(c)[i])
    ensures forall i :: 0 <= i < |EncodeChar(c)| ==> (EncodeChar(c)[i] == 10 <==> c == '\n')
  {
  }

  function Encode(s: string): seq<Byte> {
    if s == [] then [] else EncodeChar(s[0]) + Encode(s[1..])
  }

  lemma {:induction false} EncodeAppend(s: string, t: string)
    ensures Encode(s + t) == Encode(s) + Encode(t)
  {
    hide EncodeChar;
    if s == [] {
      assert s + t == t;
    } else {
      EncodeAppend(s[1..], t);
      assert (s + t)[1..] == s[1..] + t;
    }
  }

  lemma EncodeOne(c: char)
    ensures Encode([c]) == EncodeChar(c)
  {
    assert [c][1..] == [];
  }

  lemma {:induction false} AsciiEncoded(s: string)
    requires forall i :: 0 <= i < |s| ==> s[i] as int < 0x80
    ensures |Encode(s)| == |s|
  {
    if s != "" { AsciiEncoded(s[1..]); }
  }

  function Letters(n: nat): string { seq(n, i => 'a') }

  lemma LettersEncoded(n: nat)
    ensures |Encode(Letters(n))| == n
  {
    AsciiEncoded(Letters(n));
  }

  // ---- The decoder: bytes one at a time, with the unfinished bytes of the current character held back ----

  datatype Progress = Hold | Emit(c: char) | Bad

  /** The allowed second byte after a lead byte (the UTF8-2, UTF8-3 and UTF8-4 rules of section 4). */
  predicate SecondByte(lead: Byte, b: Byte) {
    && IsContinuation(b)
    && (lead == 0xE0 ==> b >= 0xA0)
    && (lead == 0xED ==> b < 0xA0)
    && (lead == 0xF0 ==> b >= 0x90)
    && (lead == 0xF4 ==> b < 0x90)
  }

  /** A proper prefix of the encoding of some character. */
  predicate IsPending(p: seq<Byte>) {
    && |p| < 4
    && (|p| >= 1 ==> 0xC2 <= p[0] <= 0xF4)
    && (|p| >= 2 ==> p[0] >= 0xE0 && SecondByte(p[0], p[1]))
    && (|p| >= 3 ==> p[0] >= 0xF0 && IsContinuation(p[2]))
  }

  function Feed(p: seq<Byte>, b: Byte): Progress
    requires IsPending(p)
  {
    match |p|
    case 0 => if b < 0x80 then Emit(b as char) else if 0xC2 <= b <= 0xF4 then Hold else Bad
    case 1 =>
      if !SecondByte(p[0], b) then Bad
      else if p[0] < 0xE0 then Emit(((p[0] - 0xC0) * 64 + (b - 0x80)) as char)
      else Hold
    case 2 =>
      if !IsContinuation(b) then Bad
      else if p[0] < 0xF0 then
        assert p[0] == 0xED ==> p[1] < 0xA0;
        Emit(((p[0] - 0xE0) * 4096 + (p[1] - 0x80) * 64 + (b - 0x80)) as char)
      else Hold
    case _ =>
      if !IsContinuation(b) then Bad
      else
        Emit(((p[0] - 0xF0) * 26_2144 + (p[1] - 0x80) * 4096 + (p[2] - 0x80) * 64 + (b - 0x80)) as char)
  }

  /** Six-bit digits of a code point, read back. */
  lemma SixBits(a: nat, b: nat)
    requires b < 64
    ensures (a * 64 + b) / 64 == a && (a * 64 + b) % 64 == b
  {
  }

  lemma TwelveBits(a: nat, b: nat, c: nat)
    requires b < 64 && c < 64
    ensures var n := a * 4096 + b * 64 + c; n / 4096 == a && n / 64 == a * 64 + b && n / 64 % 64 == b && n % 64 == c
  {
    var n := a * 4096 + b * 64 + c;
    assert n == (a * 64 + b) * 64 + c;
    SixBits(a * 64 + b, c);
    SixBits(a, b);
    assert n / 4096 == a;
  }

  lemma EighteenBits(a: nat, b: nat, c: nat, d: nat)
    requires b < 64 && c < 64 && d < 64
    ensures var n := a * 26_2144 + b * 4096 + c * 64 + d;
            n / 26_2144 == a && n / 4096 % 64 == b && n / 64 % 64 == c && n % 64 == d
  {
    var n := a * 26_2144 + b * 4096 + c * 64 + d;
    assert n == (a * 64 + b) * 4096 + c * 64 + d;
    TwelveBits(a * 64 + b, c, d);
    SixBits(a, b);
    assert n / 26_2144 == a;
  }

  /** What the decoder emits is the character whose encoding it has just read; what it holds back stays pending. */
  lemma FeedSound(p: seq<Byte>, b: Byte)
    requires IsPending(p)
    ensures Feed(p, b).Hold? ==> IsPending(p + [b])
    ensures Feed(p, b).Emit? ==> EncodeChar(Feed(p, b).c) == p + [b]
  {
    match |p|
    case 0 =>
    case 1 =>
      if SecondByte(p[0], b) && p[0] < 0xE0 {
        SixBits(p[0] - 0xC0, b - 0x80);
      }
    case 2 =>
      if IsContinuation(b) && p[0] < 0xF0 {
        TwelveBits(p[0] - 0xE0, p[1] - 0x80, b - 0x80);
      }
    case _ =>
      if IsContinuation(b) {
        EighteenBits(p[0] - 0xF0, p[1] - 0x80, p[2] - 0x80, b - 0x80);
      }
  }

  /** The proper prefixes of an encoding are pending, and its last byte emits its character. */
  lemma FeedComplete(c: char, i: nat)
    requires i < |EncodeChar(c)|
    ensures IsPending(EncodeChar(c)[..i])
    ensures Feed(EncodeChar(c)[..i], EncodeChar(c)[i]) == if i + 1 == |EncodeChar(c)| then Emit(c) else Hold
  {
    var e, n := EncodeChar(c), c as int;
    if n >= 0x800 {
      assert n / 64 / 64 == n / 4096;
    }
    if n >= 0x1_0000 {
      assert n / 4096 / 64 == n / 26_2144;
    }
  }

  /** Text decoded from `bytes` after the held-back bytes `p`, with the bytes held back at the end. */
  function Run(p: seq<Byte>, bytes: seq<Byte>): (r: Option<(string, seq<Byte>)>)
    requires IsPending(p)
    ensures r.Some? ==> IsPending(r.value.1)
    decreases |bytes|
  {
    if bytes == [] then Some(("", p))
    else
      FeedSound(p, bytes[0]);
      match Feed(p, bytes[0])
      case Bad => None
      case Hold => Run(p + [bytes[0]], bytes[1..])
      case Emit(c) =>
        match Run([], bytes[1..])
        case None => None
        case Some((text, rest)) => Some(([c] + text, rest))
  }

  /** Everything consumed is accounted for: the decoded text re-encodes to the bytes, up to the held-back rest. */
  lemma {:induction false} RunSound(p: seq<Byte>, bytes: seq<Byte>)
    requires IsPending(p) && Run(p, bytes).Some?
    ensures p + bytes == Encode(Run(p, bytes).value.0) + Run(p, bytes).value.1
    decreases |bytes|
  {
    hide EncodeChar, Feed;
    if bytes != [] {
      var b, rest := bytes[0], bytes[1..];
      FeedSound(p, b);
      match Feed(p, b)
      case Hold =>
        RunSound(p + [b], rest);
        assert p + [b] + rest == p + bytes;
      case Emit(c) =>
        RunSound([], rest);
        var text := Run([], rest).value.0;
        assert ([c] + text)[1..] == text;
        assert p + bytes == (p + [b]) + ([] + rest);
    }
  }

  lemma {:induction false} RunOneEncoding(c: char, i: nat, rest: seq<Byte>)
    requires i < |EncodeChar(c)|
    ensures IsPending(EncodeChar(c)[..i])
    ensures Run(EncodeChar(c)[..i], EncodeChar(c)[i..] + rest)
            == match Run([], rest) case None => None case Some((text, tail)) => Some(([c] + text, tail))
    decreases |EncodeChar(c)| - i
  {
    var e := EncodeChar(c);
    FeedComplete(c, i);
    assert (e[i..] + rest)[1..] == e[i + 1..] + rest;
    if i + 1 < |e| {
      assert e[..i] + [e[i]] == e[..i + 1];
      RunOneEncoding(c, i + 1, rest);
    } else {
      assert e[i + 1..] + rest == rest;
    }
  }

  /** Well-formed text survives encoding and decoding, whatever bytes follow it. */
  lemma {:induction false} RunEncode(s: string, rest: seq<Byte>)
    ensures Run([], Encode(s) + rest)
            == match Run([], rest) case None => None case Some((text, tail)) => Some((s + text, tail))
  {
    hide EncodeChar, Feed;
    if s == [] {
      assert Encode(s) + rest == rest;
      if Run([], rest).Some? {
        assert s + Run([], rest).value.0 == Run([], rest).value.0;
      }
    } else {
      RunEncode(s[1..], rest);
      RunOneEncoding(s[0], 0, Encode(s[1..]) + rest);
      var e := EncodeChar(s[0]);
      assert e[..0] == [] && e[0..] == e;
      assert e + (Encode(s[1..]) + rest) == Encode(s) + rest;
      if Run([], rest).Some? {
        assert [s[0]] + (s[1..] + Run([], rest).value.0) == s + Run([], rest).value.0;
      }
    }
  }

  /** Decoding is independent of where the input is split. */
  lemma {:induction false} RunAppend(p: seq<Byte>, a: seq<Byte>, b: seq<Byte>)
    requires IsPending(p)
    ensures Run(p, a + b)
            == match Run(p, a)
               case None => None
               case Some((text, held)) =>
                 match Run(held, b)
                 case None => None
                 case Some((more, rest)) => Some((text + more, rest))
    decreases |a|
  {
    if a == [] {
      assert a + b == b;
      if Run(p, b).Some? {
        assert "" + Run(p, b).value.0 == Run(p, b).value.0;
      }
    } else {
      FeedSound(p, a[0]);
      assert (a + b)[0] == a[0] && (a + b)[1..] == a[1..] + b;
      match Feed(p, a[0])
      case Bad =>
      case Hold => RunAppend(p + [a[0]], a[1..], b);
      case Emit(c) =>
        RunAppend([], a[1..], b);
        if Run([], a[1..]).Some? {
          var (text, held) := Run([], a[1..]).value;
          if Run(held, b).Some? {
            assert [c] + (text + Run(held, b).value.0) == [c] + text + Run(held, b).value.0;
          }
        }
    }
  }

  // ---- Whole inputs, with the byte-order mark that a TextDecoder removes from the start ----

  const BOM: char := '\U{FEFF}'

  function StripBom(s: string): string {
    if s != [] && s[0] == BOM then s[1..] else s
  }

  /** The result of a fatal decoder on a whole input. */
  function DecodeAll(bytes: seq<Byte>): Option<string> {
    match Run([], bytes)
    case None => None
    case Some((text, held)) => if held == [] then Some(StripBom(text)) else None
  }

  lemma DecodeEncode(s: string)
    ensures Run([], Encode(s)) == Some((s, []))
    ensures DecodeAll(Encode(s)) == Some(StripBom(s))
  {
    RunEncode(s, []);
    assert Encode(s) + [] == Encode(s);
    assert s + "" == s;
  }

  /** A fatal decoder accepts exactly the encodings of texts, and gives the text less one leading byte-order mark. */
  lemma DecodeExactly(bytes: seq<Byte>, s: string)
    ensures DecodeAll(bytes) == Some(s)
       <==> (bytes == Encode(s) && (s == [] || s[0] != BOM)) || bytes == Encode([BOM] + s)
  {
    if DecodeAll(bytes) == Some(s) {
      RunSound([], bytes);
      var text := Run([], bytes).value.0;
      assert bytes == Encode(text) + [];
      assert text == s || text == [BOM] + s;
    }
    if bytes == Encode(s) { DecodeEncode(s); }
    if bytes == Encode([BOM] + s) {
      DecodeEncode([BOM] + s);
      assert ([BOM] + s)[1..] == s;
    }
  }

  lemma EncodeInjective(s: string, t: string)
    requires Encode(s) == Encode(t)
    ensures s == t
  {
    DecodeEncode(s);
    DecodeEncode(t);
  }

  /** A cut after a newline byte is the encoding of the text up to that newline. */
  lemma {:induction false} CutAtNewline(s: string, k: nat) returns (j: nat)
    requires 0 < k <= |Encode(s)| && Encode(s)[k - 1] == 10
    ensures 0 < j <= |s| && s[j - 1] == '\n' && Encode(s)[..k] == Encode(s[..j])
  {
    hide EncodeChar;
    var first := EncodeChar(s[0]);
    CharShape(s[0]);
    if k <= |first| {
      assert first[k - 1] == 10;
      NewlineIsOneByte(s[0]);
      j := 1;
      EncodeOne(s[0]);
      assert s[..1] == [s[0]];
    } else {
      var i := CutAtNewline(s[1..], k - |first|);
      j := i + 1;
      assert s[..j][0] == s[0] && s[..j][1..] == s[1..][..i];
      assert Encode(s)[..k] == first + Encode(s[1..])[..k - |first|];
    }
  }

  lemma NewlineIsOneByte(c: char)
    requires c == '\n'
    ensures EncodeChar(c) == [10]
  {
  }

  lemma NewlineEndsEncoding(s: string)
    requires s != ""
    ensures Encode(s) != [] && (Encode(s)[|Encode(s)| - 1] == 10 <==> s[|s| - 1] == '\n')
  {
    hide EncodeChar;
    var init, last := s[..|s| - 1], s[|s| - 1];
    assert s == init + [last];
    EncodeAppend(init, [last]);
    EncodeOne(last);
    CharShape(last);
  }

  /** Text decoded from a beginning of an encoding is a beginning of the text. */
  lemma DecodedPrefix(s: string, bytes: seq<Byte>)
    requires bytes <= Encode(s) && Run([], bytes).Some?
    ensures Run([], bytes).value.0 <= s
  {
    hide Run, Encode;
    DecodeEncode(s);
    assert Encode(s) == bytes + Encode(s)[|bytes|..];
    RunAppend([], bytes, Encode(s)[|bytes|..]);
  }
}
