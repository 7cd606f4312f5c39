/**
 * The shared tree content codec (src/persistence/tree-codec.js): file contents are
 * text or bytes, and raw bytes are read back as text exactly when that loses nothing.
 *
 * A JavaScript string is a sequence of UTF-16 code units, lone surrogates included.
 * UTF-8 is the one of sections 3 and 4 of RFC 3629.
 */
module TreeCodec {
  import opened Strings

  type Byte = b: int | 0 <= b < 0x100
  type Unit = u: int | 0 <= u < 0x1_0000
  type CodePoint = c: int | 0 <= c < 0x11_0000

  type Bytes = seq<Byte>
  type Text = seq<Unit>

  const REPLACEMENT: Unit := 0xFFFD

  datatype Contents = Str(text: Text) | Buf(bytes: Bytes)

  /** What a caller may hand over as file contents. */
  datatype RawContents = RawString(text: Text) | RawBuffer(bytes: Bytes) | RawUint8Array(elements: Bytes) | RawOther

  // ---------------------------------------------------------------- encoding

  predicate IsHigh(u: int) { 0xD800 <= u < 0xDC00 }
  predicate IsLow(u: int) { 0xDC00 <= u < 0xE000 }
  predicate IsSurrogate(u: int) { 0xD800 <= u < 0xE000 }

  /** A surrogate pair stands at the front. */
  predicate PairFirst(s: Text) {
    |s| >= 2 && IsHigh(s[0]) && IsLow(s[1])
  }

  function JoinPair(high: Unit, low: Unit): CodePoint
    requires IsHigh(high) && IsLow(low)
  {
    0x1_0000 + (high - 0xD800) * 0x400 + (low - 0xDC00)
  }

  function SplitPair(c: CodePoint): Text
    requires c >= 0x1_0000
  {
    [0xD800 + (c - 0x1_0000) / 0x400, 0xDC00 + (c - 0x1_0000) % 0x400]
  }

  function Units(c: CodePoint): Text {
    if c < 0x1_0000 then [c] else SplitPair(c)
  }

  function EncodeChar(c: CodePoint): Bytes {
    if c < 0x80 then [c]
    else if c < 0x800 then [0xC0 + c / 0x40, 0x80 + c % 0x40]
    else if c < 0x1_0000 then [0xE0 + c / 0x1000, 0x80 + c / 0x40 % 0x40, 0x80 + c % 0x40]
    else [0xF0 + c / 0x4_0000, 0x80 + c / 0x1000 % 0x40, 0x80 + c / 0x40 % 0x40, 0x80 + c % 0x40]
  }

  /** Buffer.from(text, 'utf8'): a lone surrogate is written as the replacement character. */
  function Encode(s: Text): Bytes {
    if s == [] then []
    else if PairFirst(s) then EncodeChar(JoinPair(s[0], s[1])) + Encode(s[2..])
    else if IsSurrogate(s[0]) then EncodeChar(REPLACEMENT) + Encode(s[1..])
    else EncodeChar(s[0]) + Encode(s[1..])
  }

  // ---------------------------------------------------------------- decoding

  predicate IsTail(b: int) { 0x80 <= b < 0xC0 }

  /** How many bytes a character led by b has; 0 when b leads none. */
  function LeadLength(b: Byte): nat {
    if b < 0x80 then 1
    else if 0xC2 <= b < 0xE0 then 2
    else if 0xE0 <= b < 0xF0 then 3
    else if 0xF0 <= b < 0xF5 then 4
    else 0
  }

  predicate SecondFits(lead: Byte, b: Byte) {
    if lead == 0xE0 then 0xA0 <= b < 0xC0
    else if lead == 0xED then 0x80 <= b < 0xA0
    else if lead == 0xF0 then 0x90 <= b < 0xC0
    else if lead == 0xF4 then 0x80 <= b < 0x90
    else IsTail(b)
  }

  /** The length of the longest prefix that still starts a character. */
  function Matched(b: Bytes): (n: nat)
    requires b != [] && LeadLength(b[0]) > 0
    ensures 1 <= n <= |b| && n <= LeadLength(b[0])
  {
    var need := LeadLength(b[0]);
    if need == 1 || |b| < 2 || !SecondFits(b[0], b[1]) then 1
    else if need == 2 || |b| < 3 || !IsTail(b[2]) then 2
    else if need == 3 || |b| < 4 || !IsTail(b[3]) then 3
    else 4
  }

  function TailBits(b: int): int { b - 0x80 }

  function DecodeChar(b: Bytes): CodePoint
    requires b != [] && LeadLength(b[0]) > 0 && Matched(b) == LeadLength(b[0])
  {
    var lead: int := b[0];
    match LeadLength(b[0])
    case 1 => lead
    case 2 => (lead - 0xC0) * 0x40 + TailBits(b[1])
    case 3 => (lead - 0xE0) * 0x1000 + TailBits(b[1]) * 0x40 + TailBits(b[2])
    case _ => (lead - 0xF0) * 0x4_0000 + TailBits(b[1]) * 0x1000 + TailBits(b[2]) * 0x40 + TailBits(b[3])
  }

  /** buf.toString('utf8'): each maximal ill-formed part becomes one replacement character. */
  function Decode(b: Bytes): Text {
    if b == [] then []
    else if LeadLength(b[0]) == 0 then [REPLACEMENT] + Decode(b[1..])
    else
      var n := Matched(b);
      (if n == LeadLength(b[0]) then Units(DecodeChar(b)) else [REPLACEMENT]) + Decode(b[n..])
  }

  // ---------------------------------------------------------------- the codec

  function NormalizeContents(value: RawContents): Option<Contents> {
    match value
    case RawString(text) => Some(Str(text))
    case RawBuffer(bytes) => Some(Buf(bytes))
    case RawUint8Array(elements) => Some(Buf(elements))
    case RawOther => None
  }

  /** The bytes both stores write for an entry. */
  function FileBytes(contents: Contents): Bytes {
    match contents
    case Str(text) => Encode(text)
    case Buf(bytes) => bytes
  }

  function DecodeTreeEntry(buf: Bytes): Contents {
    var text := Decode(buf);
    if Encode(text) == buf then Str(text) else Buf(buf)
  }

  // ---------------------------------------------------------------- well-formed UTF-8

  /** One UTF8-char of the grammar in section 4 of RFC 3629. */
  predicate IsUtf8Char(c: Bytes) {
    match |c|
    case 1 => c[0] <= 0x7F
    case 2 => 0xC2 <= c[0] <= 0xDF && IsTail(c[1])
    case 3 =>
      || (c[0] == 0xE0 && 0xA0 <= c[1] <= 0xBF && IsTail(c[2]))
      || (0xE1 <= c[0] <= 0xEC && IsTail(c[1]) && IsTail(c[2]))
      || (c[0] == 0xED && 0x80 <= c[1] <= 0x9F && IsTail(c[2]))
      || (0xEE <= c[0] <= 0xEF && IsTail(c[1]) && IsTail(c[2]))
    case 4 =>
      || (c[0] == 0xF0 && 0x90 <= c[1] <= 0xBF && IsTail(c[2]) && IsTail(c[3]))
      || (0xF1 <= c[0] <= 0xF3 && IsTail(c[1]) && IsTail(c[2]) && IsTail(c[3]))
      || (c[0] == 0xF4 && 0x80 <= c[1] <= 0x8F && IsTail(c[2]) && IsTail(c[3]))
    case _ => false
  }

  /** UTF8-octets: a sequence of UTF8-char. */
  ghost predicate WellFormed(b: Bytes)
    decreases |b|
  {
    b == [] || exists n :: 1 <= n <= |b| && IsUtf8Char(b[..n]) && WellFormed(b[n..])
  }

  lemma {:induction false} WellFormedCons(c: Bytes, rest: Bytes)
    requires IsUtf8Char(c) && WellFormed(rest)
    ensures WellFormed(c + rest)
  {
    var b := c + rest;
    assert b[..|c|] == c && b[|c|..] == rest;
  }

  /** The encoder's characters are characters of the grammar, surrogates aside. */
  lemma EncodeCharIsUtf8(c: CodePoint)
    requires !IsSurrogate(c)
    ensures IsUtf8Char(EncodeChar(c))
  {
  }

  lemma {:induction false} EncodeIsWellFormed(s: Text)
    ensures WellFormed(Encode(s))
  {
    if s == [] {
    } else if PairFirst(s) {
      EncodeIsWellFormed(s[2..]);
      EncodeCharIsUtf8(JoinPair(s[0], s[1]));
      WellFormedCons(EncodeChar(JoinPair(s[0], s[1])), Encode(s[2..]));
    } else {
      var c: CodePoint := if IsSurrogate(s[0]) then REPLACEMENT else s[0];
      EncodeIsWellFormed(s[1..]);
      EncodeCharIsUtf8(c);
      WellFormedCons(EncodeChar(c), Encode(s[1..]));
    }
  }

  lemma Digits(p: int, q: int, r: int, t: int)
    requires 0 <= q < 0x40 && 0 <= r < 0x40 && 0 <= t < 0x40
    ensures var c := p * 0x4_0000 + q * 0x1000 + r * 0x40 + t;
            c / 0x4_0000 == p && c / 0x1000 == p * 0x40 + q && c / 0x1000 % 0x40 == q && c / 0x40 % 0x40 == r
                && c % 0x40 == t
  {
    var c := p * 0x4_0000 + q * 0x1000 + r * 0x40 + t;
    assert c / 0x40 == p * 0x1000 + q * 0x40 + r;
    assert c / 0x1000 == p * 0x40 + q;
  }

  lemma ShapeFits(c: Bytes)
    requires IsUtf8Char(c)
    ensures LeadLength(c[0]) == |c| == Matched(c)
  {
  }

  lemma TakenAlone(c: Bytes)
    requires IsUtf8Char(c)
    ensures LeadLength(c[0]) == |c| == Matched(c)
    ensures !IsSurrogate(DecodeChar(c)) && EncodeChar(DecodeChar(c)) == c
  {
    ShapeFits(c);
    match |c|
    case 1 =>
    case 2 => Digits(0, 0, c[0] - 0xC0, TailBits(c[1]));
    case 3 => Digits(0, c[0] - 0xE0, TailBits(c[1]), TailBits(c[2]));
    case 4 => Digits(c[0] - 0xF0, TailBits(c[1]), TailBits(c[2]), TailBits(c[3]));
  }

  lemma {:induction false} RestDoesNotMatter(c: Bytes, rest: Bytes)
    requires c != [] && LeadLength(c[0]) == |c| == Matched(c)
    ensures var b := c + rest;
            LeadLength(b[0]) == |c| == Matched(b) && DecodeChar(b) == DecodeChar(c)
  {
    var b := c + rest;
    assert b[0] == c[0];
    assert |c| > 1 ==> b[1] == c[1];
    assert |c| > 2 ==> b[2] == c[2];
    assert |c| > 3 ==> b[3] == c[3];
  }

  /** The decoder takes a character of the grammar whole, whatever follows, and the encoder restores it. */
  lemma CharIsTaken(c: Bytes, rest: Bytes)
    requires IsUtf8Char(c)
    ensures var b := c + rest;
            && LeadLength(b[0]) == |c| == Matched(b)
            && !IsSurrogate(DecodeChar(b)) && EncodeChar(DecodeChar(b)) == c
  {
    TakenAlone(c);
    RestDoesNotMatter(c, rest);
  }

  lemma Undigits(c: int)
    requires 0 <= c
    ensures c == c / 0x40 * 0x40 + c % 0x40
    ensures c == c / 0x1000 * 0x1000 + c / 0x40 % 0x40 * 0x40 + c % 0x40
    ensures c == c / 0x4_0000 * 0x4_0000 + c / 0x1000 % 0x40 * 0x1000 + c / 0x40 % 0x40 * 0x40 + c % 0x40
  {
    assert c / 0x40 / 0x40 == c / 0x1000;
    assert c / 0x1000 / 0x40 == c / 0x4_0000;
  }

  lemma EncodeCharInjective(c: CodePoint, d: CodePoint)
    requires EncodeChar(c) == EncodeChar(d)
    ensures c == d
  {
    var x, y := EncodeChar(c), EncodeChar(d);
    assert |x| == |y|;
    Undigits(c);
    Undigits(d);
    assert x[0] == y[0];
    if |x| > 1 { assert x[1] == y[1]; }
    if |x| > 2 { assert x[2] == y[2]; }
    if |x| > 3 { assert x[3] == y[3]; }
  }

  lemma EncodeDecodeChar(c: CodePoint)
    requires !IsSurrogate(c)
    ensures var b := EncodeChar(c); LeadLength(b[0]) == |b| == Matched(b) && DecodeChar(b) == c
  {
    EncodeCharIsUtf8(c);
    TakenAlone(EncodeChar(c));
    EncodeCharInjective(c, DecodeChar(EncodeChar(c)));
  }

  lemma CharIsRestored(c: CodePoint, rest: Bytes)
    requires !IsSurrogate(c)
    ensures var b := EncodeChar(c) + rest;
            && LeadLength(b[0]) == |EncodeChar(c)| == Matched(b) && DecodeChar(b) == c
  {
    EncodeDecodeChar(c);
    RestDoesNotMatter(EncodeChar(c), rest);
  }

  lemma PairRoundTrip(c: CodePoint)
    requires c >= 0x1_0000
    ensures var s := SplitPair(c); PairFirst(s) && JoinPair(s[0], s[1]) == c
  {
  }

  lemma PairRestored(high: Unit, low: Unit)
    requires IsHigh(high) && IsLow(low)
    ensures Units(JoinPair(high, low)) == [high, low]
  {
  }

  /** Encoding the units of a character and then more text. */
  lemma EncodeUnits(c: CodePoint, rest: Text)
    requires !IsSurrogate(c)
    ensures Encode(Units(c) + rest) == EncodeChar(c) + Encode(rest)
  {
    var s := Units(c) + rest;
    if c >= 0x1_0000 {
      PairRoundTrip(c);
      assert s[2..] == rest;
    } else {
      assert s[1..] == rest;
    }
  }

  lemma {:induction false} WellFormedRoundTrip(b: Bytes)
    requires WellFormed(b)
    ensures Encode(Decode(b)) == b
    decreases |b|
  {
    if b != [] {
      var n :| 1 <= n <= |b| && IsUtf8Char(b[..n]) && WellFormed(b[n..]);
      var c, rest := b[..n], b[n..];
      assert b == c + rest;
      CharIsTaken(c, rest);
      WellFormedRoundTrip(rest);
      EncodeUnits(DecodeChar(b), Decode(rest));
    }
  }

  /** Bytes are read back as text exactly when they are well-formed UTF-8. */
  lemma {:induction false} TextIffWellFormed(b: Bytes)
    ensures DecodeTreeEntry(b).Str? <==> WellFormed(b)
  {
    EncodeIsWellFormed(Decode(b));
    if WellFormed(b) {
      WellFormedRoundTrip(b);
    }
  }

  /** Whatever is read back stands for the very bytes on disk, and writing it again changes nothing. */
  lemma ReadIsByteExact(b: Bytes)
    ensures FileBytes(DecodeTreeEntry(b)) == b
  {
  }

  // ---------------------------------------------------------------- strings

  /** The text with every lone surrogate replaced. */
  function Scrub(s: Text): Text {
    if s == [] then []
    else if PairFirst(s) then [s[0], s[1]] + Scrub(s[2..])
    else [if IsSurrogate(s[0]) then REPLACEMENT else s[0]] + Scrub(s[1..])
  }

  /** Every surrogate is half of a pair. */
  predicate NoLoneSurrogate(s: Text) {
    s == [] || (if PairFirst(s) then NoLoneSurrogate(s[2..]) else !IsSurrogate(s[0]) && NoLoneSurrogate(s[1..]))
  }

  lemma {:induction false} DecodeEncode(s: Text)
    ensures Decode(Encode(s)) == Scrub(s)
  {
    if s == [] {
    } else if PairFirst(s) {
      var c := JoinPair(s[0], s[1]);
      DecodeEncode(s[2..]);
      CharIsRestored(c, Encode(s[2..]));
      PairRestored(s[0], s[1]);
      assert (EncodeChar(c) + Encode(s[2..]))[|EncodeChar(c)|..] == Encode(s[2..]);
    } else {
      var c: CodePoint := if IsSurrogate(s[0]) then REPLACEMENT else s[0];
      DecodeEncode(s[1..]);
      CharIsRestored(c, Encode(s[1..]));
      assert (EncodeChar(c) + Encode(s[1..]))[|EncodeChar(c)|..] == Encode(s[1..]);
    }
  }

  lemma {:induction false} ScrubIsIdentityIff(s: Text)
    ensures Scrub(s) == s <==> NoLoneSurrogate(s)
  {
    if s == [] {
    } else if PairFirst(s) {
      ScrubIsIdentityIff(s[2..]);
      assert Scrub(s)[2..] == Scrub(s[2..]);
      assert s == [s[0], s[1]] + s[2..];
    } else {
      ScrubIsIdentityIff(s[1..]);
      assert Scrub(s)[1..] == Scrub(s[1..]);
      assert s == [s[0]] + s[1..];
    }
  }

  /** A written string always reads back as a string: itself exactly when it has no lone surrogate. */
  lemma {:induction false} StringRoundTrip(s: Text)
    ensures DecodeTreeEntry(FileBytes(Str(s))) == Str(Scrub(s))
    ensures DecodeTreeEntry(FileBytes(Str(s))) == Str(s) <==> NoLoneSurrogate(s)
  {
    DecodeEncode(s);
    ScrubIsIdentityIff(s);
    EncodeIsWellFormed(s);
    TextIffWellFormed(Encode(s));
  }

  /**
   * Exactly when accepted contents come back as they were handed over: a string without lone surrogates,
   * a buffer that is no well-formed text. Any other buffer comes back as the string its bytes encode.
   */
  lemma ContentsRoundTripIff(value: RawContents)
    ensures NormalizeContents(value).Some? <==> !value.RawOther?
    ensures NormalizeContents(value).Some? ==>
              var contents := NormalizeContents(value).value;
              DecodeTreeEntry(FileBytes(contents)) == contents <==>
              match contents case Str(text) => NoLoneSurrogate(text) case Buf(bytes) => !WellFormed(bytes)
  {
    if NormalizeContents(value).Some? {
      match NormalizeContents(value).value
      case Str(text) => StringRoundTrip(text);
      case Buf(bytes) => TextIffWellFormed(bytes);
    }
  }
}
