// The short-code generator of pkg/handlers/handlersGet.go: six random bytes
// rendered with the URL- and filename-safe base64 alphabet (section 5 of
// RFC 4648), encoded group by group as in section 4 of RFC 4648, without the
// '=' padding (section 3.2 of RFC 4648).  The random source is an input.
module ShortId {
  import opened Models

  type Byte = x: int | 0 <= x < 256
  type Sextet = x: int | 0 <= x < 64

  /** Six bytes, the size of the buffer the generator fills. */
  type Block6 = s: seq<Byte> | |s| == 6 witness [0, 0, 0, 0, 0, 0]

  /** What the entropy source delivered: six bytes, or a read failure. */
  datatype Entropy = EntropyFailed | Drawn(bytes: Block6)

  /** The characters of the base64url alphabet: A-Z, a-z, 0-9, '-' and '_'. */
  predicate IsUrlSafe(c: char) {
    ('A' <= c <= 'Z') || ('a' <= c <= 'z') || ('0' <= c <= '9') || c == '-' || c == '_'
  }

  /** Table 2 of RFC 4648: value v in 0..63 to its character. */
  function Char(v: Sextet): (c: char)
    ensures IsUrlSafe(c)
  {
    if v < 26 then ('A' as int + v) as char
    else if v < 52 then ('a' as int + (v - 26)) as char
    else if v < 62 then ('0' as int + (v - 52)) as char
    else if v == 62 then '-'
    else '_'
  }

  /** The inverse of Char: the value of an alphabet character, -1 off the alphabet. */
  function Value(c: char): (v: int)
    ensures -1 <= v < 64
    ensures v == -1 <==> !IsUrlSafe(c)
  {
    if 'A' <= c <= 'Z' then c as int - 'A' as int
    else if 'a' <= c <= 'z' then c as int - 'a' as int + 26
    else if '0' <= c <= '9' then c as int - '0' as int + 52
    else if c == '-' then 62
    else if c == '_' then 63
    else -1
  }

  lemma ValueOfChar(v: Sextet)
    ensures Value(Char(v)) == v
  {
  }

  /** Length of the unpadded encoding of n bytes: four characters per full
      group, two for a trailing byte, three for two trailing bytes. */
  function EncodedLen(n: nat): nat {
    n / 3 * 4 + (n % 3 * 8 + 5) / 6
  }

  /** The four characters of one 3-byte group: the 24 bits cut into four
      sextets, most significant first (the top six bits of b0; the low two
      bits of b0 and the top four of b1; the low four bits of b1 and the top
      two of b2; the low six bits of b2). */
  function EncodeGroup(b0: Byte, b1: Byte, b2: Byte): string {
    [Char(b0 / 4), Char(b0 % 4 * 16 + b1 / 16), Char(b1 % 16 * 4 + b2 / 64), Char(b2 % 64)]
  }

  /** Unpadded base64url encoding of a byte string: full groups, then two
      trailing bytes as three characters or one as two, the missing low bits
      zero. */
  function Encode(bytes: seq<Byte>): (s: string)
    ensures |s| == EncodedLen(|bytes|)
    ensures forall i :: 0 <= i < |s| ==> IsUrlSafe(s[i])
    decreases |bytes|
  {
    if |bytes| >= 3 then
      EncodeGroup(bytes[0], bytes[1], bytes[2]) + Encode(bytes[3..])
    else if |bytes| == 2 then
      [Char(bytes[0] / 4), Char(bytes[0] % 4 * 16 + bytes[1] / 16), Char(bytes[1] % 16 * 4)]
    else if |bytes| == 1 then
      [Char(bytes[0] / 4), Char(bytes[0] % 4 * 16)]
    else
      []
  }

  /** The decoder of the same alphabet: the partner of Encode.  None for a
      character off the alphabet or a dangling single character. */
  function Decode(s: string): Option<seq<Byte>>
    decreases |s|
  {
    if |s| == 0 then Some([])
    else if |s| == 1 then None
    else if Value(s[0]) < 0 || Value(s[1]) < 0 then None
    else if |s| == 2 then
      Some([Value(s[0]) * 4 + Value(s[1]) / 16])
    else if Value(s[2]) < 0 then None
    else if |s| == 3 then
      Some([Value(s[0]) * 4 + Value(s[1]) / 16, Value(s[1]) % 16 * 16 + Value(s[2]) / 4])
    else if Value(s[3]) < 0 then None
    else
      match Decode(s[4..])
      case None => None
      case Some(rest) =>
        Some([Value(s[0]) * 4 + Value(s[1]) / 16,
              Value(s[1]) % 16 * 16 + Value(s[2]) / 4,
              Value(s[2]) % 4 * 64 + Value(s[3])] + rest)
  }

  /** One full group: the four characters decode to the three bytes. */
  lemma GroupRoundTrip(b0: Byte, b1: Byte, b2: Byte)
    ensures var g := EncodeGroup(b0, b1, b2);
      && Value(g[0]) >= 0 && Value(g[1]) >= 0 && Value(g[2]) >= 0 && Value(g[3]) >= 0
      && Value(g[0]) * 4 + Value(g[1]) / 16 == b0
      && Value(g[1]) % 16 * 16 + Value(g[2]) / 4 == b1
      && Value(g[2]) % 4 * 64 + Value(g[3]) == b2
  {
    var h, m := b0 % 4 * 16 + b1 / 16, b1 % 16 * 4 + b2 / 64;
    ValueOfChar(b0 / 4);
    ValueOfChar(h);
    ValueOfChar(m);
    ValueOfChar(b2 % 64);
    assert h / 16 == b0 % 4 && h % 16 == b1 / 16;
    assert m / 4 == b1 % 16 && m % 4 == b2 / 64;
  }

  /** A full group in front of any text: the decoder yields the group's
      three bytes ahead of whatever the rest decodes to. */
  lemma DecodeGroupStep(b0: Byte, b1: Byte, b2: Byte, rest: string)
    ensures Decode(EncodeGroup(b0, b1, b2) + rest)
      == match Decode(rest)
         case None => None
         case Some(tail) => Some([b0, b1, b2] + tail)
  {
    var g := EncodeGroup(b0, b1, b2);
    var s := g + rest;
    GroupRoundTrip(b0, b1, b2);
    assert s[..4] == g;
    assert s[4..] == rest;
  }

  /** Two trailing bytes decode back from their three characters. */
  lemma DecodeEncodePair(b0: Byte, b1: Byte)
    ensures Decode(Encode([b0, b1])) == Some([b0, b1])
  {
    var h, m := b0 % 4 * 16 + b1 / 16, b1 % 16 * 4;
    assert Encode([b0, b1]) == [Char(b0 / 4), Char(h), Char(m)];
    ValueOfChar(b0 / 4);
    ValueOfChar(h);
    ValueOfChar(m);
    assert h / 16 == b0 % 4 && h % 16 == b1 / 16 && m / 4 == b1 % 16;
  }

  /** One trailing byte decodes back from its two characters. */
  lemma DecodeEncodeSingle(b0: Byte)
    ensures Decode(Encode([b0])) == Some([b0])
  {
    var h := b0 % 4 * 16;
    assert Encode([b0]) == [Char(b0 / 4), Char(h)];
    ValueOfChar(b0 / 4);
    ValueOfChar(h);
    assert h / 16 == b0 % 4;
  }

  /** A sequence of three or more elements is its first three followed by the rest. */
  lemma FirstThree<T>(s: seq<T>)
    requires |s| >= 3
    ensures s == [s[0], s[1], s[2]] + s[3..]
  {
  }

  /** One induction step: a leading full group decodes back when the rest does. */
  lemma DecodeEncodeGroup(bytes: seq<Byte>)
    requires |bytes| >= 3
    requires Decode(Encode(bytes[3..])) == Some(bytes[3..])
    ensures Decode(Encode(bytes)) == Some(bytes)
  {
    var b0, b1, b2 := bytes[0], bytes[1], bytes[2];
    var rest := Encode(bytes[3..]);
    calc {
      Decode(Encode(bytes));
    == { assert Encode(bytes) == EncodeGroup(b0, b1, b2) + rest; }
      Decode(EncodeGroup(b0, b1, b2) + rest);
    == { DecodeGroupStep(b0, b1, b2, rest); }
      Some([b0, b1, b2] + bytes[3..]);
    == { FirstThree(bytes); }
      Some(bytes);
    }
  }

  /** Decoding undoes encoding, for byte strings of every length. */
  lemma {:induction false} DecodeEncode(bytes: seq<Byte>)
    ensures Decode(Encode(bytes)) == Some(bytes)
    decreases |bytes|
  {
    if |bytes| >= 3 {
      DecodeEncode(bytes[3..]);
      DecodeEncodeGroup(bytes);
    } else if |bytes| == 2 {
      assert bytes == [bytes[0], bytes[1]];
      DecodeEncodePair(bytes[0], bytes[1]);
    } else if |bytes| == 1 {
      assert bytes == [bytes[0]];
      DecodeEncodeSingle(bytes[0]);
    }
  }

  /** Distinct byte strings never share a code. */
  lemma EncodeInjective(a: seq<Byte>, b: seq<Byte>)
    ensures Encode(a) == Encode(b) ==> a == b
  {
    DecodeEncode(a);
    DecodeEncode(b);
  }

  /** generateShortID: a failed entropy read panics and yields no code;
      otherwise the six bytes are encoded into exactly eight URL-safe
      characters that decode back to those bytes. */
  function GenerateShortId(entropy: Entropy): (code: Option<string>)
    ensures code.None? <==> entropy.EntropyFailed?
    ensures code.Some? ==> |code.value| == 8
    ensures code.Some? ==> forall i :: 0 <= i < 8 ==> IsUrlSafe(code.value[i])
    ensures code.Some? ==> Decode(code.value) == Some(entropy.bytes)
  {
    match entropy
    case EntropyFailed => None
    case Drawn(bytes) =>
      DecodeEncode(bytes);
      Some(Encode(bytes))
  }

  /** Two successful draws give the same code only when they drew the same bytes. */
  lemma GenerateShortIdInjective(e1: Entropy, e2: Entropy)
    requires e1.Drawn? && e2.Drawn?
    ensures GenerateShortId(e1) == GenerateShortId(e2) <==> e1.bytes == e2.bytes
  {
    if GenerateShortId(e1) == GenerateShortId(e2) {
      EncodeInjective(e1.bytes, e2.bytes);
    }
  }
}
