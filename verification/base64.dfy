/**
 Base64 content decoding for blob display (`nativeAtoB` of the native build).

 The decoder is Go's `base64.StdEncoding.DecodeString`: the standard alphabet of
 section 4 of RFC 4648 with `=` padding. It follows Go's quantum-by-quantum
 decoding, including the byte offset that a `CorruptInputError` reports. Go's
 standard encoding is not strict, so the unused low bits of a padded final quantum
 are ignored rather than rejected. Go also skips CR and LF bytes anywhere in the
 input; this model does not, and reports them as illegal characters.
 */
module Base64 {
  import opened Text
  import opened Wrappers

  /** The padding character `=`. */
  const PadByte: byte := 61

  /** Go's `base64.CorruptInputError`: the byte offset where the input went wrong. */
  datatype CorruptInputError = CorruptInputError(offset: nat)

  /** The text of every decode error, before the offset. */
  const MessagePrefix: string := "illegal base64 data at input byte "

  /** `CorruptInputError.Error()`: the fixed text, then the offset, which reads back. */
  function Message(e: CorruptInputError): (m: string)
    ensures |m| > |MessagePrefix| && m[..|MessagePrefix|] == MessagePrefix
    ensures var d := m[|MessagePrefix|..];
            && (forall i :: 0 <= i < |d| ==> '0' <= d[i] <= '9')
            && (d[0] == '0' ==> d == "0")
            && ParseDecimal(d) == e.offset
  {
    assert (MessagePrefix + Decimal(e.offset))[|MessagePrefix|..] == Decimal(e.offset);
    DecimalRoundTrip(e.offset);
    MessagePrefix + Decimal(e.offset)
  }

  /** The character of a 6-bit value in the standard alphabet (Table 1 of RFC 4648). */
  function EncodeSextet(v: int): byte
    requires 0 <= v < 64
  {
    if v < 26 then 65 + v           // 'A'..'Z'
    else if v < 52 then v + 71      // 'a'..'z'
    else if v < 62 then v - 4       // '0'..'9'
    else if v == 62 then 43         // '+'
    else 47                         // '/'
  }

  /** The 6-bit value of an alphabet character, or -1 for any other byte. */
  function DecodeSextet(c: byte): (r: int)
    ensures -1 <= r < 64
    ensures r >= 0 ==> EncodeSextet(r) == c
    ensures r >= 0 <==> InAlphabet(c)
  {
    if 65 <= c <= 90 then c - 65
    else if 97 <= c <= 122 then c - 71
    else if 48 <= c <= 57 then c + 4
    else if c == 43 then 62
    else if c == 47 then 63
    else -1
  }

  /** Every alphabet character decodes back to its own value. */
  lemma SextetRoundTrip(v: int)
    requires 0 <= v < 64
    ensures DecodeSextet(EncodeSextet(v)) == v
  {
  }

  /** The standard alphabet of Table 1 of RFC 4648: `A`-`Z`, `a`-`z`, `0`-`9`, `+` and `/`. */
  predicate InAlphabet(c: byte)
  {
    65 <= c <= 90 || 97 <= c <= 122 || 48 <= c <= 57 || c == 43 || c == 47
  }

  /** The three bytes carried by four 6-bit values, most significant first. */
  function Triple(a: int, b: int, c: int, d: int): (r: seq<byte>)
    requires 0 <= a < 64 && 0 <= b < 64 && 0 <= c < 64 && 0 <= d < 64
    ensures |r| == 3
  {
    var v := a * 262144 + b * 4096 + c * 64 + d;
    [v / 65536, (v / 256) % 256, v % 256]
  }

  /**
   Decodes `s`, which starts at offset `base` of the whole input, one four-character
   quantum at a time. A quantum of four alphabet characters yields three bytes and
   decoding continues; a quantum ending in `==` or `=` yields one or two bytes and
   must end the input. Error offsets are those Go reports.
   */
  function DecodeAt(s: seq<byte>, base: nat): (r: Result<seq<byte>, CorruptInputError>)
    ensures r.Failure? ==> base <= r.error.offset <= base + |s|
    decreases |s|
  {
    if |s| == 0 then Success([])
    else if !InAlphabet(s[0]) then Failure(CorruptInputError(base))
    else if |s| == 1 then Failure(CorruptInputError(base))
    else if !InAlphabet(s[1]) then Failure(CorruptInputError(base + 1))
    else if |s| == 2 then Failure(CorruptInputError(base))
    else if s[2] == PadByte then
      (if |s| == 3 then Failure(CorruptInputError(base + 3))
       else if s[3] != PadByte then Failure(CorruptInputError(base + 2))
       else if |s| > 4 then Failure(CorruptInputError(base + 4))
       else Success(Triple(DecodeSextet(s[0]), DecodeSextet(s[1]), 0, 0)[..1]))
    else if !InAlphabet(s[2]) then Failure(CorruptInputError(base + 2))
    else if |s| == 3 then Failure(CorruptInputError(base))
    else if s[3] == PadByte then
      (if |s| > 4 then Failure(CorruptInputError(base + 4))
       else Success(Triple(DecodeSextet(s[0]), DecodeSextet(s[1]), DecodeSextet(s[2]), 0)[..2]))
    else if !InAlphabet(s[3]) then Failure(CorruptInputError(base + 3))
    else
      var head := Triple(DecodeSextet(s[0]), DecodeSextet(s[1]), DecodeSextet(s[2]), DecodeSextet(s[3]));
      match DecodeAt(s[4..], base + 4)
      case Success(rest) => Success(head + rest)
      case Failure(e) => Failure(e)
  }

  /**
   `base64.StdEncoding.DecodeString`, with the partial output of a failure dropped:
   it succeeds exactly on well-formed input, giving 3 bytes per quantum minus one per
   `=`, and a failure points into the input.
   */
  function Decode(s: seq<byte>): (r: Result<seq<byte>, CorruptInputError>)
    ensures r.Success? <==> WellFormed(s)
    ensures r.Success? ==> |r.value| == |s| / 4 * 3 - PadCount(s)
    ensures r.Failure? ==> r.error.offset <= |s|
  {
    DecodeAtCharacterized(s, 0);
    DecodeAt(s, 0)
  }

  /**
   Well-formed padded base64, stated independently of the decoder: a multiple of
   four characters, all in the alphabet except for one or two `=` at the very end.
   */
  predicate WellFormed(s: seq<byte>)
  {
    && |s| % 4 == 0
    && forall i :: 0 <= i < |s| ==>
         InAlphabet(s[i]) || (s[i] == PadByte && |s| - 2 <= i && (i == |s| - 2 ==> s[|s| - 1] == PadByte))
  }

  /** Number of trailing padding characters of well-formed input. */
  function PadCount(s: seq<byte>): nat
  {
    if |s| >= 2 && s[|s| - 2] == PadByte then 2
    else if |s| >= 1 && s[|s| - 1] == PadByte then 1
    else 0
  }

  /** After a full quantum of alphabet characters, well-formedness is that of the rest. */
  lemma WellFormedAfterQuantum(s: seq<byte>)
    requires |s| >= 4
    requires InAlphabet(s[0]) && InAlphabet(s[1]) && InAlphabet(s[2]) && InAlphabet(s[3])
    ensures WellFormed(s) <==> WellFormed(s[4..])
  {
    var t := s[4..];
    assert forall i :: 0 <= i < |t| ==> t[i] == s[i + 4];
    if WellFormed(t) {
      forall i | 0 <= i < |s|
        ensures InAlphabet(s[i]) || (s[i] == PadByte && |s| - 2 <= i && (i == |s| - 2 ==> s[|s| - 1] == PadByte))
      {
        if i >= 4 {
          assert t[i - 4] == s[i];
        }
      }
    }
    if WellFormed(s) {
      forall i | 0 <= i < |t|
        ensures InAlphabet(t[i]) || (t[i] == PadByte && |t| - 2 <= i && (i == |t| - 2 ==> t[|t| - 1] == PadByte))
      {
        assert s[i + 4] == t[i];
      }
    }
  }

  /**
   The decoder accepts exactly the well-formed inputs, and then produces three bytes
   per quantum less one per padding character.
   */
  lemma {:induction false} DecodeAtCharacterized(s: seq<byte>, base: nat)
    ensures DecodeAt(s, base).Success? <==> WellFormed(s)
    ensures DecodeAt(s, base).Success? ==> |DecodeAt(s, base).value| == |s| / 4 * 3 - PadCount(s)
    decreases |s|
  {
    if |s| == 0 {
    } else if !InAlphabet(s[0]) {
      assert |s| % 4 != 0 || |s| - 2 > 0;
    } else if |s| == 1 {
    } else if !InAlphabet(s[1]) {
      assert |s| % 4 != 0 || |s| - 2 > 1;
    } else if |s| == 2 {
    } else if s[2] == PadByte {
      if |s| == 4 && s[3] == PadByte {
        assert WellFormed(s);
      } else if |s| == 4 {
        assert s[3] != PadByte;
      } else {
        assert |s| % 4 != 0 || |s| - 2 > 2;
      }
    } else if !InAlphabet(s[2]) {
      assert s[2] != PadByte;
    } else if |s| == 3 {
    } else if s[3] == PadByte {
      if |s| == 4 {
        assert WellFormed(s);
      } else {
        assert |s| % 4 != 0 || |s| - 2 > 3;
      }
    } else if !InAlphabet(s[3]) {
      assert s[3] != PadByte;
    } else {
      DecodeAtCharacterized(s[4..], base + 4);
      CharacterizedAfterQuantum(s, base);
    }
  }

  /** The step of `DecodeAtCharacterized` over a full quantum of alphabet characters. */
  lemma CharacterizedAfterQuantum(s: seq<byte>, base: nat)
    requires |s| >= 4
    requires InAlphabet(s[0]) && InAlphabet(s[1]) && InAlphabet(s[2]) && InAlphabet(s[3])
    requires DecodeAt(s[4..], base + 4).Success? <==> WellFormed(s[4..])
    requires DecodeAt(s[4..], base + 4).Success? ==>
      |DecodeAt(s[4..], base + 4).value| == |s[4..]| / 4 * 3 - PadCount(s[4..])
    ensures DecodeAt(s, base).Success? <==> WellFormed(s)
    ensures DecodeAt(s, base).Success? ==> |DecodeAt(s, base).value| == |s| / 4 * 3 - PadCount(s)
  {
    DecodeAtQuantum(s, base);
    WellFormedAfterQuantum(s);
    var t := s[4..];
    if |t| >= 2 {
      assert t[|t| - 2] == s[|s| - 2] && t[|t| - 1] == s[|s| - 1];
    } else if |t| == 1 {
      assert t[0] == s[|s| - 1];
    }
    assert |s| >= 2 ==> InAlphabet(s[|s| - 2]) || |t| >= 2;
    assert PadCount(s) == PadCount(t);
  }

  /** A malformed input is rejected, and the reported offset lies within the input. */
  lemma DecodeRejectsMalformed(s: seq<byte>)
    requires !WellFormed(s)
    ensures Decode(s).Failure? && Decode(s).error.offset <= |s|
  {
    DecodeAtCharacterized(s, 0);
  }

  /**
   The decoded length of well-formed input of length 4k ending in p padding
   characters is 3k - p.
   */
  lemma DecodedLength(s: seq<byte>)
    requires WellFormed(s)
    ensures Decode(s).Success?
    ensures |Decode(s).value| == |s| / 4 * 3 - PadCount(s)
  {
    DecodeAtCharacterized(s, 0);
  }

  // ---------------------------------------------------------------------------
  // Encoding (section 4 of RFC 4648): the encoder, the inverse of the decoder for the round trip.
  // ---------------------------------------------------------------------------

  /** The four characters for the 24-bit group `v`. */
  function EncodeGroup(v: int): (r: seq<byte>)
    requires 0 <= v < 16777216
    ensures |r| == 4
  {
    [EncodeSextet(v / 262144), EncodeSextet((v / 4096) % 64), EncodeSextet((v / 64) % 64), EncodeSextet(v % 64)]
  }

  /** Standard padded base64 encoding of `b`. */
  function Encode(b: seq<byte>): (r: seq<byte>)
    ensures |r| == (|b| + 2) / 3 * 4
    decreases |b|
  {
    if |b| == 0 then []
    else if |b| == 1 then EncodeGroup((b[0] as int) * 65536)[..2] + [PadByte, PadByte]
    else if |b| == 2 then EncodeGroup((b[0] as int) * 65536 + (b[1] as int) * 256)[..3] + [PadByte]
    else
      assert (|b| + 2) / 3 == (|b| - 1) / 3 + 1;
      EncodeGroup((b[0] as int) * 65536 + (b[1] as int) * 256 + b[2]) + Encode(b[3..])
  }

  /** Splitting a 24-bit group into sextets and reassembling it gives the group back. */
  lemma SextetsRecombine(v: int)
    requires 0 <= v < 16777216
    ensures (v / 262144) * 262144 + ((v / 4096) % 64) * 4096 + ((v / 64) % 64) * 64 + v % 64 == v
  {
    var a := v / 262144;
    var r1 := v % 262144;
    assert v == a * 262144 + r1;
    assert v / 4096 == a * 64 + r1 / 4096;
    assert (v / 4096) % 64 == r1 / 4096;
    var r2 := r1 % 4096;
    assert r1 == (r1 / 4096) * 4096 + r2;
    assert v / 64 == a * 4096 + (r1 / 4096) * 64 + r2 / 64;
    assert (v / 64) % 64 == r2 / 64;
    assert v % 64 == r2 % 64;
  }

  /** The bytes of a 24-bit group. */
  lemma GroupBytes(b0: byte, b1: byte, b2: byte)
    ensures var v := (b0 as int) * 65536 + (b1 as int) * 256 + b2;
            v / 65536 == b0 && (v / 256) % 256 == b1 && v % 256 == b2
  {
  }

  /** Decoding the four characters of a group gives its three bytes. */
  lemma GroupRoundTrip(b0: byte, b1: byte, b2: byte)
    ensures var v := (b0 as int) * 65536 + (b1 as int) * 256 + b2;
            var g := EncodeGroup(v);
            Triple(DecodeSextet(g[0]), DecodeSextet(g[1]), DecodeSextet(g[2]), DecodeSextet(g[3])) == [b0, b1, b2]
  {
    var v := (b0 as int) * 65536 + (b1 as int) * 256 + b2;
    SextetRoundTrip(v / 262144);
    SextetRoundTrip((v / 4096) % 64);
    SextetRoundTrip((v / 64) % 64);
    SextetRoundTrip(v % 64);
    SextetsRecombine(v);
    GroupBytes(b0, b1, b2);
  }

  /** Decoding a final quantum `xx==`. */
  lemma DecodeAtPadTwo(s: seq<byte>, base: nat)
    requires |s| == 4 && InAlphabet(s[0]) && InAlphabet(s[1]) && s[2] == PadByte && s[3] == PadByte
    ensures DecodeAt(s, base) == Success(Triple(DecodeSextet(s[0]), DecodeSextet(s[1]), 0, 0)[..1])
  {
  }

  /** Decoding a final quantum `xxx=`. */
  lemma DecodeAtPadOne(s: seq<byte>, base: nat)
    requires |s| == 4 && InAlphabet(s[0]) && InAlphabet(s[1]) && InAlphabet(s[2]) && s[3] == PadByte
    ensures DecodeAt(s, base) == Success(Triple(DecodeSextet(s[0]), DecodeSextet(s[1]), DecodeSextet(s[2]), 0)[..2])
  {
  }

  /** The sextets of a lone byte `b0`, followed by two zero sextets, carry `b0`. */
  lemma OneByteSextets(b0: byte)
    ensures var g := EncodeGroup((b0 as int) * 65536);
            InAlphabet(g[0]) && InAlphabet(g[1]) &&
            Triple(DecodeSextet(g[0]), DecodeSextet(g[1]), 0, 0)[0] == b0
  {
    var v := (b0 as int) * 65536;
    assert v / 262144 == b0 / 4;
    assert (v / 4096) % 64 == (b0 % 4) * 16;
    SextetRoundTrip(b0 / 4);
    SextetRoundTrip((b0 % 4) * 16);
    var w := (b0 / 4) * 262144 + ((b0 % 4) * 16) * 4096;
    assert w == b0 * 65536;
    assert w / 65536 == b0;
  }

  /** The sextets of two bytes, followed by one zero sextet, carry both bytes. */
  lemma TwoByteSextets(b0: byte, b1: byte)
    ensures var g := EncodeGroup((b0 as int) * 65536 + (b1 as int) * 256);
            InAlphabet(g[0]) && InAlphabet(g[1]) && InAlphabet(g[2]) &&
            Triple(DecodeSextet(g[0]), DecodeSextet(g[1]), DecodeSextet(g[2]), 0)[..2] == [b0, b1]
  {
    var v := (b0 as int) * 65536 + (b1 as int) * 256;
    assert v % 64 == 0;
    SextetsRecombine(v);
    SextetRoundTrip(v / 262144);
    SextetRoundTrip((v / 4096) % 64);
    SextetRoundTrip((v / 64) % 64);
    GroupBytes(b0, b1, 0);
  }

  /** A final group of one byte, `xx==`, decodes to that byte. */
  lemma DecodeAtEncodeOne(b: seq<byte>, base: nat)
    requires |b| == 1
    ensures DecodeAt(Encode(b), base) == Success(b)
  {
    var g := EncodeGroup((b[0] as int) * 65536);
    var e := Encode(b);
    assert e == g[..2] + [PadByte, PadByte];
    assert e[0] == g[0] && e[1] == g[1];
    OneByteSextets(b[0]);
    DecodeAtPadTwo(e, base);
    var t := Triple(DecodeSextet(g[0]), DecodeSextet(g[1]), 0, 0);
    assert t[..1] == [t[0]] == b;
  }

  /** A final group of two bytes, `xxx=`, decodes to those bytes. */
  lemma DecodeAtEncodeTwo(b: seq<byte>, base: nat)
    requires |b| == 2
    ensures DecodeAt(Encode(b), base) == Success(b)
  {
    var g := EncodeGroup((b[0] as int) * 65536 + (b[1] as int) * 256);
    var e := Encode(b);
    assert e == g[..3] + [PadByte];
    assert e[0] == g[0] && e[1] == g[1] && e[2] == g[2];
    TwoByteSextets(b[0], b[1]);
    DecodeAtPadOne(e, base);
    assert [b[0], b[1]] == b;
  }

  /** A full group of three bytes decodes to those bytes, and decoding goes on after it. */
  lemma DecodeAtEncodeGroup(b: seq<byte>, base: nat)
    requires |b| >= 3
    ensures DecodeAt(Encode(b), base) ==
      match DecodeAt(Encode(b[3..]), base + 4)
      case Success(rest) => Success(b[..3] + rest)
      case Failure(e) => Failure(e)
  {
    var v := (b[0] as int) * 65536 + (b[1] as int) * 256 + b[2];
    var g := EncodeGroup(v);
    var e := Encode(b);
    assert e[..4] == g && e[4..] == Encode(b[3..]) by {
      assert e == g + Encode(b[3..]);
    }
    assert InAlphabet(e[0]) && InAlphabet(e[1]) && InAlphabet(e[2]) && InAlphabet(e[3]) by {
      SextetRoundTrip(v / 262144);
      SextetRoundTrip((v / 4096) % 64);
      SextetRoundTrip((v / 64) % 64);
      SextetRoundTrip(v % 64);
      assert e[0] == g[0] && e[1] == g[1] && e[2] == g[2] && e[3] == g[3];
    }
    assert Triple(DecodeSextet(e[0]), DecodeSextet(e[1]), DecodeSextet(e[2]), DecodeSextet(e[3])) == b[..3] by {
      GroupRoundTrip(b[0], b[1], b[2]);
      assert e[0] == g[0] && e[1] == g[1] && e[2] == g[2] && e[3] == g[3];
      assert b[..3] == [b[0], b[1], b[2]];
    }
    DecodeAtQuantum(e, base);
  }

  /** A full quantum of four alphabet characters decodes to three bytes, then decoding goes on. */
  lemma DecodeAtQuantum(s: seq<byte>, base: nat)
    requires |s| >= 4 && InAlphabet(s[0]) && InAlphabet(s[1]) && InAlphabet(s[2]) && InAlphabet(s[3])
    ensures DecodeAt(s, base) ==
      match DecodeAt(s[4..], base + 4)
      case Success(rest) => Success(Triple(DecodeSextet(s[0]), DecodeSextet(s[1]), DecodeSextet(s[2]), DecodeSextet(s[3])) + rest)
      case Failure(e) => Failure(e)
  {
    assert s[2] != PadByte && s[3] != PadByte;
  }

  /** Decoding the encoding of any byte string gives that byte string back. */
  lemma {:induction false} DecodeAtEncode(b: seq<byte>, base: nat)
    ensures DecodeAt(Encode(b), base) == Success(b)
    decreases |b|
  {
    if |b| == 1 {
      DecodeAtEncodeOne(b, base);
    } else if |b| == 2 {
      DecodeAtEncodeTwo(b, base);
    } else if |b| >= 3 {
      DecodeAtEncodeGroup(b, base);
      DecodeAtEncode(b[3..], base + 4);
      assert b[..3] + b[3..] == b;
    }
  }

  /** Round trip: `Decode(Encode(b)) == b`. */
  lemma DecodeEncode(b: seq<byte>)
    ensures Decode(Encode(b)) == Success(b)
  {
    DecodeAtEncode(b, 0);
  }

  // ---------------------------------------------------------------------------
  // nativeAtoB (base64_linux.go)
  // ---------------------------------------------------------------------------

  /** The prefix that marks a decode failure folded into the content text. */
  const ErrorPrefix: string := "error: "

  /**
   Decodes a blob body to text. A decode failure is not returned as an error: it
   becomes the text `"error: "` followed by the error's message.
   */
  function NativeAtoB(input: seq<byte>): (r: string)
    ensures WellFormed(input) ==> Decode(input).Success? && r == BytesToString(Decode(input).value)
    ensures !WellFormed(input) ==>
      && Decode(input).Failure?
      && Decode(input).error.offset <= |input|
      && r == ErrorPrefix + Message(Decode(input).error)
  {
    DecodeAtCharacterized(input, 0);
    match Decode(input)
    case Success(c) => BytesToString(c)
    case Failure(e) => ErrorPrefix + Message(e)
  }

  /** Encoded content comes back as the original text. */
  lemma NativeAtoBRoundTrip(b: seq<byte>)
    ensures NativeAtoB(Encode(b)) == BytesToString(b)
  {
    DecodeEncode(b);
  }

  /**
   Folding errors into the text loses information: every error text is also the
   content of a well-formed body, so a blob whose content is that text shows exactly
   as the malformed body does.
   */
  lemma FoldedErrorIsAmbiguous(m: seq<byte>)
    requires !WellFormed(m)
    ensures forall i :: 0 <= i < |NativeAtoB(m)| ==> NativeAtoB(m)[i] as int < 256
    ensures WellFormed(Encode(StringToBytes(NativeAtoB(m))))
    ensures NativeAtoB(Encode(StringToBytes(NativeAtoB(m)))) == NativeAtoB(m)
  {
    DecodeAtCharacterized(m, 0);
    ErrorTextNarrow(Decode(m).error);
    var b := StringToBytes(NativeAtoB(m));
    NativeAtoBRoundTrip(b);
    DecodeEncode(b);
    DecodeAtCharacterized(Encode(b), 0);
  }

  /** Every character of an error text is ASCII. */
  lemma ErrorTextNarrow(e: CorruptInputError)
    ensures Ascii(ErrorPrefix + Message(e))
  {
    AsciiErrorPrefix();
    AsciiMessagePrefix();
    AsciiConcat(MessagePrefix, Decimal(e.offset));
    AsciiConcat(ErrorPrefix, Message(e));
  }

  predicate Ascii(t: string)
  {
    forall i :: 0 <= i < |t| ==> t[i] as int < 128
  }

  lemma AsciiErrorPrefix()
    ensures Ascii(ErrorPrefix)
  {
    forall i | 0 <= i < |ErrorPrefix|
      ensures ErrorPrefix[i] as int < 128
    {
      assert ErrorPrefix[i] in "error: ";
    }
  }

  lemma AsciiMessagePrefix()
    ensures Ascii(MessagePrefix)
  {
    forall i | 0 <= i < |MessagePrefix|
      ensures MessagePrefix[i] as int < 128
    {
      assert MessagePrefix[i] in "illegal base64 data at input byte ";
    }
  }

  lemma AsciiConcat(a: string, b: string)
    requires Ascii(a) && Ascii(b)
    ensures Ascii(a + b)
  {
    forall i | 0 <= i < |a + b|
      ensures (a + b)[i] as int < 128
    {
      if i >= |a| { assert (a + b)[i] == b[i - |a|]; }
    }
  }

  /** The body `aGVsbG8=` shows as `hello`. */
  lemma NativeAtoBHello()
    ensures NativeAtoB([97, 71, 86, 115, 98, 71, 56, 61]) == "hello"
  {
    var s: seq<byte> := [97, 71, 86, 115, 98, 71, 56, 61];
    assert s[4..] == [98, 71, 56, 61];
    assert Triple(26, 6, 21, 44) == [104, 101, 108];
    assert Triple(27, 6, 60, 0)[..2] == [108, 111];
    assert DecodeAt(s[4..], 4) == Success([108, 111]);
    assert Decode(s) == Success([104, 101, 108] + [108, 111]);
    assert BytesToString([104, 101, 108, 108, 111]) == "hello";
  }
}
