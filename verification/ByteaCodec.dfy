/** The bytea text formats of encode.go: hex and escape, both ways. */
module ByteaCodec {
  import opened Bytes

  const LETTER_X: byte := 0x78
  const DIGIT_0: byte := 0x30
  const HEX_PREFIX: seq<byte> := [BACKSLASH, LETTER_X]
  const HEX_SERVER_VERSION: int := 90000

  datatype ByteaError = BadHex | ShortEscape | BadOctal

  type Decoded = Result<seq<byte>, ByteaError>

  // ----- encoding/hex -----

  function HexDigit(n: nat): byte
    requires n < 16
  {
    if n < 10 then DIGIT_0 + n else 0x61 + (n - 10)
  }

  /** The value of a hex digit of either case. */
  function HexValue(c: byte): (r: Option<nat>)
    ensures r.Some? ==> r.value < 16
  {
    if 0x30 <= c <= 0x39 then Some(c - 0x30)
    else if 0x61 <= c <= 0x66 then Some(c - 0x61 + 10)
    else if 0x41 <= c <= 0x46 then Some(c - 0x41 + 10)
    else None
  }

  function HexEncode(v: seq<byte>): (s: seq<byte>)
    ensures |s| == 2 * |v|
  {
    seq(2 * |v|, i requires 0 <= i < 2 * |v| =>
      HexDigit(if i % 2 == 0 then v[i / 2] / 16 else v[i / 2] % 16))
  }

  function HexDecode(s: seq<byte>): Option<seq<byte>> {
    if s == [] then Some([])
    else if |s| == 1 then None
    else
      match (HexByte(s[0], s[1]), HexDecode(s[2..]))
      case (Some(b), Some(rest)) => Some([b] + rest)
      case _ => None
  }

  function HexByte(high: byte, low: byte): Option<byte> {
    match (HexValue(high), HexValue(low))
    case (Some(h), Some(l)) => Some(16 * h + l)
    case _ => None
  }

  lemma HexTail(v: seq<byte>)
    requires v != []
    ensures HexEncode(v) == [HexDigit(v[0] / 16), HexDigit(v[0] % 16)] + HexEncode(v[1..])
  {
    forall i | 0 <= i < 2 * |v| - 2 ensures HexEncode(v)[i + 2] == HexEncode(v[1..])[i] {
      assert (i + 2) / 2 == i / 2 + 1 && (i + 2) % 2 == i % 2;
    }
  }

  lemma {:induction false} HexRoundTrip(v: seq<byte>)
    ensures HexDecode(HexEncode(v)) == Some(v)
  {
    if v != [] {
      HexRoundTrip(v[1..]);
      HexTail(v);
      hide HexEncode;
      assert HexEncode(v)[2..] == HexEncode(v[1..]);
      assert v == [v[0]] + v[1..];
    }
  }

  /** Exactly the texts of hex digit pairs decode. */
  lemma {:induction false} HexDecodes(s: seq<byte>)
    ensures HexDecode(s).Some? <==> |s| % 2 == 0 && forall k :: 0 <= k < |s| ==> HexValue(s[k]).Some?
    ensures HexDecode(s).Some? ==> |HexDecode(s).value| * 2 == |s|
  {
    if |s| >= 2 {
      HexDecodes(s[2..]);
      assert forall k :: 2 <= k < |s| ==> s[k] == s[2..][k - 2];
      assert forall k :: 0 <= k < |s| - 2 ==> s[2..][k] == s[k + 2];
    }
  }

  /** The sixteen digits in both cases. */
  const LOWER: seq<byte> :=
    [0x30, 0x31, 0x32, 0x33, 0x34, 0x35, 0x36, 0x37, 0x38, 0x39, 0x61, 0x62, 0x63, 0x64, 0x65, 0x66]
  const UPPER: seq<byte> :=
    [0x30, 0x31, 0x32, 0x33, 0x34, 0x35, 0x36, 0x37, 0x38, 0x39, 0x41, 0x42, 0x43, 0x44, 0x45, 0x46]

  predicate IsHexDigit(c: byte, n: nat) {
    n < 16 && (c == LOWER[n] || c == UPPER[n])
  }

  /** Two digits of either case for one byte. */
  ghost predicate IsHexPair(high: byte, low: byte, b: byte) {
    exists h: nat, l: nat :: IsHexDigit(high, h) && IsHexDigit(low, l) && b == 16 * h + l
  }

  lemma HexValueIs(c: byte, n: nat)
    ensures HexValue(c) == Some(n) <==> IsHexDigit(c, n)
  {
  }

  lemma HexPairIs(high: byte, low: byte, b: byte)
    ensures HexByte(high, low) == Some(b) <==> IsHexPair(high, low, b)
  {
    hide IsHexDigit;
    if HexByte(high, low) == Some(b) {
      HexValueIs(high, HexValue(high).value);
      HexValueIs(low, HexValue(low).value);
    }
    if h: nat, l: nat :| IsHexDigit(high, h) && IsHexDigit(low, l) && b == 16 * h + l {
      HexValueIs(high, h);
      HexValueIs(low, l);
    }
  }

  ghost predicate PairsUp(s: seq<byte>, v: seq<byte>) {
    |s| == 2 * |v| && forall k :: 0 <= k < |v| ==> IsHexPair(s[2 * k], s[2 * k + 1], v[k])
  }

  lemma PairsUpCons(s: seq<byte>, v: seq<byte>)
    requires |s| >= 2 && v != []
    ensures PairsUp(s, v) <==> IsHexPair(s[0], s[1], v[0]) && PairsUp(s[2..], v[1..])
  {
    hide IsHexPair;
    var rest, tail := s[2..], v[1..];
    if PairsUp(s, v) {
      forall k | 0 <= k < |tail| ensures IsHexPair(rest[2 * k], rest[2 * k + 1], tail[k]) {
        assert IsHexPair(s[2 * (k + 1)], s[2 * (k + 1) + 1], v[k + 1]);
      }
      assert IsHexPair(s[2 * 0], s[2 * 0 + 1], v[0]);
    }
    if IsHexPair(s[0], s[1], v[0]) && PairsUp(rest, tail) {
      forall k | 0 <= k < |v| ensures IsHexPair(s[2 * k], s[2 * k + 1], v[k]) {
        if k > 0 {
          assert IsHexPair(rest[2 * (k - 1)], rest[2 * (k - 1) + 1], tail[k - 1]);
        }
      }
    }
  }

  /** Hex decoding, by the table of digits: one byte for every pair of them, the first digit counting
      sixteenfold, and nothing else. */
  lemma {:induction false} HexExact(s: seq<byte>, v: seq<byte>)
    ensures HexDecode(s) == Some(v) <==>
              |s| == 2 * |v| && forall k :: 0 <= k < |v| ==> IsHexPair(s[2 * k], s[2 * k + 1], v[k])
  {
    assert HexDecode(s) == Some(v) <==> PairsUp(s, v) by {
      hide IsHexPair, HexByte;
      if |s| >= 2 && v != [] {
        HexExact(s[2..], v[1..]);
        PairsUpCons(s, v);
        HexPairIs(s[0], s[1], v[0]);
        hide PairsUp;
        assert v == [v[0]] + v[1..];
      }
    }
  }

  function LowerCase(s: seq<byte>): seq<byte> {
    seq(|s|, k requires 0 <= k < |s| => if 0x41 <= s[k] <= 0x46 then s[k] + 0x20 else s[k])
  }

  /** The case of the digits does not matter. */
  lemma {:induction false} CaseDoesNotMatter(s: seq<byte>)
    ensures HexDecode(LowerCase(s)) == HexDecode(s)
  {
    if |s| >= 2 {
      CaseDoesNotMatter(s[2..]);
      assert LowerCase(s)[2..] == LowerCase(s[2..]);
    }
  }

  // ----- the escape format, byte at a time -----

  predicate IsOctal(c: byte) {
    0x30 <= c <= 0x37
  }

  /** Three octal digits for a value that fits a byte. */
  function OctalByte(s: seq<byte>): Option<byte>
    requires |s| == 3
  {
    if IsOctal(s[0]) && IsOctal(s[1]) && IsOctal(s[2]) then
      var n := 64 * (s[0] - DIGIT_0) + 8 * (s[1] - DIGIT_0) + (s[2] - DIGIT_0);
      if n <= 255 then Some(n) else None
    else None
  }

  function Prepend(r: seq<byte>, d: Decoded): Decoded {
    match d
    case Err(e) => Err(e)
    case Ok(v) => Ok(r + v)
  }

  /** The reference decoder: one escape sequence or one raw byte at a time. */
  function DecodeEscape(s: seq<byte>): Decoded {
    if s == [] then Ok([])
    else if s[0] != BACKSLASH then Prepend([s[0]], DecodeEscape(s[1..]))
    else if |s| >= 2 && s[1] == BACKSLASH then Prepend([BACKSLASH], DecodeEscape(s[2..]))
    else if |s| < 4 then Err(ShortEscape)
    else
      match OctalByte(s[1..4])
      case None => Err(BadOctal)
      case Some(b) => Prepend([b], DecodeEscape(s[4..]))
  }

  // ----- the escape format as a grammar -----

  /** What an escape-format text is made of: bytes that stand for themselves, doubled backslashes,
      and three octal digits after a backslash. */
  datatype Piece = Raw(b: byte) | Doubled | Octal(digits: seq<byte>)

  /** Digits from 0 to 7, of which the first counts for 64 and the second for 8. */
  function OctalValue(digits: seq<byte>): int
    requires |digits| == 3
  {
    64 * (digits[0] as int - 0x30) + 8 * (digits[1] as int - 0x30) + (digits[2] as int - 0x30)
  }

  predicate IsOctalByte(digits: seq<byte>) {
    && |digits| == 3
    && 0x30 <= digits[0] <= 0x37 && 0x30 <= digits[1] <= 0x37 && 0x30 <= digits[2] <= 0x37
    && OctalValue(digits) <= 255
  }

  predicate PieceOk(p: Piece) {
    match p
    case Raw(b) => b != BACKSLASH
    case Doubled => true
    case Octal(digits) => IsOctalByte(digits)
  }

  function PieceText(p: Piece): seq<byte> {
    match p
    case Raw(b) => [b]
    case Doubled => [BACKSLASH, BACKSLASH]
    case Octal(digits) => [BACKSLASH] + digits
  }

  function PieceByte(p: Piece): byte
    requires PieceOk(p)
  {
    match p
    case Raw(b) => b
    case Doubled => BACKSLASH
    case Octal(digits) => OctalValue(digits)
  }

  predicate PiecesOk(ps: seq<Piece>) {
    forall k :: 0 <= k < |ps| ==> PieceOk(ps[k])
  }

  function PiecesText(ps: seq<Piece>): seq<byte> {
    if ps == [] then [] else PieceText(ps[0]) + PiecesText(ps[1..])
  }

  function PiecesBytes(ps: seq<Piece>): seq<byte>
    requires PiecesOk(ps)
  {
    if ps == [] then [] else [PieceByte(ps[0])] + PiecesBytes(ps[1..])
  }

  /** Where no piece begins, and why. */
  predicate Stuck(s: seq<byte>, e: ByteaError) {
    && s != [] && s[0] == BACKSLASH && !(|s| >= 2 && s[1] == BACKSLASH)
    && (if |s| < 4 then e == ShortEscape else e == BadOctal && !IsOctalByte(s[1..4]))
  }

  /** A piece is decoded, and then what follows it. */
  lemma PieceDecodes(p: Piece, rest: seq<byte>)
    requires PieceOk(p)
    ensures DecodeEscape(PieceText(p) + rest) == Prepend([PieceByte(p)], DecodeEscape(rest))
  {
    var s := PieceText(p) + rest;
    match p {
      case Raw(_) => assert s[1..] == rest;
      case Doubled => assert s[2..] == rest;
      case Octal(digits) =>
        assert s[1..4] == digits && s[4..] == rest;
        assert s[1] == digits[0] != BACKSLASH;
    }
  }

  lemma {:induction false} PiecesDecode(ps: seq<Piece>, tail: seq<byte>)
    requires PiecesOk(ps)
    ensures DecodeEscape(PiecesText(ps) + tail) == Prepend(PiecesBytes(ps), DecodeEscape(tail))
  {
    if ps == [] {
      assert [] + tail == tail;
      assert DecodeEscape(tail).Ok? ==> [] + DecodeEscape(tail).value == DecodeEscape(tail).value;
    } else {
      var p, rest := ps[0], PiecesText(ps[1..]);
      PiecesDecode(ps[1..], tail);
      PieceDecodes(p, rest + tail);
      assert PiecesText(ps) + tail == PieceText(p) + (rest + tail);
      PrependTwice([PieceByte(p)], PiecesBytes(ps[1..]), DecodeEscape(tail));
    }
  }

  /** Every text is pieces up to its end or to where it is stuck. */
  lemma {:induction false} SplitIntoPieces(s: seq<byte>) returns (ps: seq<Piece>, tail: seq<byte>)
    ensures PiecesOk(ps) && s == PiecesText(ps) + tail
    ensures tail == [] || Stuck(tail, ShortEscape) || Stuck(tail, BadOctal)
    decreases |s|
  {
    ps, tail := [], s;
    if s != [] && !Stuck(s, ShortEscape) && !Stuck(s, BadOctal) {
      var p := FirstPiece(s);
      var others;
      hide Stuck, PieceText, PieceOk;
      others, tail := SplitIntoPieces(s[|PieceText(p)|..]);
      ps := ConsPiece(p, others, tail);
    }
  }

  lemma FirstPiece(s: seq<byte>) returns (p: Piece)
    requires s != [] && !Stuck(s, ShortEscape) && !Stuck(s, BadOctal)
    ensures PieceOk(p) && PieceText(p) != [] && PieceText(p) <= s
  {
    if s[0] != BACKSLASH {
      p := Raw(s[0]);
    } else if s[1] == BACKSLASH {
      p := Doubled;
    } else {
      p := Octal(s[1..4]);
    }
  }

  lemma ConsPiece(p: Piece, others: seq<Piece>, tail: seq<byte>) returns (ps: seq<Piece>)
    requires PieceOk(p) && PiecesOk(others)
    ensures PiecesOk(ps) && PiecesText(ps) + tail == PieceText(p) + (PiecesText(others) + tail)
  {
    hide PieceOk, PieceText;
    ps := [p] + others;
    assert ps[1..] == others;
  }

  /** The exact language of the escape decoder: it accepts the texts of pieces, giving their bytes,
      and every other text fails where it is first stuck, with the error for that. */
  lemma EscapeExact(s: seq<byte>, v: seq<byte>, e: ByteaError)
    ensures DecodeEscape(s) == Ok(v) <==>
              exists ps: seq<Piece> :: PiecesOk(ps) && s == PiecesText(ps) && v == PiecesBytes(ps)
    ensures DecodeEscape(s) == Err(e) <==>
              exists ps: seq<Piece>, tail: seq<byte> :: PiecesOk(ps) && s == PiecesText(ps) + tail && Stuck(tail, e)
  {
    var ps, tail := SplitIntoPieces(s);
    PiecesDecode(ps, tail);
    hide PiecesOk, PiecesText, PiecesBytes;
    if tail == [] {
      assert PiecesText(ps) + [] == PiecesText(ps) && PiecesBytes(ps) + [] == PiecesBytes(ps);
    }
    forall ps: seq<Piece> | PiecesOk(ps) && s == PiecesText(ps) ensures DecodeEscape(s) == Ok(PiecesBytes(ps)) {
      PiecesDecode(ps, []);
      assert PiecesText(ps) + [] == PiecesText(ps) && PiecesBytes(ps) + [] == PiecesBytes(ps);
    }
    forall ps: seq<Piece>, tail: seq<byte> | PiecesOk(ps) && s == PiecesText(ps) + tail && Stuck(tail, e)
      ensures DecodeEscape(s) == Err(e)
    {
      PiecesDecode(ps, tail);
    }
  }

  // ----- both formats -----

  function Decode(s: seq<byte>): Decoded {
    if HEX_PREFIX <= s then
      match HexDecode(s[2..])
      case None => Err(BadHex)
      case Some(v) => Ok(v)
    else DecodeEscape(s)
  }

  /** bytes.IndexByte for the backslash, the length standing for absence. */
  function BackslashIndex(s: seq<byte>): (i: nat)
    ensures i <= |s| && (i < |s| ==> s[i] == BACKSLASH)
    ensures forall j :: 0 <= j < i ==> s[j] != BACKSLASH
  {
    if s == [] || s[0] == BACKSLASH then 0 else 1 + BackslashIndex(s[1..])
  }

  lemma PrependTwice(a: seq<byte>, b: seq<byte>, d: Decoded)
    ensures Prepend(a, Prepend(b, d)) == Prepend(a + b, d)
  {
    if d.Ok? {
      assert a + (b + d.value) == (a + b) + d.value;
    }
  }

  /** Copying raw bytes in one go is decoding them one at a time. */
  lemma {:induction false} RawChunk(s: seq<byte>, i: nat)
    requires i <= |s| && forall j :: 0 <= j < i ==> s[j] != BACKSLASH
    ensures DecodeEscape(s) == Prepend(s[..i], DecodeEscape(s[i..]))
  {
    if i == 0 {
      assert s[0..] == s;
      if DecodeEscape(s).Ok? {
        assert [] + DecodeEscape(s).value == DecodeEscape(s).value;
      }
    } else {
      RawChunk(s[1..], i - 1);
      assert s[1..][i - 1..] == s[i..];
      assert s[..i] == [s[0]] + s[1..][..i - 1];
      PrependTwice([s[0]], s[1..][..i - 1], DecodeEscape(s[i..]));
    }
  }

  /** parseBytea: the chunk-copying loop computes what the reference decoder does, with the same
      error on the same inputs. */
  method ParseBytea(s: seq<byte>) returns (r: Decoded)
    ensures r == Decode(s)
  {
    if |s| >= 2 && s[..2] == HEX_PREFIX {
      var v := HexDecode(s[2..]);
      match v {
        case None => return Err(BadHex);
        case Some(result) => return Ok(result);
      }
    }
    assert Decode(s) == DecodeEscape(s);
    var result: seq<byte> := [];
    var rest := s;
    assert Prepend([], DecodeEscape(s)) == DecodeEscape(s) by {
      RawChunk(s, 0);
      assert s[0..] == s;
    }
    while |rest| > 0
      invariant Prepend(result, DecodeEscape(rest)) == DecodeEscape(s)
      decreases |rest|, rest != [] && rest[0] != BACKSLASH
    {
      if rest[0] == BACKSLASH {
        if |rest| >= 2 && rest[1] == BACKSLASH {
          PrependTwice(result, [BACKSLASH], DecodeEscape(rest[2..]));
          result := result + [BACKSLASH];
          rest := rest[2..];
          continue;
        }
        if |rest| < 4 {
          return Err(ShortEscape);
        }
        var b := OctalByte(rest[1..4]);
        if b == None {
          return Err(BadOctal);
        }
        PrependTwice(result, [b.value], DecodeEscape(rest[4..]));
        result := result + [b.value];
        rest := rest[4..];
      } else {
        var i := BackslashIndex(rest);
        RawChunk(rest, i);
        PrependTwice(result, rest[..i], DecodeEscape(rest[i..]));
        if i == |rest| {
          assert rest[..i] == rest && rest[i..] == [];
          result := result + rest;
          rest := [];
          break;
        }
        result := result + rest[..i];
        rest := rest[i..];
      }
    }
    assert rest == [];
    assert Prepend(result, Ok([])) == Ok(result) by {
      assert result + [] == result;
    }
    return Ok(result);
  }

  // ----- encoding -----

  function OctalEscape(b: byte): seq<byte> {
    [BACKSLASH, DIGIT_0 + b / 64, DIGIT_0 + b / 8 % 8, DIGIT_0 + b % 8]
  }

  function EscapeByte(b: byte): seq<byte> {
    if b == BACKSLASH then [BACKSLASH, BACKSLASH]
    else if b < 0x20 || b > 0x7e then OctalEscape(b)
    else [b]
  }

  function EncodeEscape(v: seq<byte>): seq<byte> {
    if v == [] then [] else EscapeByte(v[0]) + EncodeEscape(v[1..])
  }

  function Encode(serverVersion: int, v: seq<byte>): seq<byte> {
    if serverVersion >= HEX_SERVER_VERSION then HEX_PREFIX + HexEncode(v) else EncodeEscape(v)
  }

  /** hex.Encode into a buffer from an offset on. */
  method HexEncodeInto(dst: array<byte>, at: nat, src: seq<byte>)
    requires at + 2 * |src| <= dst.Length
    modifies dst
    ensures dst[at..at + 2 * |src|] == HexEncode(src)
    ensures forall i :: 0 <= i < dst.Length && !(at <= i < at + 2 * |src|) ==> dst[i] == old(dst[i])
  {
    for k := 0 to |src|
      invariant forall i :: at <= i < at + 2 * k ==> dst[i] == HexEncode(src)[i - at]
      invariant forall i :: 0 <= i < dst.Length && !(at <= i < at + 2 * k) ==> dst[i] == old(dst[i])
    {
      dst[at + 2 * k] := HexDigit(src[k] / 16);
      dst[at + 2 * k + 1] := HexDigit(src[k] % 16);
      assert 2 * k / 2 == k && (2 * k + 1) / 2 == k && (2 * k + 1) % 2 == 1;
    }
  }

  /** encodeBytea. */
  method EncodeBytea(serverVersion: int, v: seq<byte>) returns (result: seq<byte>)
    ensures result == Encode(serverVersion, v)
  {
    if serverVersion >= HEX_SERVER_VERSION {
      hide HexEncode;
      var buffer := new byte[2 + 2 * |v|](_ => 0);
      buffer[0] := BACKSLASH;
      buffer[1] := LETTER_X;
      HexEncodeInto(buffer, 2, v);
      result := buffer[..];
      assert result == buffer[..2] + buffer[2..2 + 2 * |v|];
    } else {
      result := EscapeBytes(v);
    }
  }

  /** The loop of encodeBytea that builds the escape format. */
  method EscapeBytes(v: seq<byte>) returns (result: seq<byte>)
    ensures result == EncodeEscape(v)
  {
    result := [];
    ghost var rest := v;
    for k := 0 to |v|
      invariant rest == v[k..]
      invariant result + EncodeEscape(rest) == EncodeEscape(v)
    {
      var b := v[k];
      EscapeNext(result, rest);
      if b == BACKSLASH {
        result := result + [BACKSLASH, BACKSLASH];
      } else if b < 0x20 || b > 0x7e {
        result := result + OctalEscape(b);
      } else {
        result := result + [b];
      }
      rest := rest[1..];
    }
  }

  lemma EscapeNext(r: seq<byte>, v: seq<byte>)
    requires v != []
    ensures r + EncodeEscape(v) == r + EscapeByte(v[0]) + EncodeEscape(v[1..])
  {
  }

  lemma OctalDigits(b: byte)
    ensures b / 64 <= 3 && b / 8 % 8 <= 7 && b % 8 <= 7
    ensures b == 64 * (b / 64) + 8 * (b / 8 % 8) + b % 8
  {
  }

  lemma OctalRoundTrip(b: byte)
    ensures OctalByte(OctalEscape(b)[1..4]) == Some(b)
  {
    OctalDigits(b);
    var hi, mid, lo := DIGIT_0 + b / 64, DIGIT_0 + b / 8 % 8, DIGIT_0 + b % 8;
    assert [BACKSLASH, hi, mid, lo][1..4] == [hi, mid, lo];
  }

  lemma {:induction false} EscapeRoundTrip(v: seq<byte>)
    ensures DecodeEscape(EncodeEscape(v)) == Ok(v)
  {
    if v != [] {
      var s, tail := EncodeEscape(v), EncodeEscape(v[1..]);
      EscapeRoundTrip(v[1..]);
      assert s[|EscapeByte(v[0])|..] == tail;
      assert v == [v[0]] + v[1..];
      OctalRoundTrip(v[0]);
      if v[0] < 0x20 || v[0] > 0x7e {
        assert s[1..4] == OctalEscape(v[0])[1..4];
      }
    }
  }

  /** Escape output is never mistaken for hex. */
  lemma EscapeIsNotHex(v: seq<byte>)
    ensures !(HEX_PREFIX <= EncodeEscape(v))
  {
    if v != [] {
      var s := EncodeEscape(v);
      assert s[0] == BACKSLASH ==> |EscapeByte(v[0])| >= 2 && s[1] == EscapeByte(v[0])[1];
    }
  }

  /** The bytea round trip, for every server version and all byte values. */
  lemma ByteaRoundTrip(serverVersion: int, v: seq<byte>)
    ensures Decode(Encode(serverVersion, v)) == Ok(v)
  {
    if serverVersion >= HEX_SERVER_VERSION {
      HexRoundTrip(v);
      assert (HEX_PREFIX + HexEncode(v))[2..] == HexEncode(v);
    } else {
      EscapeRoundTrip(v);
      EscapeIsNotHex(v);
    }
  }

  // ----- what the encoders write -----

  /** From server version 90000 on the output is a backslash, the letter x, and two lower-case digits
      for every byte; below, it never begins so. */
  lemma HexOutput(serverVersion: int, v: seq<byte>)
    ensures serverVersion >= 90000 <==> [0x5C, 0x78] <= Encode(serverVersion, v)
    ensures serverVersion >= 90000 ==>
              && |Encode(serverVersion, v)| == 2 + 2 * |v|
              && forall k :: 0 <= k < |v| ==>
                   && Encode(serverVersion, v)[2 + 2 * k] == LOWER[v[k] / 16]
                   && Encode(serverVersion, v)[2 + 2 * k + 1] == LOWER[v[k] % 16]
  {
    if serverVersion >= 90000 {
      forall k | 0 <= k < |v|
        ensures HexEncode(v)[2 * k] == LOWER[v[k] / 16] && HexEncode(v)[2 * k + 1] == LOWER[v[k] % 16]
      {
        assert 2 * k / 2 == k && (2 * k + 1) / 2 == k && (2 * k + 1) % 2 == 1;
        DigitIsLower(v[k] / 16);
        DigitIsLower(v[k] % 16);
      }
    } else {
      EscapeIsNotHex(v);
    }
  }

  lemma DigitIsLower(n: nat)
    requires n < 16
    ensures HexDigit(n) == LOWER[n]
  {
  }

  /** Below, every byte becomes one piece: itself if it is printable ASCII and no backslash, a
      doubled backslash, or octal digits. */
  lemma {:induction false} EscapeOutput(serverVersion: int, v: seq<byte>) returns (ps: seq<Piece>)
    requires serverVersion < 90000
    ensures Encode(serverVersion, v) == PiecesText(ps) && PiecesOk(ps) && PiecesBytes(ps) == v
    ensures |ps| == |v|
    ensures forall k :: 0 <= k < |v| ==>
              if v[k] == 0x5C then ps[k] == Doubled
              else if 0x20 <= v[k] <= 0x7E then ps[k] == Raw(v[k])
              else ps[k].Octal?
  {
    ps := [];
    if v != [] {
      var others := EscapeOutput(serverVersion, v[1..]);
      var p := PieceOf(v[0]);
      ps := [p] + others;
      assert ps[1..] == others && v == [v[0]] + v[1..];
    }
  }

  lemma PieceOf(b: byte) returns (p: Piece)
    ensures PieceOk(p) && PieceText(p) == EscapeByte(b) && PieceByte(p) == b
    ensures if b == 0x5C then p == Doubled else if 0x20 <= b <= 0x7E then p == Raw(b) else p.Octal?
  {
    if b == 0x5C {
      p := Doubled;
    } else if 0x20 <= b <= 0x7E {
      p := Raw(b);
    } else {
      OctalDigits(b);
      p := Octal(OctalEscape(b)[1..4]);
    }
  }
}
