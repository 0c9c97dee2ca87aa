/** Exactly which texts each typed column scans, into what, and what it prints, with the bytes and
    bounds of each type written out. */
module ColumnLanguage {
  import opened Bytes
  import opened ArrayParser
  import opened ArrayGrammar
  import opened LinearArrays
  import opened TypedArrays
  import opened ColumnTypes
  import opened WireFormat
  import ArrayPrinter
  import ByteaCodec
  import Decimals

  // ----- scanning -----

  /** The one letter of a bool. */
  predicate IsBool(e: Elem, b: bool) {
    e == Text([if b then 0x74 else 0x66])
  }

  /** A decimal text of x, which has to lie between the bounds. */
  predicate IsInteger(e: Elem, x: int, low: int, high: int) {
    e.Text? && Decimals.Numeral(e.bytes, x) && low <= x <= high
  }

  /** The bytes that a bytea text stands for: after a backslash and the letter x, hex pairs, and
      otherwise the pieces of the escape format. NULL stands for none. */
  ghost predicate IsBytea(e: Elem, v: seq<byte>) {
    if e.Null? then v == []
    else if [0x5C, 0x78] <= e.bytes then
      && |e.bytes| == 2 + 2 * |v|
      && forall k :: 0 <= k < |v| ==> ByteaCodec.IsHexPair(e.bytes[2 + 2 * k], e.bytes[2 + 2 * k + 1], v[k])
    else
      exists ps: seq<ByteaCodec.Piece> ::
        ByteaCodec.PiecesOk(ps) && e.bytes == ByteaCodec.PiecesText(ps) && v == ByteaCodec.PiecesBytes(ps)
  }

  /** Elements and what they stand for, one by one. */
  ghost predicate AreAll<T(!new)>(elems: seq<Elem>, v: seq<T>, stands: (Elem, T) -> bool) {
    |elems| == |v| && forall k :: 0 <= k < |v| ==> stands(elems[k], v[k])
  }

  /** The scan of a column whose decoder accepts exactly the elements that stand for a value. */
  lemma ScansExactly<T(!new)>(src: seq<byte>, decode: Elem -> Option<T>, v: seq<T>, stands: (Elem, T) -> bool)
    requires forall e, x :: decode(e) == Some(x) <==> stands(e, x)
    ensures ScanText(src, decode) == Ok(v) <==>
              exists elems: seq<Elem> :: LinearDenotes(src, [0x2C], elems) && AreAll(elems, v, stands)
  {
    hide ScanText, LinearDenotes;
    ScanTextExact(src, decode, v);
    forall elems: seq<Elem> ensures Decodes(elems, decode, v) <==> AreAll(elems, v, stands) {
      assert forall k :: 0 <= k < |v| && |elems| == |v| ==> (decode(elems[k]) == Some(v[k]) <==> stands(elems[k], v[k]));
    }
  }

  lemma BoolScans(src: seq<byte>, v: seq<bool>)
    ensures ScanText(src, BoolElem) == Ok(v) <==>
              exists elems: seq<Elem> :: LinearDenotes(src, [0x2C], elems) && AreAll(elems, v, IsBool)
  {
    forall e: Elem, b: bool ensures BoolElem(e) == Some(b) <==> IsBool(e, b) {
      assert e.Text? && |e.bytes| == 1 ==> e.bytes == [e.bytes[0]];
    }
    ScansExactly(src, BoolElem, v, IsBool);
  }

  lemma StringScans(src: seq<byte>, v: seq<seq<byte>>)
    ensures ScanText(src, StringElem) == Ok(v) <==>
              exists elems: seq<Elem> :: LinearDenotes(src, [0x2C], elems) && AreAll(elems, v, (e, s) => e == Text(s))
  {
    ScansExactly(src, StringElem, v, (e, s) => e == Text(s));
  }

  lemma IntElemIs(e: Elem, bits: nat, x: int)
    requires bits >= 1
    ensures IntElem(e, bits) == Some(x) <==> e.Text? && Decimals.Numeral(e.bytes, x) && Decimals.InRange(x, bits)
  {
    hide Decimals.Numeral, Decimals.InRange;
    Decimals.ParseIntReads(ElemBytes(e), bits, x);
    EmptyIsNoNumeral(x);
    hide Decimals.ParseInt;
  }

  lemma EmptyIsNoNumeral(x: int)
    ensures !Decimals.Numeral([], x)
  {
  }

  lemma Int64Scans(src: seq<byte>, v: seq<int>)
    ensures ScanText(src, Int64Elem) == Ok(v) <==>
              exists elems: seq<Elem> ::
                && LinearDenotes(src, [0x2C], elems)
                && AreAll(elems, v, (e, x) => IsInteger(e, x, -9223372036854775808, 9223372036854775807))
  {
    WordBounds();
    forall e: Elem, x: int
      ensures Int64Elem(e) == Some(x) <==> IsInteger(e, x, -9223372036854775808, 9223372036854775807)
    {
      IntElemIs(e, 64, x);
    }
    hide Int64Elem, IsInteger;
    ScansExactly(src, Int64Elem, v, (e, x) => IsInteger(e, x, -9223372036854775808, 9223372036854775807));
  }

  lemma Int32Scans(src: seq<byte>, v: seq<int>)
    ensures ScanText(src, Int32Elem) == Ok(v) <==>
              exists elems: seq<Elem> ::
                && LinearDenotes(src, [0x2C], elems)
                && AreAll(elems, v, (e, x) => IsInteger(e, x, -2147483648, 2147483647))
  {
    WordBounds();
    forall e: Elem, x: int ensures Int32Elem(e) == Some(x) <==> IsInteger(e, x, -2147483648, 2147483647) {
      IntElemIs(e, 32, x);
    }
    hide Int32Elem, IsInteger;
    ScansExactly(src, Int32Elem, v, (e, x) => IsInteger(e, x, -2147483648, 2147483647));
  }

  lemma ByteaElemIs(e: Elem, v: seq<byte>)
    ensures ByteaElem(e) == Some(v) <==> IsBytea(e, v)
  {
    hide ByteaCodec.DecodeEscape, ByteaCodec.HexDecode, ByteaCodec.IsHexPair;
    var s := ElemBytes(e);
    if ByteaCodec.HEX_PREFIX <= s {
      var digits := s[2..];
      ByteaCodec.HexExact(digits, v);
      assert forall k :: 0 <= k < |v| && |digits| == 2 * |v| ==>
               digits[2 * k] == s[2 + 2 * k] && digits[2 * k + 1] == s[2 + 2 * k + 1];
    } else {
      ByteaCodec.EscapeExact(s, v, ByteaCodec.BadHex);
      if e.Null? {
        NothingEscaped();
      }
    }
  }

  lemma NothingEscaped()
    ensures ByteaCodec.DecodeEscape([]) == Ok([])
  {
  }

  lemma ByteaScans(src: seq<byte>, v: seq<seq<byte>>)
    ensures ScanText(src, ByteaElem) == Ok(v) <==>
              exists elems: seq<Elem> ::
                && LinearDenotes(src, [0x2C], elems)
                && |elems| == |v| && forall k :: 0 <= k < |v| ==> IsBytea(elems[k], v[k])
  {
    hide ScanText, LinearDenotes, IsBytea, ByteaElem;
    ScanTextExact(src, ByteaElem, v);
    forall e: Elem, x: seq<byte> ensures ByteaElem(e) == Some(x) <==> IsBytea(e, x) {
      ByteaElemIs(e, x);
    }
  }

  /** No column but Bytea takes a NULL: an array that holds one never scans. */
  lemma NullNeverScans(src: seq<byte>, elems: seq<Elem>)
    requires LinearDenotes(src, [0x2C], elems) && Null in elems
    ensures ScanText(src, BoolElem).Err? && ScanText(src, StringElem).Err?
    ensures ScanText(src, Int64Elem).Err? && ScanText(src, Int32Elem).Err?
  {
    hide LinearDenotes, ScanLinear;
    LinearExact(src, [0x2C], elems);
    NullFails(src, BoolElem);
    NullFails(src, StringElem);
    NullFails(src, Int64Elem);
    NullFails(src, Int32Elem);
  }

  // ----- printing -----

  /** What the elements of each type print as. */
  lemma ElementsPrint(b: bool, s: seq<byte>, x: int)
    ensures ShowToken(BoolToken(b)) == [if b then 0x74 else 0x66]
    ensures ShowToken(IntToken(x)) == Decimals.Format(x)
    ensures ShowToken(StringToken(s)) == [0x22] + Slashed(s, Special(s)) + [0x22]
    ensures ShowToken(ByteaToken(s)) == [0x22, 0x5C, 0x5C, 0x78] + ByteaCodec.HexEncode(s) + [0x22]
  {
    QuotingWrites(s);
    ByteaUnitsAre(s);
    assert [0x22] + ([0x5C, 0x5C, 0x78] + ByteaCodec.HexEncode(s)) == [0x22, 0x5C, 0x5C, 0x78] + ByteaCodec.HexEncode(s);
  }

  /** What lies between the braces of a printed column. */
  function Inside<T>(v: seq<T>, token: T -> Token): seq<byte>
    requires v != []
  {
    Join(MapTokens(v, token), SEPARATOR)
  }

  /** A column prints as NULL, as two braces, or as its elements between them, with a comma before
      every element but the first. */
  lemma ColumnPrints<T>(v: seq<T>, token: T -> Token, x: T)
    ensures ToSql(None, token) == SqlNull && ToSql(Some([]), token) == SqlText([0x7B, 0x7D])
    ensures v != [] ==> ToSql(Some(v), token) == SqlText([0x7B] + Inside(v, token) + [0x7D])
    ensures Inside([x], token) == ShowToken(token(x))
    ensures v != [] ==> Inside(v + [x], token) == Inside(v, token) + [0x2C] + ShowToken(token(x))
  {
    EmptyRow();
    assert MapTokens([], token) == [];
    assert MapTokens([x], token) == [token(x)];
    if v != [] {
      assert MapTokens(v + [x], token) == MapTokens(v, token) + [token(x)];
      JoinSnoc(MapTokens(v, token), token(x));
    }
  }

  lemma {:induction false} JoinSnoc(tokens: seq<Token>, t: Token)
    requires tokens != []
    ensures Join(tokens + [t], SEPARATOR) == Join(tokens, SEPARATOR) + [0x2C] + ShowToken(t)
  {
    hide ShowToken;
    assert (tokens + [t])[1..] == tokens[1..] + [t];
    if |tokens| > 1 {
      JoinSnoc(tokens[1..], t);
      var first, rest := ShowToken(tokens[0]) + SEPARATOR, Join(tokens[1..], SEPARATOR);
      assert first + (rest + [0x2C] + ShowToken(t)) == (first + rest) + [0x2C] + ShowToken(t);
    }
  }
}
