/** Bool, Bytea, Int64, Int32 and String: how each prints its elements, and what scanning the
    output gives back. */
module ColumnTypes {
  import opened Bytes
  import opened ArrayParser
  import opened ArrayGrammar
  import opened ArrayLanguage
  import opened LinearArrays
  import opened TypedArrays
  import ArrayPrinter
  import ByteaCodec
  import Decimals

  const TRUE_LETTER: byte := 0x74
  const FALSE_LETTER: byte := 0x66

  /** The bytes the element decoders see: Go's nil slice is empty to them. */
  function ElemBytes(e: Elem): seq<byte> {
    if e.Null? then [] else e.bytes
  }

  /** An unquoted text without commas, braces, or a quote or NULL to mistake it for, is an
      element that reads as itself. */
  lemma PlainToken(text: seq<byte>, follow: seq<byte>)
    requires text != [] && text[0] != OPEN && text[0] != QUOTE && text != NULL_TEXT
    requires COMMA !in text && CLOSE !in text
    ensures TokenOk(BareToken(text), SEPARATOR, follow)
    ensures TokenElem(BareToken(text)) == Text(text)
  {
    forall j | 0 <= j < |text| ensures text[j] != CLOSE && !(SEPARATOR <= (text + follow)[j..]) {
      assert (text + follow)[j..][0] == text[j];
    }
  }

  /** The braces that Bool.Value and Bytea.Value write last, the first over a delimiter. */
  method SetBraces(b: array<byte>)
    requires b.Length >= 2
    modifies b
    ensures b[..] == [OPEN] + old(b[..b.Length - 1])[1..] + [CLOSE]
  {
    b[0] := OPEN;
    b[b.Length - 1] := CLOSE;
  }

  // ----- Bool -----

  function BoolText(b: bool): byte {
    if b then TRUE_LETTER else FALSE_LETTER
  }

  function BoolToken(b: bool): Token {
    BareToken([BoolText(b)])
  }

  function BoolElem(e: Elem): Option<bool> {
    var v := ElemBytes(e);
    if |v| != 1 then None
    else if v[0] == TRUE_LETTER then Some(true)
    else if v[0] == FALSE_LETTER then Some(false)
    else None
  }

  /** Bool.Value: fills a buffer of one delimiter and one letter per element. */
  method BoolValue(a: Option<seq<bool>>) returns (r: SqlValue)
    ensures r == ToSql(a, BoolToken)
  {
    if a == None {
      return SqlNull;
    }
    var v := a.value;
    var n := |v|;
    if n > 0 {
      var b := new byte[1 + 2 * n](_ => 0);
      for i := 0 to n
        invariant b[..2 * i] == LeadOf(v[..i], BoolToken)
      {
        hide LeadOf, Separated, BoolText;
        ghost var before := b[..2 * i];
        b[2 * i] := COMMA;
        b[1 + 2 * i] := BoolText(v[i]);
        assert b[..2 * (i + 1)] == before + [COMMA, BoolText(v[i])];
        LeadNext(v, BoolToken, i);
        BoolNext(v[i]);
      }
      assert v[..n] == v;
      LeadEnds(v, BoolToken);
      SetBraces(b);
      return SqlText(b[..]);
    }
    EmptyRow();
    return SqlText([OPEN, CLOSE]);
  }

  lemma BoolNext(b: bool)
    ensures Separated(BoolToken(b)) == [COMMA, BoolText(b)]
  {
  }

  lemma BoolRoundTrip(a: Option<seq<bool>>)
    ensures ScanColumn(ToSql(a, BoolToken), BoolElem) == Ok(a)
  {
    forall b: bool ensures Faithful(b, BoolToken, BoolElem) {
      PlainToken([BoolText(b)], SEPARATOR);
      PlainToken([BoolText(b)], [CLOSE]);
    }
    ColumnRoundTrip(a, BoolToken, BoolElem);
  }

  // ----- String -----

  function StringToken(s: seq<byte>): Token {
    ArrayPrinter.Quoting(s)
  }

  function StringElem(e: Elem): Option<seq<byte>> {
    if e.Null? then None else Some(e.bytes)
  }

  /** String.Value: appends the quoted elements one after the other. */
  method StringValue(a: Option<seq<seq<byte>>>) returns (r: SqlValue)
    ensures r == ToSql(a, StringToken)
  {
    if a == None {
      return SqlNull;
    }
    var v := a.value;
    if |v| > 0 {
      hide LeadOf;
      var b := ArrayPrinter.AppendArrayQuotedBytes([OPEN], v[0]);
      FirstLead(v, StringToken);
      for i := 1 to |v|
        invariant LeadOf(v[..i], StringToken) != [] && b == [OPEN] + LeadOf(v[..i], StringToken)[1..]
      {
        LeadNext(v, StringToken, i);
        LeadTail(LeadOf(v[..i], StringToken), StringToken(v[i]));
        b := ArrayPrinter.AppendArrayQuotedBytes(b + [COMMA], v[i]);
      }
      assert v[..|v|] == v;
      LeadEnds(v, StringToken);
      return SqlText(b + [CLOSE]);
    }
    EmptyRow();
    return SqlText([OPEN, CLOSE]);
  }

  lemma FirstLead<T>(v: seq<T>, token: T -> Token)
    requires v != []
    ensures LeadOf(v[..1], token) != [] && [OPEN] + ShowToken(token(v[0])) == [OPEN] + LeadOf(v[..1], token)[1..]
  {
    LeadNext(v, token, 0);
    assert v[..0] == [] && LeadOf(v[..0], token) == [];
  }

  lemma LeadTail(lead: seq<byte>, token: Token)
    requires lead != []
    ensures [OPEN] + lead[1..] + [COMMA] + ShowToken(token) == [OPEN] + (lead + Separated(token))[1..]
  {
  }

  lemma StringRoundTrip(a: Option<seq<seq<byte>>>)
    ensures ScanColumn(ToSql(a, StringToken), StringElem) == Ok(a)
  {
    forall s: seq<byte> ensures Faithful(s, StringToken, StringElem) {
      ArrayPrinter.QuoteUnitsValue(s);
    }
    ColumnRoundTrip(a, StringToken, StringElem);
  }

  // ----- Int64 and Int32 -----

  predicate FitsInt64(x: int) {
    -0x8000_0000_0000_0000 <= x < 0x8000_0000_0000_0000
  }

  predicate FitsInt32(x: int) {
    -0x8000_0000 <= x < 0x8000_0000
  }

  lemma {:induction false} PowersAdd(m: nat, n: nat)
    ensures Decimals.Power2(m + n) == Decimals.Power2(m) * Decimals.Power2(n)
  {
    if n > 0 {
      PowersAdd(m, n - 1);
    }
  }

  lemma WordBounds()
    ensures Decimals.Power2(31) == 0x8000_0000
    ensures Decimals.Power2(63) == 0x8000_0000_0000_0000
  {
    assert Decimals.Power2(4) == 16;
    PowersAdd(4, 4);
    PowersAdd(8, 8);
    PowersAdd(16, 16);
    PowersAdd(32, 31);
    PowersAdd(31, 1);
    assert Decimals.Power2(1) == 2;
  }

  function IntToken(x: int): Token {
    BareToken(Decimals.Format(x))
  }

  function IntElem(e: Elem, bits: nat): Option<int>
    requires bits >= 1
  {
    match Decimals.ParseInt(ElemBytes(e), bits)
    case Err(_) => None
    case Ok(x) => Some(x)
  }

  function Int64Elem(e: Elem): (r: Option<int>)
    ensures r.Some? ==> FitsInt64(r.value)
  {
    WordBounds();
    IntElem(e, 64)
  }

  function Int32Elem(e: Elem): (r: Option<int>)
    ensures r.Some? ==> FitsInt32(r.value)
  {
    WordBounds();
    IntElem(e, 32)
  }

  lemma IntTokenOk(x: int, follow: seq<byte>)
    ensures TokenOk(IntToken(x), SEPARATOR, follow)
    ensures TokenElem(IntToken(x)) == Text(Decimals.Format(x))
  {
    var text := Decimals.Format(x);
    assert forall k :: 0 <= k < |text| ==> text[k] == Decimals.MINUS || Decimals.IsDigit(text[k]);
    PlainToken(text, follow);
  }

  /** Int64.Value and Int32.Value, which print through the same 64-bit call. */
  method IntValue(a: Option<seq<int>>) returns (r: SqlValue)
    ensures r == ToSql(a, IntToken)
  {
    if a == None {
      return SqlNull;
    }
    var v := a.value;
    if |v| > 0 {
      hide LeadOf;
      var b := [OPEN] + Decimals.Format(v[0]);
      FirstLead(v, IntToken);
      for i := 1 to |v|
        invariant LeadOf(v[..i], IntToken) != [] && b == [OPEN] + LeadOf(v[..i], IntToken)[1..]
      {
        LeadNext(v, IntToken, i);
        LeadTail(LeadOf(v[..i], IntToken), IntToken(v[i]));
        b := b + [COMMA] + Decimals.Format(v[i]);
      }
      assert v[..|v|] == v;
      LeadEnds(v, IntToken);
      return SqlText(b + [CLOSE]);
    }
    EmptyRow();
    return SqlText([OPEN, CLOSE]);
  }

  /** The first element outside the range of the bit size, or the length. */
  function FirstUnfit(v: seq<int>, bits: nat): (k: nat)
    requires bits >= 1
    ensures k <= |v| && (k < |v| ==> !Decimals.InRange(v[k], bits))
    ensures forall i :: 0 <= i < k ==> Decimals.InRange(v[i], bits)
  {
    if v == [] || !Decimals.InRange(v[0], bits) then 0 else 1 + FirstUnfit(v[1..], bits)
  }

  /** A list of any integers, printed and scanned, comes back unchanged if every element is in the
      range of the bit size, and is otherwise refused at the first that is not. */
  lemma IntsRoundTrip(v: seq<int>, bits: nat, decode: Elem -> Option<int>)
    requires bits >= 1 && forall e :: decode(e) == IntElem(e, bits)
    ensures ScanColumn(ToSql(Some(v), IntToken), decode) ==
            var k := FirstUnfit(v, bits);
            if k == |v| then Ok(Some(v)) else Err(BadElement(k))
  {
    hide IntToken, TokenOk, TokenElem, ScanLinear, Row, Decimals.Format, Decimals.ParseInt, Decimals.InRange;
    var tokens := MapTokens(v, IntToken);
    forall k | 0 <= k < |v|
      ensures TokenOk(tokens[k], SEPARATOR, SEPARATOR) && TokenOk(tokens[k], SEPARATOR, [CLOSE])
      ensures decode(TokenElems(tokens)[k]) == if Decimals.InRange(v[k], bits) then Some(v[k]) else None
    {
      IntTokenOk(v[k], SEPARATOR);
      IntTokenOk(v[k], [CLOSE]);
      Decimals.IntRoundTrip(v[k], bits);
    }
    TokensScan(tokens);
    var k := FirstUnfit(v, bits);
    if k == |v| {
      DecodesAll(TokenElems(tokens), decode, v);
    } else {
      FailsAt(TokenElems(tokens), decode, k);
    }
  }

  lemma Int64RoundTrip(v: seq<int>)
    ensures ScanColumn(ToSql(Some(v), IntToken), Int64Elem) ==
            var k := FirstUnfit(v, 64);
            if k == |v| then Ok(Some(v)) else Err(BadElement(k))
    ensures FirstUnfit(v, 64) == |v| <==> forall i :: 0 <= i < |v| ==> FitsInt64(v[i])
  {
    WordBounds();
    IntsRoundTrip(v, 64, Int64Elem);
  }

  lemma Int32RoundTrip(v: seq<int>)
    ensures ScanColumn(ToSql(Some(v), IntToken), Int32Elem) ==
            var k := FirstUnfit(v, 32);
            if k == |v| then Ok(Some(v)) else Err(BadElement(k))
    ensures FirstUnfit(v, 32) == |v| <==> forall i :: 0 <= i < |v| ==> FitsInt32(v[i])
  {
    WordBounds();
    IntsRoundTrip(v, 32, Int32Elem);
  }

  // ----- Bytea -----

  /** An element as Bytea.Value quotes it: an escaped backslash, the letter x, hex digits. */
  function ByteaToken(v: seq<byte>): Token {
    QuotedToken(ByteaUnits(v))
  }

  function PlainUnits(s: seq<byte>): (us: seq<Unit>)
    ensures |us| == |s| && forall k :: 0 <= k < |us| ==> us[k] == Plain(s[k])
  {
    seq(|s|, k requires 0 <= k < |s| => Plain(s[k]))
  }

  function ByteaElem(e: Elem): Option<seq<byte>> {
    match ByteaCodec.Decode(ElemBytes(e))
    case Err(_) => None
    case Ok(v) => Some(v)
  }

  const ITEM_PREFIX: seq<byte> := [COMMA, QUOTE, BACKSLASH, BACKSLASH, ByteaCodec.LETTER_X]

  lemma {:induction false} PlainUnitsAre(s: seq<byte>)
    ensures ShowUnits(PlainUnits(s)) == s && UnitsValue(PlainUnits(s)) == s
  {
    if s != [] {
      PlainUnitsAre(s[1..]);
      assert PlainUnits(s)[1..] == PlainUnits(s[1..]);
      assert s == [s[0]] + s[1..];
    }
  }

  /** The units of an element: the escaped backslash, then the rest as it is. */
  function ByteaUnits(v: seq<byte>): seq<Unit> {
    [Escaped(BACKSLASH)] + PlainUnits([ByteaCodec.LETTER_X] + ByteaCodec.HexEncode(v))
  }

  lemma ByteaUnitsAre(v: seq<byte>)
    ensures ShowUnits(ByteaUnits(v)) == [BACKSLASH, BACKSLASH, ByteaCodec.LETTER_X] + ByteaCodec.HexEncode(v)
    ensures UnitsValue(ByteaUnits(v)) == ByteaCodec.HEX_PREFIX + ByteaCodec.HexEncode(v)
  {
    hide ByteaCodec.HexEncode;
    var text := [ByteaCodec.LETTER_X] + ByteaCodec.HexEncode(v);
    PlainUnitsAre(text);
    UnitsCons(Escaped(BACKSLASH), PlainUnits(text));
    Reassociate([BACKSLASH], [ByteaCodec.LETTER_X], ByteaCodec.HexEncode(v));
    Reassociate([BACKSLASH, BACKSLASH], [ByteaCodec.LETTER_X], ByteaCodec.HexEncode(v));
  }

  lemma ByteaTokenShows(v: seq<byte>)
    ensures Separated(ByteaToken(v)) == ITEM_PREFIX + ByteaCodec.HexEncode(v) + [QUOTE]
  {
    hide ByteaCodec.HexEncode, ByteaUnits, ShowUnits;
    ByteaUnitsAre(v);
    var digits := ByteaCodec.HexEncode(v);
    assert [COMMA] + ([QUOTE] + ([BACKSLASH, BACKSLASH, ByteaCodec.LETTER_X] + digits) + [QUOTE]) ==
           ITEM_PREFIX + digits + [QUOTE];
  }

  lemma HexIsPlain(v: seq<byte>)
    ensures QUOTE !in ByteaCodec.HexEncode(v) && BACKSLASH !in ByteaCodec.HexEncode(v)
  {
  }

  /** The hex digits of all elements: what the size of the buffer is computed from. */
  function HexTotal(v: seq<seq<byte>>): nat {
    if v == [] then 0 else 2 * |v[0]| + HexTotal(v[1..])
  }

  /** Bytea.Value: fills a buffer whose size is computed first, element by element; every write
      lies inside it and every byte is written. */
  method ByteaValue(a: Option<seq<seq<byte>>>) returns (r: SqlValue)
    ensures r == ToSql(a, ByteaToken)
  {
    if a == None {
      return SqlNull;
    }
    var v := a.value;
    var n := |v|;
    if n > 0 {
      var size := 1 + 6 * n;
      for k := 0 to n
        invariant size + HexTotal(v[k..]) == 1 + 6 * n + HexTotal(v)
      {
        assert v[k..][1..] == v[k + 1..];
        size := size + 2 * |v[k]|;
      }
      var b := new byte[size](_ => 0);
      var start: nat := 0;
      assert v[0..] == v;
      for i := 0 to n
        invariant start + 6 * (n - i) + HexTotal(v[i..]) + 1 == size
        invariant b[..start] == LeadOf(v[..i], ByteaToken)
      {
        hide LeadOf, Separated, ByteaToken;
        assert v[i..][1..] == v[i + 1..];
        start := PutItem(b, start, v[i]);
        LeadNext(v, ByteaToken, i);
        ByteaTokenShows(v[i]);
      }
      assert v[..n] == v;
      LeadEnds(v, ByteaToken);
      SetBraces(b);
      return SqlText(b[..]);
    }
    EmptyRow();
    return SqlText([OPEN, CLOSE]);
  }

  /** One round of the loop of Bytea.Value. */
  method PutItem(b: array<byte>, start: nat, x: seq<byte>) returns (end: nat)
    requires start + 6 + 2 * |x| <= b.Length
    modifies b
    ensures end == start + 6 + 2 * |x|
    ensures b[..end] == old(b[..start]) + (ITEM_PREFIX + ByteaCodec.HexEncode(x) + [QUOTE])
  {
    hide ByteaCodec.HexEncode;
    forall k | 0 <= k < 5 {
      b[start + k] := ITEM_PREFIX[k];
    }
    ghost var head := b[..start + 5];
    assert head == old(b[..start]) + ITEM_PREFIX;
    var o := start + 5;
    ByteaCodec.HexEncodeInto(b, o, x);
    assert b[..o] == head;
    ghost var digits := b[o..o + 2 * |x|];
    b[o + 2 * |x|] := QUOTE;
    end := o + 2 * |x| + 1;
    assert b[..end] == head + digits + [QUOTE];
  }

  /** Bytea.scanBytes: unquotes the array, then decodes every element. NULL has no bytes and
      decodes to none. */
  method ScanBytea(column: ArrayColumn<seq<byte>>, src: seq<byte>) returns (err: Option<ScanError>)
    modifies column
    ensures match ScanText(src, ByteaElem)
            case Ok(v) => err == None && column.value == Some(v)
            case Err(e) => err == Some(e) && column.value == old(column.value)
  {
    hide ScanLinear, DecodeAll;
    var scanned := ScanLinearArray(src, SEPARATOR);
    if scanned.Err? {
      return Some(BadArray(scanned.error));
    }
    var elems := scanned.value;
    if column.value.Some? && |elems| == 0 {
      column.value := Some([]);
      DecodesAll(elems, ByteaElem, []);
      return None;
    }
    var b := new seq<byte>[|elems|](_ => []);
    for i := 0 to |elems|
      invariant column.value == old(column.value)
      invariant forall j :: 0 <= j < i ==> ByteaElem(elems[j]) == Some(b[j])
    {
      var decoded := ByteaCodec.ParseBytea(ElemBytes(elems[i]));
      if decoded.Err? {
        FailsAt(elems, ByteaElem, i);
        return Some(BadElement(i));
      }
      b[i] := decoded.value;
    }
    DecodesAll(elems, ByteaElem, b[..]);
    column.value := Some(b[..]);
    err := None;
  }

  lemma ByteaFaithful(v: seq<byte>)
    ensures Faithful(v, ByteaToken, ByteaElem)
  {
    HexIsPlain(v);
    hide ByteaCodec.HexEncode;
    ByteaUnitsAre(v);
    ByteaCodec.ByteaRoundTrip(ByteaCodec.HEX_SERVER_VERSION, v);
  }

  /** The round trip of a bytea array through its three layers: array quoting, the hex format
      and the bytes. */
  lemma ByteaArrayRoundTrip(a: Option<seq<seq<byte>>>)
    ensures ScanColumn(ToSql(a, ByteaToken), ByteaElem) == Ok(a)
  {
    forall v: seq<byte> ensures Faithful(v, ByteaToken, ByteaElem) {
      hide Faithful;
      ByteaFaithful(v);
    }
    ColumnRoundTrip(a, ByteaToken, ByteaElem);
  }
}
