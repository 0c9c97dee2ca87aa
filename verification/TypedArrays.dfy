/** The one-dimensional array types of dbarray.go: scanning into a column and printing it. */
module TypedArrays {
  import opened Bytes
  import opened ArrayParser
  import opened ArrayGrammar
  import opened ArrayLanguage
  import opened LinearArrays

  const SEPARATOR: seq<byte> := [COMMA]

  /** What the driver hands to Scan and takes from Value. */
  datatype SqlValue = SqlNull | SqlText(text: seq<byte>) | SqlOther

  datatype ScanError = WrongType | BadArray(error: LinearError) | BadElement(index: nat)

  // ----- scanning -----

  /** The first element that does not decode, or the length. */
  function FirstBad<T>(elems: seq<Elem>, decode: Elem -> Option<T>): (k: nat)
    ensures k <= |elems| && (k < |elems| ==> decode(elems[k]) == None)
    ensures forall j :: 0 <= j < k ==> decode(elems[j]).Some?
  {
    if elems == [] || decode(elems[0]) == None then 0 else 1 + FirstBad(elems[1..], decode)
  }

  function DecodeAll<T>(elems: seq<Elem>, decode: Elem -> Option<T>): Result<seq<T>, ScanError> {
    var k := FirstBad(elems, decode);
    if k < |elems| then Err(BadElement(k))
    else Ok(seq(|elems|, i requires 0 <= i < |elems| => decode(elems[i]).value))
  }

  function ScanText<T>(src: seq<byte>, decode: Elem -> Option<T>): Result<seq<T>, ScanError> {
    match ScanLinear(src, SEPARATOR)
    case Err(e) => Err(BadArray(e))
    case Ok(elems) => DecodeAll(elems, decode)
  }

  function ScanColumn<T>(src: SqlValue, decode: Elem -> Option<T>): Result<Option<seq<T>>, ScanError> {
    match src
    case SqlNull => Ok(None)
    case SqlOther => Err(WrongType)
    case SqlText(text) =>
      match ScanText(text, decode)
      case Err(e) => Err(e)
      case Ok(v) => Ok(Some(v))
  }

  lemma {:induction false} FirstBadIs<T>(elems: seq<Elem>, decode: Elem -> Option<T>, k: nat)
    requires k <= |elems| && (k < |elems| ==> decode(elems[k]) == None)
    requires forall j :: 0 <= j < k ==> decode(elems[j]).Some?
    ensures FirstBad(elems, decode) == k
  {
    if k > 0 {
      FirstBadIs(elems[1..], decode, k - 1);
    }
  }

  predicate Decodes<T(==)>(elems: seq<Elem>, decode: Elem -> Option<T>, v: seq<T>) {
    |v| == |elems| && forall i {:trigger v[i]} {:trigger elems[i]} :: 0 <= i < |v| ==> decode(elems[i]) == Some(v[i])
  }

  lemma DecodesAll<T>(elems: seq<Elem>, decode: Elem -> Option<T>, v: seq<T>)
    requires Decodes(elems, decode, v)
    ensures DecodeAll(elems, decode) == Ok(v)
  {
    FirstBadIs(elems, decode, |elems|);
    assert seq(|elems|, i requires 0 <= i < |elems| => decode(elems[i]).value) == v;
  }

  lemma FailsAt<T>(elems: seq<Elem>, decode: Elem -> Option<T>, k: nat)
    requires k < |elems| && decode(elems[k]) == None && forall j :: 0 <= j < k ==> decode(elems[j]).Some?
    ensures DecodeAll(elems, decode) == Err(BadElement(k))
  {
    FirstBadIs(elems, decode, k);
  }

  /** The receiver of Scan: a nil slice, or its elements. */
  class ArrayColumn<T(0)> {
    var value: Option<seq<T>>

    constructor ()
      ensures value == None
    {
      value := None;
    }

    /** scanBytes of the types whose elements a function decodes. A failed scan, from the
        parser or from any element, leaves the column as it was. */
    method ScanBytes(src: seq<byte>, decode: Elem -> Option<T>) returns (err: Option<ScanError>)
      modifies this
      ensures match ScanText(src, decode)
              case Ok(v) => err == None && value == Some(v)
              case Err(e) => err == Some(e) && value == old(value)
    {
      hide ScanLinear, DecodeAll;
      var scanned := ScanLinearArray(src, SEPARATOR);
      if scanned.Err? {
        return Some(BadArray(scanned.error));
      }
      var elems := scanned.value;
      if value.Some? && |elems| == 0 {
        value := Some([]);
        DecodesAll(elems, decode, []);
        return None;
      }
      var b := new T[|elems|];
      for i := 0 to |elems|
        invariant value == old(value)
        invariant forall j :: 0 <= j < i ==> decode(elems[j]) == Some(b[j])
      {
        var x := decode(elems[i]);
        if x == None {
          FailsAt(elems, decode, i);
          return Some(BadElement(i));
        }
        b[i] := x.value;
      }
      DecodesAll(elems, decode, b[..]);
      value := Some(b[..]);
      err := None;
    }

    /** Scan: a SQL NULL makes the column nil, text is scanned, anything else is an error. */
    method Scan(src: SqlValue, decode: Elem -> Option<T>) returns (err: Option<ScanError>)
      modifies this
      ensures src == SqlNull ==> err == None && value == None
      ensures src == SqlOther ==> err == Some(WrongType) && value == old(value)
      ensures src.SqlText? ==>
                match ScanText(src.text, decode)
                case Ok(v) => err == None && value == Some(v)
                case Err(e) => err == Some(e) && value == old(value)
      ensures match ScanColumn(src, decode)
              case Ok(v) => err == None && value == v
              case Err(e) => err == Some(e) && value == old(value)
    {
      match src {
        case SqlText(text) => err := ScanBytes(text, decode);
        case SqlNull =>
          value := None;
          err := None;
        case SqlOther => err := Some(WrongType);
      }
    }
  }

  /** The exact inputs a typed scan accepts, and what it reads: the grammar's elements, every
      one of them decoded. */
  lemma ScanTextExact<T>(src: seq<byte>, decode: Elem -> Option<T>, v: seq<T>)
    ensures ScanText(src, decode) == Ok(v) <==>
            exists elems: seq<Elem> :: LinearDenotes(src, SEPARATOR, elems) && Decodes(elems, decode, v)
  {
    hide ScanLinear, LinearDenotes;
    if ScanText(src, decode) == Ok(v) {
      var elems := ScanLinear(src, SEPARATOR).value;
      LinearExact(src, SEPARATOR, elems);
      assert Decodes(elems, decode, v);
    }
    if elems: seq<Elem> :| LinearDenotes(src, SEPARATOR, elems) && Decodes(elems, decode, v) {
      LinearExact(src, SEPARATOR, elems);
      DecodesAll(elems, decode, v);
    }
  }

  /** Where NULL does not decode, an array that holds one never scans. */
  lemma NullFails<T>(src: seq<byte>, decode: Elem -> Option<T>)
    requires decode(Null) == None
    requires ScanLinear(src, SEPARATOR).Ok? && Null in ScanLinear(src, SEPARATOR).value
    ensures ScanText(src, decode).Err? && ScanText(src, decode).error.BadElement?
  {
    hide ScanLinear;
    var elems := ScanLinear(src, SEPARATOR).value;
    var k :| 0 <= k < |elems| && elems[k] == Null;
    assert FirstBad(elems, decode) <= k;
  }

  // ----- printing -----

  function MapTokens<T>(v: seq<T>, token: T -> Token): (tokens: seq<Token>)
    ensures |tokens| == |v| && forall i :: 0 <= i < |v| ==> tokens[i] == token(v[i])
  {
    seq(|v|, i requires 0 <= i < |v| => token(v[i]))
  }

  /** What Value returns for a column whose elements are printed as these tokens. */
  function ToSql<T>(value: Option<seq<T>>, token: T -> Token): SqlValue {
    match value
    case None => SqlNull
    case Some(v) => SqlText(Row(MapTokens(v, token), SEPARATOR))
  }

  /** An element's token is one the grammar allows before a comma and before the closing brace,
      and decodes to the element. */
  predicate Faithful<T(==)>(x: T, token: T -> Token, decode: Elem -> Option<T>) {
    && TokenOk(token(x), SEPARATOR, SEPARATOR)
    && TokenOk(token(x), SEPARATOR, [CLOSE])
    && decode(TokenElem(token(x))) == Some(x)
  }

  /** The round trip of a typed column, nil and empty told apart. */
  lemma ColumnRoundTrip<T>(value: Option<seq<T>>, token: T -> Token, decode: Elem -> Option<T>)
    requires value.Some? ==> forall i :: 0 <= i < |value.value| ==> Faithful(value.value[i], token, decode)
    ensures ScanColumn(ToSql(value, token), decode) == Ok(value)
  {
    hide ScanLinear, TokenOk, TokenElem, Row;
    if value.Some? {
      var v := value.value;
      var tokens := MapTokens(v, token);
      TokensScan(tokens);
      DecodesAll(TokenElems(tokens), decode, v);
    }
  }

  /** A printed column scans to its tokens' values. */
  lemma TokensScan(tokens: seq<Token>)
    requires forall k :: 0 <= k < |tokens| ==>
               TokenOk(tokens[k], SEPARATOR, SEPARATOR) && TokenOk(tokens[k], SEPARATOR, [CLOSE])
    ensures ScanLinear(Row(tokens, SEPARATOR), SEPARATOR) == Ok(TokenElems(tokens))
  {
    hide ScanLinear, TokenOk, TokenElem, Row;
    if tokens == [] {
      EmptyRow();
      assert TokenElems(tokens) == [];
    } else {
      RowParses(tokens, SEPARATOR);
    }
  }

  lemma EmptyRow()
    ensures Row([], SEPARATOR) == [OPEN, CLOSE]
    ensures ScanLinear(Row([], SEPARATOR), SEPARATOR) == Ok([])
  {
    assert Row([], SEPARATOR) == Empty(1);
    EmptyParses(Row([], SEPARATOR), SEPARATOR, 1);
  }

  /** The tokens with a delimiter before each: what the printing loops build. */
  function Lead(tokens: seq<Token>): seq<byte> {
    if tokens == [] then [] else Separated(tokens[0]) + Lead(tokens[1..])
  }

  function Separated(token: Token): seq<byte> {
    SEPARATOR + ShowToken(token)
  }

  lemma {:induction false} LeadIsJoin(tokens: seq<Token>)
    requires tokens != []
    ensures Lead(tokens) == SEPARATOR + Join(tokens, SEPARATOR)
  {
    if |tokens| == 1 {
      assert Lead(tokens[1..]) == [];
    } else {
      LeadIsJoin(tokens[1..]);
    }
  }

  lemma {:induction false} LeadAppend(tokens: seq<Token>, token: Token)
    ensures Lead(tokens + [token]) == Lead(tokens) + Separated(token)
  {
    hide Separated;
    var all := tokens + [token];
    if tokens == [] {
      assert all[1..] == [];
      assert Lead(all) == Separated(token);
    } else {
      LeadAppend(tokens[1..], token);
      assert all[1..] == tokens[1..] + [token];
      Reassociate(Separated(tokens[0]), Lead(tokens[1..]), Separated(token));
    }
  }

  lemma LeadRow(tokens: seq<Token>)
    requires tokens != []
    ensures Lead(tokens) != [] && Row(tokens, SEPARATOR) == [OPEN] + Lead(tokens)[1..] + [CLOSE]
  {
    LeadIsJoin(tokens);
  }

  /** One more round of a printing loop. */
  lemma LeadNext<T>(v: seq<T>, token: T -> Token, i: nat)
    requires i < |v|
    ensures LeadOf(v[..i + 1], token) == LeadOf(v[..i], token) + Separated(token(v[i]))
  {
    hide Lead;
    assert MapTokens(v[..i + 1], token) == MapTokens(v[..i], token) + [token(v[i])];
    LeadAppend(MapTokens(v[..i], token), token(v[i]));
  }

  function LeadOf<T>(v: seq<T>, token: T -> Token): seq<byte> {
    Lead(MapTokens(v, token))
  }

  /** The end of a printing loop: the first delimiter overwritten by the opening brace, and the
      closing brace added. */
  lemma LeadEnds<T>(v: seq<T>, token: T -> Token)
    requires v != []
    ensures LeadOf(v, token) != []
    ensures ToSql(Some(v), token) == SqlText([OPEN] + LeadOf(v, token)[1..] + [CLOSE])
  {
    LeadRow(MapTokens(v, token));
  }
}
