/** The Generic array: printing nested values, and scanning into a slice or a fixed-size array of
    any scannable type with the caller's delimiter. How one element is assigned is a parameter. */
module GenericArrays {
  import opened Bytes
  import opened ArrayParser
  import opened ArrayGrammar
  import opened ArrayLanguage
  import opened LinearArrays
  import opened TypedArrays
  import opened ArrayPrinter
  import opened NestedArrays
  import opened HollowArrays

  datatype GenericError =
    | Malformed(error: ParseError)
    | MultiDimensional(dims: seq<nat>)
    | WrongLength(found: nat)
    | Unassignable(index: nat)
    | Unconvertible

  /** What the scan stores, said of the elements alone: all of them, each assigned, and for an
      array exactly as many as it holds. */
  function ScanElements<T>(src: seq<byte>, del: seq<byte>, length: Option<nat>, assign: Elem -> Option<T>)
      : Result<seq<T>, GenericError>
    requires |del| >= 1
  {
    match Parse(src, del)
    case Err(e) => Err(Malformed(e))
    case Ok(p) =>
      if |p.dims| > 1 then Err(MultiDimensional(p.dims))
      else if length.Some? && length.value != |p.elems| then Err(WrongLength(|p.elems|))
      else
        match DecodeAll(p.elems, assign)
        case Ok(v) => Ok(v)
        case Err(_) => Err(Unassignable(FirstBad(p.elems, assign)))
  }

  /** The part both destinations share: dimensions, their check against the destination, and the
      assignment of every element. The first count values are the ones to store. */
  method Assign<T(0)>(src: seq<byte>, del: seq<byte>, length: Option<nat>, assign: Elem -> Option<T>)
    returns (values: array<T>, count: nat, err: Option<GenericError>)
    requires |del| >= 1
    ensures fresh(values)
    ensures match ScanElements(src, del, length, assign)
            case Err(e) => err == Some(e)
            case Ok(v) =>
              && err == None && count <= values.Length && values[..count] == v
              && (length.Some? ==> count == length.value)
  {
    hide Parse, DecodeAll;
    values, count, err := new T[0], 0, None;
    var parsed := ParseArray(src, del);
    if parsed.Err? {
      err := Some(Malformed(parsed.error));
      return;
    }
    var dims, elems := parsed.value.dims, parsed.value.elems;
    if |dims| > 1 {
      err := Some(MultiDimensional(dims));
      return;
    }
    LinearCount(src, del);
    if |dims| == 0 {
      dims := dims + [0];
    }
    if length.Some? && length.value != dims[0] {
      err := Some(WrongLength(dims[0]));
      return;
    }
    values := new T[|elems|];
    for i := 0 to |elems|
      invariant forall j :: 0 <= j < i ==> assign(elems[j]) == Some(values[j])
    {
      var x := assign(elems[i]);
      if x == None {
        FailsAt(elems, assign, i);
        FirstBadIs(elems, assign, i);
        err := Some(Unassignable(i));
        return;
      }
      values[i] := x.value;
    }
    count := dims[0];
    DecodesAll(elems, assign, values[..]);
  }

  /** Into a slice: the destination becomes the first count values, which are all of them. */
  method ScanToSlice<T(0)>(dest: ArrayColumn<T>, src: seq<byte>, del: seq<byte>, assign: Elem -> Option<T>)
    returns (err: Option<GenericError>)
    requires |del| >= 1
    modifies dest
    ensures match ScanElements(src, del, None, assign)
            case Ok(v) => err == None && dest.value == Some(v)
            case Err(e) => err == Some(e) && dest.value == old(dest.value)
  {
    hide ScanElements;
    var values, count;
    values, count, err := Assign(src, del, None, assign);
    if err == None {
      dest.value := Some(values[..count]);
    }
  }

  /** Into an array: copies count values over the destination, in place. */
  method ScanToArray<T(0)>(dest: array<T>, src: seq<byte>, del: seq<byte>, assign: Elem -> Option<T>)
    returns (err: Option<GenericError>)
    requires |del| >= 1
    modifies dest
    ensures match ScanElements(src, del, Some(dest.Length), assign)
            case Ok(v) => err == None && dest[..] == v
            case Err(e) => err == Some(e) && dest[..] == old(dest[..])
  {
    hide ScanElements;
    var values, count;
    values, count, err := Assign(src, del, Some(dest.Length), assign);
    if err == None {
      ghost var stored := values[..count];
      for i := 0 to count
        invariant values[..count] == stored && dest[..i] == stored[..i]
      {
        dest[i] := values[i];
      }
      assert dest[..] == dest[..count];
    }
  }

  /** Scan with a slice as destination: a SQL NULL makes it nil. */
  method ScanSlice<T(0)>(dest: ArrayColumn<T>, src: SqlValue, del: seq<byte>, assign: Elem -> Option<T>)
    returns (err: Option<GenericError>)
    requires |del| >= 1
    modifies dest
    ensures src == SqlNull ==> err == None && dest.value == None
    ensures src == SqlOther ==> err == Some(Unconvertible) && dest.value == old(dest.value)
    ensures src.SqlText? ==>
              match ScanElements(src.text, del, None, assign)
              case Ok(v) => err == None && dest.value == Some(v)
              case Err(e) => err == Some(e) && dest.value == old(dest.value)
  {
    match src {
      case SqlText(text) => err := ScanToSlice(dest, text, del, assign);
      case SqlNull =>
        dest.value := None;
        err := None;
      case SqlOther => err := Some(Unconvertible);
    }
  }

  /** Scan with an array as destination, which cannot be nil: a SQL NULL is an error too. */
  method ScanArray<T(0)>(dest: array<T>, src: SqlValue, del: seq<byte>, assign: Elem -> Option<T>)
    returns (err: Option<GenericError>)
    requires |del| >= 1
    modifies dest
    ensures !src.SqlText? ==> err == Some(Unconvertible) && dest[..] == old(dest[..])
    ensures src.SqlText? ==>
              match ScanElements(src.text, del, Some(dest.Length), assign)
              case Ok(v) => err == None && dest[..] == v
              case Err(e) => err == Some(e) && dest[..] == old(dest[..])
  {
    match src {
      case SqlText(text) => err := ScanToArray(dest, text, del, assign);
      case SqlNull => err := Some(Unconvertible);
      case SqlOther => err := Some(Unconvertible);
    }
  }

  /** A scan into a slice or an array succeeds only with one value per element, so nothing that
      was parsed is dropped. */
  lemma ScanKeepsElements<T>(src: seq<byte>, del: seq<byte>, length: Option<nat>, assign: Elem -> Option<T>)
    requires |del| >= 1
    ensures ScanElements(src, del, length, assign).Ok? <==>
            && Parse(src, del).Ok? && |Parse(src, del).value.dims| <= 1
            && (forall e :: e in Parse(src, del).value.elems ==> assign(e).Some?)
            && (length.Some? ==>
                  length.value == if Parse(src, del).value.dims == [] then 0 else Parse(src, del).value.dims[0])
    ensures ScanElements(src, del, length, assign).Ok? ==>
              Decodes(Parse(src, del).value.elems, assign, ScanElements(src, del, length, assign).value)
  {
    hide Parse;
    if Parse(src, del).Ok? && |Parse(src, del).value.dims| <= 1 {
      LinearCount(src, del);
      var elems := Parse(src, del).value.elems;
      var k := FirstBad(elems, assign);
      assert k < |elems| ==> elems[k] in elems;
    }
  }

  // ----- printing -----

  /** The text of a list that is not nil, or None where a leaf does not convert. */
  function PrintedText(items: seq<Value>): Option<seq<byte>> {
    if items == [] then Some([OPEN, CLOSE])
    else
      match PrintList(items)
      case None => None
      case Some(p) => Some(p.text)
  }

  /** Generic.Value. */
  method GenericValue(items: Option<seq<Value>>) returns (r: Option<SqlValue>)
    ensures items == None ==> r == Some(SqlNull)
    ensures items.Some? ==>
              r == match PrintedText(items.value) case None => None case Some(text) => Some(SqlText(text))
  {
    if items == None {
      return Some(SqlNull);
    }
    if |items.value| == 0 {
      return Some(SqlText([OPEN, CLOSE]));
    }
    var text, _, ok := AppendArray([], items.value);
    if !ok {
      return None;
    }
    assert [] + PrintList(items.value).value.text == PrintList(items.value).value.text;
    return Some(SqlText(text));
  }

  /** One dimension is left of an array when the slices that leave no trace are dropped, or
      nothing but braces. */
  ghost predicate PrintsFlat(items: seq<Value>) {
    || (PrintedText(items).Some? && exists k: nat :: k >= 1 && PrintedText(items).value == Empty(k))
    || (items != [] && AllLeaves(TrimAll(items)))
  }

  predicate AllLeaves(items: seq<Value>) {
    forall k :: 0 <= k < |items| ==> !items[k].List?
  }

  lemma {:induction false} FlatTree(items: seq<Value>)
    requires items != [] && forall k :: 0 <= k < |items| ==> Full(items[k])
    ensures KidsLevels(KidsOf(items), 0) <==> AllLeaves(items)
  {
    if |items| > 1 {
      FlatTree(items[1..]);
      assert forall k :: 1 <= k < |items| ==> items[k] == items[1..][k - 1];
    }
  }

  /** Parsing the printed text of an array gives at most one dimension exactly when it prints flat. */
  lemma PrintedDims(items: seq<Value>, del: seq<byte>)
    requires GoodDelimiter(del) && Printable(List(items), del)
    ensures PrintedText(items).Some?
    ensures var r := Parse(PrintedText(items).value, del);
            && (r.Ok? && |r.value.dims| <= 1 <==> PrintsFlat(items))
            && (r.Ok? ==> r.value.elems == Flatten(List(items)))
  {
    if items == [] {
      assert PrintedText(items).value == Empty(1);
      EmptyParses([OPEN, CLOSE], del, 1);
      assert Flatten(List(items)) == [];
    } else {
      PrintedRoundTrip(items, del);
      var text, kept := PrintedText(items).value, TrimAll(items);
      TrimmedPrints(items, del);
      hide Parse, Flatten, PrintList, Printable, TrimAll;
      if k: nat :| k >= 1 && text == Empty(k) {
        EmptyParses(text, del, k);
      } else if AllLeaves(kept) {
        assert Rectangular(List(kept), [|kept|]) by {
          assert [|kept|][1..] == [];
        }
        NestedRoundTrip(kept, del, [|kept|]);
      } else if Full(List(kept)) && Parsable(TreeOf(List(kept))) {
        FlatTree(kept);
      }
    }
  }

  /** What scanning a printed array gives, whatever its form: it succeeds exactly when one
      dimension is left, every leaf can be assigned and an array destination has as many places as
      there are leaves; the leaves are then stored in order. */
  lemma PrintedScans<T>(items: seq<Value>, del: seq<byte>, length: Option<nat>, assign: Elem -> Option<T>)
    requires GoodDelimiter(del) && Printable(List(items), del)
    ensures PrintedText(items).Some?
    ensures var elems, r := Flatten(List(items)), ScanElements(PrintedText(items).value, del, length, assign);
            && (r.Ok? <==>
                  && PrintsFlat(items) && (length.Some? ==> length.value == |elems|)
                  && forall e :: e in elems ==> assign(e).Some?)
            && (r.Ok? ==> Decodes(elems, assign, r.value))
  {
    hide Parse, Flatten, PrintsFlat, DecodeAll;
    PrintedDims(items, del);
    var text := PrintedText(items).value;
    ScanKeepsElements(text, del, length, assign);
    if Parse(text, del).Ok? && |Parse(text, del).value.dims| <= 1 {
      LinearCount(text, del);
    }
  }

  /** What scanning a printed rectangular array gives: one dimension, empty or not, comes back leaf
      by leaf, into a slice or into an array of its length, and no other; more than one is refused
      with its extents. */
  lemma RectangularScans<T>(items: seq<Value>, del: seq<byte>, shape: seq<nat>, length: Option<nat>,
                            assign: Elem -> Option<T>)
    requires |del| >= 1 && CLOSE !in del
    requires Rectangular(List(items), shape) && Printable(List(items), del) && (items != [] ==> Positive(shape))
    ensures PrintedText(items).Some?
    ensures ScanElements(PrintedText(items).value, del, length, assign) ==
            if items != [] && |shape| > 1 then Err(MultiDimensional(shape))
            else if length.Some? && length.value != |items| then Err(WrongLength(|items|))
            else match DecodeAll(Flatten(List(items)), assign)
                 case Ok(v) => Ok(v)
                 case Err(_) => Err(Unassignable(FirstBad(Flatten(List(items)), assign)))
  {
    assert Flatten(List([])) == [];
    hide Parse, Flatten, DecodeAll;
    if items == [] {
      assert PrintedText(items).value == Empty(1);
      EmptyParses(PrintedText(items).value, del, 1);
    } else {
      NestedRoundTrip(items, del, shape);
      RectangularCount(List(items), shape, del);
      if |shape| == 1 {
        assert shape[1..] == [] && Product(shape[1..]) == 1;
        assert Product(shape) == |items|;
      }
    }
  }
}
