/** Round trips of nested arrays: what parsing a printed array of any depth gives back. */
module NestedArrays {
  import opened Bytes
  import opened ArrayParser
  import opened ArrayGrammar
  import opened ArrayLanguage
  import opened ArrayPrinter
  import opened LinearArrays

  /** An unquoted text that the delimiter and the braces cannot cut. */
  predicate SafeText(text: seq<byte>, del: seq<byte>) {
    TokenOk(BareToken(text), del, del)
  }

  /** All leaves use the delimiter and are texts the parser can tell apart from it, from braces
      and, unless they are NULL, from the word NULL. */
  predicate Printable(v: Value, del: seq<byte>) {
    match v
    case Missing(d) => d == del && SafeText(NULL_TEXT, del)
    case Bytea(d, _) => d == del
    case Scalar(d, text) => d == del && SafeText(text, del) && text != NULL_TEXT
    case Unsupported(_) => false
    case List(items) => forall k :: 0 <= k < |items| ==> Printable(items[k], del)
  }

  /** No slice inside is empty. */
  predicate Full(v: Value) {
    v.List? ==> v.items != [] && forall k :: 0 <= k < |v.items| ==> Full(v.items[k])
  }

  /** v is an array of the given extents, some of which may be zero. */
  predicate Rectangular(v: Value, shape: seq<nat>) {
    if shape == [] then !v.List?
    else v.List? && |v.items| == shape[0] && forall k :: 0 <= k < |v.items| ==> Rectangular(v.items[k], shape[1..])
  }

  /** The leaves in order, NULL told apart from every text. */
  function Flatten(v: Value): seq<Elem>
    decreases v, 0
  {
    match v
    case Missing(_) => [Null]
    case Bytea(_, bytes) => [Text(bytes)]
    case Scalar(_, text) => [Text(text)]
    case Unsupported(_) => []
    case List(items) => FlattenAll(items)
  }

  function FlattenAll(items: seq<Value>): seq<Elem>
    decreases items, 1
  {
    if items == [] then [] else Flatten(items[0]) + FlattenAll(items[1..])
  }

  function Product(shape: seq<nat>): nat {
    if shape == [] then 1 else shape[0] * Product(shape[1..])
  }

  // ----- printed arrays are texts of trees -----

  function TreeOf(v: Value): Tree
    requires Full(v)
    decreases v, 0
  {
    match v
    case Missing(_) => Leaf(BareToken(NULL_TEXT))
    case Bytea(_, bytes) => Leaf(Quoting(bytes))
    case Scalar(_, text) => Leaf(BareToken(text))
    case Unsupported(_) => Leaf(BareToken([]))
    case List(items) => Node(KidsOf(items))
  }

  function KidsOf(items: seq<Value>): Kids
    requires items != [] && forall k :: 0 <= k < |items| ==> Full(items[k])
    decreases items, 1
  {
    if |items| == 1 then Last(TreeOf(items[0])) else More(TreeOf(items[0]), KidsOf(items[1..]))
  }

  /** A text that the delimiter does not cut is not cut by what follows it either, be it another
      item or a closing brace. */
  lemma SafeAnywhere(text: seq<byte>, del: seq<byte>, after: seq<byte>)
    requires |del| >= 1 && CLOSE !in del && SafeText(text, del) && Stops(del, after)
    ensures TokenOk(BareToken(text), del, after)
  {
    forall j | 0 <= j < |text| ensures !(del <= (text + after)[j..]) {
      var n := |text| - j;
      var before, behind := (text + del)[j..], (text + after)[j..];
      if |del| > n && after[0] == CLOSE {
        assert behind[n] == CLOSE && del[n] in del;
      } else {
        assert before[..|del|] == behind[..|del|];
      }
    }
  }

  lemma {:induction false} PrintIsShow(v: Value, del: seq<byte>, after: seq<byte>)
    requires |del| >= 1 && CLOSE !in del && Stops(del, after)
    requires Full(v) && Printable(v, del)
    ensures Print(v) == Some(Printed(Show(TreeOf(v), del), del))
    ensures TreeOk(TreeOf(v), del, after) && Leaves(TreeOf(v)) == Flatten(v)
    decreases v, 0
  {
    match v {
      case Missing(_) => SafeAnywhere(NULL_TEXT, del, after);
      case Bytea(_, bytes) => QuoteUnitsValue(bytes);
      case Scalar(_, text) => SafeAnywhere(text, del, after);
      case List(items) => PrintsAreShow(items, del, [CLOSE] + after);
    }
  }

  lemma {:induction false} PrintsAreShow(items: seq<Value>, del: seq<byte>, after: seq<byte>)
    requires |del| >= 1 && CLOSE !in del && items != [] && after != [] && after[0] == CLOSE
    requires forall k :: 0 <= k < |items| ==> Full(items[k]) && Printable(items[k], del)
    ensures PrintItems(items) == Some(Printed(ShowKids(KidsOf(items), del), del))
    ensures KidsOk(KidsOf(items), del, after) && KidsLeaves(KidsOf(items)) == FlattenAll(items)
    decreases items, 1
  {
    hide TreeOk, Print, Full, Printable, TreeOf, Flatten, Leaves, Show;
    if |items| > 1 {
      PrintsAreShow(items[1..], del, after);
      PrintIsShow(items[0], del, del + ShowKids(KidsOf(items[1..]), del) + after);
    } else {
      PrintIsShow(items[0], del, after);
      assert del[0] in del;
      assert FlattenAll(items[1..]) == [];
      assert Flatten(items[0]) + [] == Flatten(items[0]);
    }
  }

  // ----- rectangular arrays -----

  predicate Positive(shape: seq<nat>) {
    forall j :: 0 <= j < |shape| ==> shape[j] >= 1
  }

  lemma {:induction false} RectangularTree(v: Value, shape: seq<nat>)
    requires Rectangular(v, shape) && Positive(shape)
    ensures Full(v) && Levels(TreeOf(v), |shape|) && FirstSolid(TreeOf(v)) && Spine(TreeOf(v)) == |shape|
    decreases v, 0
  {
    if v.List? {
      assert shape[0] >= 1;
      RectangularKids(v.items, shape[1..]);
    }
  }

  lemma {:induction false} RectangularKids(items: seq<Value>, shape: seq<nat>)
    requires items != [] && Positive(shape)
    requires forall k :: 0 <= k < |items| ==> Rectangular(items[k], shape)
    ensures forall k :: 0 <= k < |items| ==> Full(items[k])
    ensures KidsLevels(KidsOf(items), |shape|) && FirstSolid(KidsOf(items).kid) && Spine(KidsOf(items).kid) == |shape|
    decreases items, 1
  {
    RectangularTree(items[0], shape);
    if |items| > 1 {
      RectangularKids(items[1..], shape);
      assert forall k :: 1 <= k < |items| ==> items[k] == items[1..][k - 1];
    }
  }

  /** All nodes at one depth have the extent of that dimension. */
  predicate AllEqual(counts: seq<nat>, n: nat) {
    forall k :: 0 <= k < |counts| ==> counts[k] == n
  }

  lemma {:induction false} RectangularArity(v: Value, shape: seq<nat>, j: nat)
    requires Rectangular(v, shape) && Full(v) && j < |shape|
    ensures AllEqual(ArityAt(TreeOf(v), j), shape[j])
    decreases v, 0
  {
    KidsArity(v.items);
    if j > 0 {
      RectangularArities(v.items, shape[1..], j - 1);
    }
  }

  lemma {:induction false} RectangularArities(items: seq<Value>, shape: seq<nat>, j: nat)
    requires items != [] && j < |shape|
    requires forall k :: 0 <= k < |items| ==> Rectangular(items[k], shape) && Full(items[k])
    ensures AllEqual(KidsArityAt(KidsOf(items), j), shape[j])
    decreases items, 1
  {
    RectangularArity(items[0], shape, j);
    if |items| > 1 {
      RectangularArities(items[1..], shape, j);
    }
  }

  lemma {:induction false} KidsArity(items: seq<Value>)
    requires items != [] && forall k :: 0 <= k < |items| ==> Full(items[k])
    ensures Arity(KidsOf(items)) == |items|
  {
    if |items| > 1 {
      KidsArity(items[1..]);
    }
  }

  lemma {:induction false} RectangularCount(v: Value, shape: seq<nat>, del: seq<byte>)
    requires Rectangular(v, shape) && Printable(v, del)
    ensures |Flatten(v)| == Product(shape)
    decreases v, 0
  {
    if v.List? {
      RectangularCounts(v.items, shape[1..], del);
    }
  }

  lemma {:induction false} RectangularCounts(items: seq<Value>, shape: seq<nat>, del: seq<byte>)
    requires forall k :: 0 <= k < |items| ==> Rectangular(items[k], shape) && Printable(items[k], del)
    ensures |FlattenAll(items)| == |items| * Product(shape)
    decreases items, 1
  {
    hide Product, Rectangular, Printable, Flatten;
    if items != [] {
      RectangularCount(items[0], shape, del);
      RectangularCounts(items[1..], shape, del);
      OneMore(|items| - 1, Product(shape));
    } else {
      assert 0 * Product(shape) == 0;
    }
  }

  lemma OneMore(n: nat, m: nat)
    ensures (n + 1) * m == n * m + m
  {
  }

  lemma FactorOut(a: nat, q: nat, d: nat)
    ensures a * (q * d) == (a * q) * d
  {
  }

  lemma {:induction false} ExtentsDivide(shape: seq<nat>, j: nat)
    requires Positive(shape) && j < |shape|
    ensures Product(shape) % shape[j] == 0
  {
    var first, rest, d := shape[0], Product(shape[1..]), shape[j];
    if j == 0 {
      assert Product(shape) == rest * d;
      MultipleDivides(rest, d);
    } else {
      ExtentsDivide(shape[1..], j - 1);
      var q := rest / d;
      assert rest == q * d;
      FactorOut(first, q, d);
      MultipleDivides(first * q, d);
    }
  }

  lemma MultipleDivides(q: nat, d: nat)
    requires d >= 1
    ensures (q * d) % d == 0
  {
    SmallMultiple(q - (q * d) / d, d, (q * d) % d);
  }

  lemma SmallMultiple(k: int, d: nat, r: nat)
    requires k * d == r < d
    ensures r == 0
  {
    if k >= 1 {
      assert k * d == d + (k - 1) * d;
    }
  }

  // ----- round trips -----

  /** Printing and parsing a nested array of whatever form, as long as no slice inside is
      empty: it succeeds exactly when the first leaf is among the deepest and the last sizes
      divide the number of leaves, and then gives the leaves in order. */
  lemma FullRoundTrip(items: seq<Value>, del: seq<byte>)
    requires GoodDelimiter(del) && items != []
    requires Full(List(items)) && Printable(List(items), del)
    ensures PrintList(items).Some?
    ensures var t, r := TreeOf(List(items)), Parse(PrintList(items).value.text, del);
            && (r.Ok? <==> Parsable(t))
            && (r.Ok? ==> r.value.elems == Flatten(List(items)) && DimsOf(t, r.value.dims))
  {
    hide Parse, Spined, DimsOf, AllDivide, Flatten;
    var v := List(items);
    var t := TreeOf(v);
    ListIsText(items, del);
    ShowParses(t, del);
    if dims :| Spined(t) && DimsOf(t, dims) && AllDivide(dims, |Leaves(t)|) {
      TextParses(Show(t, del), del, t, dims);
    }
  }

  lemma ListIsText(items: seq<Value>, del: seq<byte>)
    requires |del| >= 1 && CLOSE !in del && items != []
    requires Full(List(items)) && Printable(List(items), del)
    ensures var t := TreeOf(List(items));
            && PrintList(items).Some? && PrintList(items).value.text == Show(t, del)
            && TreeOk(t, del, []) && Leaves(t) == Flatten(List(items))
  {
    hide KidsOk, PrintItems;
    PrintsAreShow(items, del, [CLOSE] + []);
  }

  /** Parsing a printed rectangular array gives its extents and its leaves in order, if and
      only if no extent is zero. */
  lemma NestedRoundTrip(items: seq<Value>, del: seq<byte>, shape: seq<nat>)
    requires |del| >= 1 && CLOSE !in del && items != []
    requires Rectangular(List(items), shape) && Printable(List(items), del)
    ensures PrintList(items).Some?
    ensures Parse(PrintList(items).value.text, del) == Ok(Parsed(shape, Flatten(List(items)))) <==> Positive(shape)
  {
    hide Parse, Flatten;
    var v := List(items);
    PrintableSucceeds(v, del);
    var text := PrintList(items).value.text;
    if Positive(shape) {
      RectangularTree(v, shape);
      var t := TreeOf(v);
      ListIsText(items, del);
      forall j | 0 <= j < |shape|
        ensures ArityAt(t, j) != [] && shape[j] == LastArity(t, j) && Product(shape) % shape[j] == 0
      {
        RectangularArity(v, shape, j);
        SpineHasArity(t, j);
        ExtentsDivide(shape, j);
      }
      RectangularCount(v, shape, del);
      TextParses(text, del, t, shape);
    } else if Parse(text, del).Ok? {
      DimsDivide(text, del);
    }
  }

  lemma {:induction false} PrintableSucceeds(v: Value, del: seq<byte>)
    requires Printable(v, del)
    ensures Print(v).Some?
    decreases v, 0
  {
    if v.List? && v.items != [] {
      PrintablesSucceed(v.items, del);
    }
  }

  lemma {:induction false} PrintablesSucceed(items: seq<Value>, del: seq<byte>)
    requires items != [] && forall k :: 0 <= k < |items| ==> Printable(items[k], del)
    ensures PrintItems(items).Some?
    decreases items, 1
  {
    PrintableSucceeds(items[0], del);
    if |items| > 1 {
      PrintablesSucceed(items[1..], del);
    }
  }

  /** Why the extents must be positive: an empty slice that another item follows leaves no trace,
      not even a delimiter, in the printed array. */
  lemma {:induction false} EmptySliceVanishes(before: seq<Value>, rest: seq<Value>)
    requires rest != []
    ensures PrintItems(before + [List([])] + rest) == PrintItems(before + rest)
  {
    var items := before + [List([])] + rest;
    if before == [] {
      assert items[1..] == rest && before + rest == rest;
      assert Print(List([])) == Some(Printed([], []));
      assert PrintItems(items) == Joined(Printed([], []), PrintItems(rest));
      if PrintItems(rest).Some? {
        assert [] + [] + PrintItems(rest).value.text == PrintItems(rest).value.text;
      }
    } else {
      EmptySliceVanishes(before[1..], rest);
      assert items[1..] == before[1..] + [List([])] + rest;
      assert (before + rest)[1..] == before[1..] + rest;
    }
  }
}
