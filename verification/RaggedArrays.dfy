/** Which accepted texts are rectangular arrays. The parser asks only that the size of the last
    node at each depth divides the number of elements; this says what that lets through. */
module RaggedArrays {
  import opened Bytes
  import opened ArrayParser
  import opened ArrayGrammar
  import opened ArrayLanguage
  import opened LinearArrays
  import opened NestedArrays

  // ----- rectangular trees -----

  /** Every node at depth j has dims[j] entries, and every leaf lies at depth |dims|. */
  predicate Regular(t: Tree, dims: seq<nat>)
    decreases t, 0
  {
    match t
    case Leaf(_) => dims == []
    case Gap => false
    case Node(kids) => dims != [] && Arity(kids) == dims[0] && KidsRegular(kids, dims[1..])
  }

  predicate KidsRegular(kids: Kids, dims: seq<nat>)
    decreases kids, 1
  {
    match kids
    case Last(t) => Regular(t, dims)
    case More(t, rest) => Regular(t, dims) && KidsRegular(rest, dims)
  }

  /** Every leaf lies at depth room, and no entry is missing. */
  predicate Deep(t: Tree, room: nat)
    decreases t, 0
  {
    match t
    case Leaf(_) => room == 0
    case Gap => false
    case Node(kids) => room > 0 && KidsDeep(kids, room - 1)
  }

  predicate KidsDeep(kids: Kids, room: nat)
    decreases kids, 1
  {
    match kids
    case Last(t) => Deep(t, room)
    case More(t, rest) => Deep(t, room) && KidsDeep(rest, room)
  }

  /** Some node has another size than the last one at its depth. */
  ghost predicate Uneven(t: Tree, dims: seq<nat>) {
    exists j, k :: 0 <= j < |dims| && 0 <= k < |ArityAt(t, j)| && ArityAt(t, j)[k] != dims[j]
  }

  predicate EvenAt(t: Tree, dims: seq<nat>, j: nat) {
    j < |dims| && AllEqual(ArityAt(t, j), dims[j])
  }

  lemma {:induction false} RegularIsEven(t: Tree, dims: seq<nat>, j: nat)
    requires Regular(t, dims) && j < |dims|
    ensures EvenAt(t, dims, j)
    decreases t, 0
  {
    if j > 0 {
      KidsRegularAreEven(t.kids, dims[1..], j - 1);
    }
  }

  lemma {:induction false} KidsRegularAreEven(kids: Kids, dims: seq<nat>, j: nat)
    requires KidsRegular(kids, dims) && j < |dims|
    ensures AllEqual(KidsArityAt(kids, j), dims[j])
    decreases kids, 1
  {
    RegularIsEven(kids.kid, dims, j);
    if kids.More? {
      KidsRegularAreEven(kids.rest, dims, j);
    }
  }

  /** A rectangular tree has as many leaves as its extents multiply to, all equally deep. */
  lemma {:induction false} RegularShape(t: Tree, dims: seq<nat>)
    requires Regular(t, dims)
    ensures Deep(t, |dims|) && Spine(t) == |dims| && Positive(dims) && |Leaves(t)| == Product(dims)
    decreases t, 0
  {
    if t.Node? {
      KidsRegularShape(t.kids, dims[1..]);
      assert dims == [dims[0]] + dims[1..];
    }
  }

  lemma {:induction false} KidsRegularShape(kids: Kids, dims: seq<nat>)
    requires KidsRegular(kids, dims)
    ensures KidsDeep(kids, |dims|) && Spine(kids.kid) == |dims| && Positive(dims)
    ensures |KidsLeaves(kids)| == Arity(kids) * Product(dims)
    decreases kids, 1
  {
    hide Product;
    RegularShape(kids.kid, dims);
    if kids.More? {
      KidsRegularShape(kids.rest, dims);
      OneMore(Arity(kids.rest), Product(dims));
    }
  }

  lemma {:induction false} EvenIsRegular(t: Tree, dims: seq<nat>)
    requires Deep(t, |dims|) && forall j :: 0 <= j < |dims| ==> EvenAt(t, dims, j)
    ensures Regular(t, dims)
    decreases t, 0
  {
    if t.Node? {
      assert EvenAt(t, dims, 0) && ArityAt(t, 0)[0] == Arity(t.kids);
      forall j | 0 <= j < |dims| - 1 ensures AllEqual(KidsArityAt(t.kids, j), dims[1..][j]) {
        assert EvenAt(t, dims, j + 1);
      }
      EvenKidsAreRegular(t.kids, dims[1..]);
    }
  }

  lemma {:induction false} EvenKidsAreRegular(kids: Kids, dims: seq<nat>)
    requires KidsDeep(kids, |dims|) && forall j :: 0 <= j < |dims| ==> AllEqual(KidsArityAt(kids, j), dims[j])
    ensures KidsRegular(kids, dims)
    decreases kids, 1
  {
    forall j | 0 <= j < |dims| ensures EvenAt(kids.kid, dims, j) {
      var first, all := ArityAt(kids.kid, j), KidsArityAt(kids, j);
      assert AllEqual(all, dims[j]);
      assert forall k :: 0 <= k < |first| ==> first[k] == all[k];
    }
    EvenIsRegular(kids.kid, dims);
    if kids.More? {
      forall j | 0 <= j < |dims| ensures AllEqual(KidsArityAt(kids.rest, j), dims[j]) {
        var n, rest, all := |ArityAt(kids.kid, j)|, KidsArityAt(kids.rest, j), KidsArityAt(kids, j);
        assert AllEqual(all, dims[j]);
        assert forall k :: 0 <= k < |rest| ==> rest[k] == all[n + k];
      }
      EvenKidsAreRegular(kids.rest, dims);
    }
  }

  /** Being rectangular is being equally deep and even. */
  lemma RegularExact(t: Tree, dims: seq<nat>)
    ensures Regular(t, dims) <==> Deep(t, |dims|) && !Uneven(t, dims)
  {
    if Regular(t, dims) {
      RegularShape(t, dims);
      forall j, k | 0 <= j < |dims| && 0 <= k < |ArityAt(t, j)| ensures ArityAt(t, j)[k] == dims[j] {
        RegularIsEven(t, dims, j);
      }
    }
    if Deep(t, |dims|) && !Uneven(t, dims) {
      assert forall j :: 0 <= j < |dims| ==> EvenAt(t, dims, j);
      EvenIsRegular(t, dims);
    }
  }

  // ----- what the division check lets through -----

  /** A rectangular tree passes the check. */
  lemma RegularDivides(t: Tree, dims: seq<nat>)
    requires Regular(t, dims)
    ensures AllDivide(dims, |Leaves(t)|)
  {
    RegularShape(t, dims);
    forall j | 0 <= j < |dims| ensures dims[j] >= 1 && |Leaves(t)| % dims[j] == 0 {
      ExtentsDivide(dims, j);
    }
  }

  /** A tree has at most one shape, which can only be the sizes of its last nodes. */
  lemma OneShape(t: Tree, dims: seq<nat>, shape: seq<nat>)
    requires DimsOf(t, dims) && Regular(t, shape)
    ensures shape == dims
  {
    RegularShape(t, shape);
    forall j | 0 <= j < |dims| ensures shape[j] == dims[j] {
      RegularIsEven(t, shape, j);
    }
  }

  /** For every text of a tree: a rectangular one is always accepted with its extents, and exactly
      when one is accepted that is not rectangular: the last sizes divide the number of leaves,
      but some leaf is not as deep as the first one, or some entry is missing, or some node has
      another size than the last at its depth. */
  lemma AcceptedThoughRagged(src: seq<byte>, del: seq<byte>, t: Tree, dims: seq<nat>)
    requires |del| >= 1 && IsTextOf(src, del, t) && DimsOf(t, dims)
    ensures Regular(t, dims) ==> Parse(src, del) == Ok(Parsed(dims, Leaves(t)))
    ensures Parse(src, del).Ok? && (forall shape :: !Regular(t, shape)) <==>
              AllDivide(dims, |Leaves(t)|) && (!Deep(t, |dims|) || Uneven(t, dims))
  {
    hide Parse, IsTextOf, DimsOf, AllDivide, Regular, Deep, Uneven;
    TextParses(src, del, t, dims);
    RegularExact(t, dims);
    if Regular(t, dims) {
      RegularDivides(t, dims);
    }
    forall shape | Regular(t, shape) ensures Regular(t, dims) {
      OneShape(t, dims, shape);
    }
  }

  /** In one dimension this never happens: what is accepted is rectangular. */
  lemma NeverInOneDimension(src: seq<byte>, del: seq<byte>, t: Tree, dims: seq<nat>)
    requires |del| >= 1 && IsTextOf(src, del, t) && DimsOf(t, dims) && |dims| <= 1
    ensures Parse(src, del).Ok? <==> Regular(t, dims)
  {
    hide Parse;
    TextParses(src, del, t, dims);
    if Regular(t, dims) {
      RegularDivides(t, dims);
    }
    if Parse(src, del).Ok? {
      LinearCount(src, del);
      assert KidsLevels(t.kids, 0) && ArityAt(t, 0) == [Arity(t.kids)];
      var tokens := FlatKidsAreRow(t.kids);
      RowIsRegular(tokens);
      assert dims[1..] == [];
    }
  }

  lemma {:induction false} RowIsRegular(tokens: seq<Token>)
    requires tokens != []
    ensures KidsRegular(RowKids(tokens), [])
  {
    if |tokens| > 1 {
      RowIsRegular(tokens[1..]);
    }
  }

  // ----- examples -----

  predicate Digit(b: byte) {
    0x30 <= b <= 0x39
  }

  /** All leaves are single digits. */
  predicate Digital(t: Tree)
    decreases t, 0
  {
    match t
    case Leaf(token) => token.BareToken? && |token.text| == 1 && Digit(token.text[0])
    case Gap => false
    case Node(kids) => KidsDigital(kids)
  }

  predicate KidsDigital(kids: Kids)
    decreases kids, 1
  {
    match kids
    case Last(t) => Digital(t)
    case More(t, rest) => Digital(t) && KidsDigital(rest)
  }

  lemma {:induction false} DigitalOk(t: Tree, after: seq<byte>)
    requires Digital(t)
    ensures TreeOk(t, [COMMA], after)
    decreases t, 0
  {
    match t {
      case Leaf(token) => assert (token.text + after)[0] == token.text[0];
      case Node(kids) => KidsDigitalOk(kids, [CLOSE] + after);
    }
  }

  lemma {:induction false} KidsDigitalOk(kids: Kids, after: seq<byte>)
    requires KidsDigital(kids) && after != [] && after[0] == CLOSE
    ensures KidsOk(kids, [COMMA], after)
    decreases kids, 1
  {
    match kids {
      case Last(t) => DigitalOk(t, after);
      case More(t, rest) =>
        DigitalOk(t, [COMMA] + ShowKids(rest, [COMMA]) + after);
        KidsDigitalOk(rest, after);
    }
  }

  function DigitLeaf(b: byte): Tree {
    Leaf(BareToken([b]))
  }

  predicate DigitRow(ds: seq<byte>) {
    ds != [] && forall k :: 0 <= k < |ds| ==> Digit(ds[k])
  }

  function DigitKids(ds: seq<byte>): Kids
    requires ds != []
  {
    if |ds| == 1 then Last(DigitLeaf(ds[0])) else More(DigitLeaf(ds[0]), DigitKids(ds[1..]))
  }

  /** The digits with commas between them. */
  function Commas(ds: seq<byte>): seq<byte> {
    if |ds| <= 1 then ds else [ds[0], COMMA] + Commas(ds[1..])
  }

  function Texts(ds: seq<byte>): (es: seq<Elem>)
    ensures |es| == |ds| && forall k :: 0 <= k < |es| ==> es[k] == Text([ds[k]])
  {
    seq(|ds|, k requires 0 <= k < |ds| => Text([ds[k]]))
  }

  lemma {:induction false} DigitsAre(ds: seq<byte>)
    requires DigitRow(ds)
    ensures var kids := DigitKids(ds);
            && KidsDigital(kids) && Arity(kids) == |ds| && KidsLeaves(kids) == Texts(ds)
            && KidsLevels(kids, 0) && KidsDeep(kids, 0) && kids.kid.Leaf?
  {
    if |ds| > 1 {
      DigitsAre(ds[1..]);
      assert Texts(ds) == [Text([ds[0]])] + Texts(ds[1..]);
    }
  }

  lemma {:induction false} DigitsShow(ds: seq<byte>)
    requires ds != []
    ensures ShowKids(DigitKids(ds), [COMMA]) == Commas(ds)
  {
    assert Show(DigitLeaf(ds[0]), [COMMA]) == [ds[0]];
    if |ds| > 1 {
      DigitsShow(ds[1..]);
      assert [ds[0]] + [COMMA] == [ds[0], COMMA];
    }
  }

  /** A list of lists of digits. */
  predicate AllRows(rows: seq<seq<byte>>) {
    rows != [] && forall k :: 0 <= k < |rows| ==> DigitRow(rows[k])
  }

  function Rows(rows: seq<seq<byte>>): Kids
    requires AllRows(rows)
  {
    if |rows| == 1 then Last(Node(DigitKids(rows[0]))) else More(Node(DigitKids(rows[0])), Rows(rows[1..]))
  }

  function RowsInside(rows: seq<seq<byte>>): seq<byte> {
    if rows == [] then []
    else if |rows| == 1 then [OPEN] + Commas(rows[0]) + [CLOSE]
    else [OPEN] + Commas(rows[0]) + [CLOSE, COMMA] + RowsInside(rows[1..])
  }

  function RowsText(rows: seq<seq<byte>>): seq<byte> {
    [OPEN] + RowsInside(rows) + [CLOSE]
  }

  function Concat(rows: seq<seq<byte>>): seq<byte> {
    if rows == [] then [] else rows[0] + Concat(rows[1..])
  }

  function Sizes(rows: seq<seq<byte>>): (sizes: seq<nat>)
    ensures |sizes| == |rows| && forall k :: 0 <= k < |rows| ==> sizes[k] == |rows[k]|
  {
    seq(|rows|, k requires 0 <= k < |rows| => |rows[k]|)
  }

  lemma {:induction false} RowsAre(rows: seq<seq<byte>>)
    requires AllRows(rows)
    ensures var kids := Rows(rows);
            && KidsDigital(kids) && Arity(kids) == |rows| && KidsLeaves(kids) == Texts(Concat(rows))
            && KidsLevels(kids, 1) && KidsDeep(kids, 1) && Spine(kids.kid) == 1 && FirstSolid(kids.kid)
            && KidsArityAt(kids, 0) == Sizes(rows) && ShowKids(kids, [COMMA]) == RowsInside(rows)
  {
    hide Commas, Texts;
    var kids, digits := Rows(rows), DigitKids(rows[0]);
    DigitsAre(rows[0]);
    DigitsShow(rows[0]);
    assert ArityAt(Node(digits), 0) == [|rows[0]|];
    if |rows| == 1 {
      assert Concat(rows[1..]) == [];
      assert Concat(rows) == rows[0] && Sizes(rows) == [|rows[0]|];
    } else {
      RowsAre(rows[1..]);
      assert Texts(Concat(rows)) == Texts(rows[0]) + Texts(Concat(rows[1..]));
      assert Sizes(rows) == [|rows[0]|] + Sizes(rows[1..]);
      var inside := RowsInside(rows[1..]);
      assert [OPEN] + Commas(rows[0]) + [CLOSE] + [COMMA] + inside == [OPEN] + Commas(rows[0]) + [CLOSE, COMMA] + inside;
    }
  }

  /** Exactly which lists of lists are accepted: those whose number of rows and size of the last row
      divide the number of digits; and which are rectangular: those whose rows are all as long. */
  lemma RowsParse(rows: seq<seq<byte>>)
    requires AllRows(rows)
    ensures var dims, elems := [|rows|, |rows[|rows| - 1]|], Texts(Concat(rows));
            && Parse(RowsText(rows), [COMMA]) == (if AllDivide(dims, |elems|) then Ok(Parsed(dims, elems)) else Err(Ragged))
            && IsTextOf(RowsText(rows), [COMMA], Node(Rows(rows)))
            && (Regular(Node(Rows(rows)), dims) <==> AllEqual(Sizes(rows), |rows[0]|))
            && ((exists shape :: Regular(Node(Rows(rows)), shape)) <==> AllEqual(Sizes(rows), |rows[0]|))
  {
    hide Parse, Texts, Concat, RowsInside, Rows, TreeOk;
    var dims, t := [|rows|, |rows[|rows| - 1]|], Node(Rows(rows));
    RowsAre(rows);
    DigitalOk(t, []);
    assert ArityAt(t, 0) == [|rows|] && ArityAt(t, 1) == Sizes(rows);
    assert DimsOf(t, dims);
    TextParses(RowsText(rows), [COMMA], t, dims);
    RegularExact(t, dims);
    assert Uneven(t, dims) <==> !AllEqual(Sizes(rows), |rows[0]|);
    if shape :| Regular(t, shape) {
      OneShape(t, dims, shape);
    }
  }

  lemma ConsRows(first: seq<byte>, rest: seq<seq<byte>>)
    requires rest != []
    ensures Concat([first] + rest) == first + Concat(rest)
    ensures RowsInside([first] + rest) == [OPEN] + Commas(first) + [CLOSE, COMMA] + RowsInside(rest)
  {
    assert ([first] + rest)[1..] == rest;
  }

  lemma LastRow(last: seq<byte>)
    ensures Concat([last]) == last
    ensures RowsInside([last]) == [OPEN] + Commas(last) + [CLOSE]
  {
    assert Concat([last]) == last + Concat([]) == last;
  }

  lemma CommasOf(a: byte, b: byte, c: byte)
    ensures Commas([a]) == [a] && Commas([a, b]) == [a, COMMA, b] && Commas([a, b, c]) == [a, COMMA, b, COMMA, c]
  {
    assert [a, b][1..] == [b] && [a, b, c][1..] == [b, c] && [b, c][1..] == [c];
    assert Commas([b, c]) == [b, COMMA, c];
  }

  const FIRST: seq<byte> := [0x31, 0x32, 0x33]
  const SECOND: seq<byte> := [0x34]
  const THIRD: seq<byte> := [0x35, 0x36]

  lemma TwoRowsText()
    ensures RowsText([FIRST, SECOND]) ==
            [OPEN, OPEN, 0x31, COMMA, 0x32, COMMA, 0x33, CLOSE, COMMA, OPEN, 0x34, CLOSE, CLOSE]
    ensures Concat([FIRST, SECOND]) == [0x31, 0x32, 0x33, 0x34]
  {
    CommasOf(0x31, 0x32, 0x33);
    CommasOf(0x34, 0x34, 0x34);
    LastRow(SECOND);
    ConsRows(FIRST, [SECOND]);
    assert [FIRST] + [SECOND] == [FIRST, SECOND];
    hide Commas, RowsInside;
  }

  lemma ThreeRowsText()
    ensures RowsText([FIRST, SECOND, THIRD]) ==
            [OPEN, OPEN, 0x31, COMMA, 0x32, COMMA, 0x33, CLOSE, COMMA, OPEN, 0x34, CLOSE, COMMA,
             OPEN, 0x35, COMMA, 0x36, CLOSE, CLOSE]
    ensures Concat([FIRST, SECOND, THIRD]) == [0x31, 0x32, 0x33, 0x34, 0x35, 0x36]
  {
    hide Commas, RowsInside, Concat;
    ConsRows(FIRST, [SECOND, THIRD]);
    assert [FIRST] + [SECOND, THIRD] == [FIRST, SECOND, THIRD];
    CommasOf(0x31, 0x32, 0x33);
    LastTwoRows();
  }

  lemma LastTwoRows()
    ensures RowsInside([SECOND, THIRD]) == [OPEN, 0x34, CLOSE, COMMA, OPEN, 0x35, COMMA, 0x36, CLOSE]
    ensures Concat([SECOND, THIRD]) == [0x34, 0x35, 0x36]
  {
    hide Commas, RowsInside, Concat;
    LastRow(THIRD);
    ConsRows(SECOND, [THIRD]);
    assert [SECOND] + [THIRD] == [SECOND, THIRD];
    CommasOf(0x34, 0x34, 0x34);
    CommasOf(0x35, 0x36, 0x36);
  }

  /** {{1,2,3},{4}} is accepted with extents 2 and 1. */
  lemma LastRowShort()
    ensures var src := [OPEN, OPEN, 0x31, COMMA, 0x32, COMMA, 0x33, CLOSE, COMMA, OPEN, 0x34, CLOSE, CLOSE];
            && src == RowsText([FIRST, SECOND])
            && Parse(src, [COMMA]) == Ok(Parsed([2, 1], Texts([0x31, 0x32, 0x33, 0x34])))
            && forall shape :: !Regular(Node(Rows([FIRST, SECOND])), shape)
  {
    hide Parse, Rows, RowsText, Concat;
    TwoRowsText();
    RowsParse([FIRST, SECOND]);
    assert Sizes([FIRST, SECOND])[1] == 1;
  }

  /** {{1,2,3},{4},{5,6}} is accepted with extents 3 and 2, whose product is even the number of
      elements. */
  lemma ProductAgrees()
    ensures var src := [OPEN, OPEN, 0x31, COMMA, 0x32, COMMA, 0x33, CLOSE, COMMA, OPEN, 0x34, CLOSE, COMMA,
                        OPEN, 0x35, COMMA, 0x36, CLOSE, CLOSE];
            && src == RowsText([FIRST, SECOND, THIRD])
            && Parse(src, [COMMA]) == Ok(Parsed([3, 2], Texts([0x31, 0x32, 0x33, 0x34, 0x35, 0x36])))
            && forall shape :: !Regular(Node(Rows([FIRST, SECOND, THIRD])), shape)
  {
    hide Parse, Rows, RowsText, Concat;
    ThreeRowsText();
    RowsParse([FIRST, SECOND, THIRD]);
    assert Sizes([FIRST, SECOND, THIRD])[1] == 1;
  }

  function Mixed(): Tree {
    Node(More(Node(Last(DigitLeaf(0x31))), Last(DigitLeaf(0x31))))
  }

  lemma MixedMeaning()
    ensures var t := Mixed();
            && Leaves(t) == Texts([0x31, 0x31]) && DimsOf(t, [2, 1]) && Spined(t) && !Deep(t, 2)
  {
    var t, one := Mixed(), Node(Last(DigitLeaf(0x31)));
    assert KidsLeaves(t.kids.rest) == Texts([0x31]) && Leaves(one) == Texts([0x31]);
    assert ArityAt(t, 0) == [2] && ArityAt(one, 0) == [1] && ArityAt(t, 1) == [1];
    assert Levels(one, 1) && KidsLevels(t.kids, 1);
    assert !KidsDeep(t.kids.rest, 1) && !KidsDeep(t.kids, 1);
  }

  lemma MixedText()
    ensures Mixed().Node? && Show(Mixed(), [COMMA]) == [OPEN, OPEN, 0x31, CLOSE, COMMA, 0x31, CLOSE]
    ensures TreeOk(Mixed(), [COMMA], [])
  {
    var t, one := Mixed(), Node(Last(DigitLeaf(0x31)));
    assert Show(DigitLeaf(0x31), [COMMA]) == [0x31] && [OPEN] + [0x31] + [CLOSE] == [OPEN, 0x31, CLOSE];
    assert Show(one, [COMMA]) == [OPEN, 0x31, CLOSE];
    assert ShowKids(t.kids, [COMMA]) == [OPEN, 0x31, CLOSE, COMMA, 0x31];
    DigitalOk(t, []);
  }

  /** {{1},1} is accepted with extents 2 and 1, although its second element is no array. */
  lemma MixedDepths()
    ensures var src := [OPEN, OPEN, 0x31, CLOSE, COMMA, 0x31, CLOSE];
            && IsTextOf(src, [COMMA], Mixed()) && Parse(src, [COMMA]) == Ok(Parsed([2, 1], Texts([0x31, 0x31])))
            && forall shape :: !Regular(Mixed(), shape)
  {
    hide Parse, TreeOk, Mixed, Show, Leaves, DimsOf, Spined, Deep, Regular;
    var src := [OPEN, OPEN, 0x31, CLOSE, COMMA, 0x31, CLOSE];
    MixedMeaning();
    MixedText();
    TextParses(src, [COMMA], Mixed(), [2, 1]);
    AcceptedThoughRagged(src, [COMMA], Mixed(), [2, 1]);
  }
}
