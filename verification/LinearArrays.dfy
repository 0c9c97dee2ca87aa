/** One-dimensional arrays: the exact language of scanLinearArray, and the agreement of the
    dimension with the number of elements. */
module LinearArrays {
  import opened Bytes
  import opened ArrayParser
  import opened ArrayGrammar
  import opened ArrayLanguage

  // ----- texts of one dimension -----

  function Join(tokens: seq<Token>, del: seq<byte>): seq<byte> {
    if tokens == [] then []
    else if |tokens| == 1 then ShowToken(tokens[0])
    else ShowToken(tokens[0]) + del + Join(tokens[1..], del)
  }

  function Row(tokens: seq<Token>, del: seq<byte>): seq<byte> {
    [OPEN] + Join(tokens, del) + [CLOSE]
  }

  function TokenElems(tokens: seq<Token>): (es: seq<Elem>)
    ensures |es| == |tokens|
    ensures forall k :: 0 <= k < |es| ==> es[k] == TokenElem(tokens[k])
  {
    seq(|tokens|, k requires 0 <= k < |tokens| => TokenElem(tokens[k]))
  }

  predicate TokensOk(tokens: seq<Token>, del: seq<byte>) {
    forall k :: 0 <= k < |tokens| ==> TokenOk(tokens[k], del, if k == |tokens| - 1 then [CLOSE] else del)
  }

  /** The grammar of one-dimensional arrays: only braces, or, unless the delimiter is the closing
      brace, a list of quoted and unquoted items. */
  ghost predicate LinearDenotes(src: seq<byte>, del: seq<byte>, elems: seq<Elem>) {
    || (elems == [] && exists k: nat :: k >= 1 && src == Empty(k))
    || (del != [CLOSE] &&
        exists tokens: seq<Token> ::
          tokens != [] && TokensOk(tokens, del) && src == Row(tokens, del) && elems == TokenElems(tokens))
  }

  // ----- rows of tokens are trees of one level -----

  function RowKids(tokens: seq<Token>): (kids: Kids)
    requires tokens != []
    ensures KidsLevels(kids, 0) && kids.kid.Leaf? && Arity(kids) == |tokens|
  {
    if |tokens| == 1 then Last(Leaf(tokens[0])) else More(Leaf(tokens[0]), RowKids(tokens[1..]))
  }

  lemma {:induction false} RowKidsAre(tokens: seq<Token>, del: seq<byte>)
    requires tokens != []
    ensures ShowKids(RowKids(tokens), del) == Join(tokens, del)
    ensures KidsLeaves(RowKids(tokens)) == TokenElems(tokens)
  {
    hide TokenOk, ShowToken, TokenElem;
    if |tokens| > 1 {
      RowKidsAre(tokens[1..], del);
      assert TokenElems(tokens) == [TokenElem(tokens[0])] + TokenElems(tokens[1..]);
    } else {
      assert TokenElems(tokens) == [TokenElem(tokens[0])];
    }
  }

  /** What a token may contain depends on no more of the text than the next delimiter. */
  lemma DelimiterSuffices(token: Token, del: seq<byte>, more: seq<byte>)
    requires |del| >= 1
    ensures TokenOk(token, del, del + more) <==> TokenOk(token, del, del)
  {
    if token.BareToken? {
      var text := token.text;
      forall j | 0 <= j < |text| ensures del <= (text + (del + more))[j..] <==> del <= (text + del)[j..] {
        assert (text + (del + more))[j..][..|del|] == (text + del)[j..][..|del|];
      }
    }
  }

  lemma {:induction false} RowKidsOk(tokens: seq<Token>, del: seq<byte>)
    requires |del| >= 1 && tokens != []
    ensures KidsOk(RowKids(tokens), del, [CLOSE]) <==> TokensOk(tokens, del) && del != [CLOSE]
  {
    hide TokenOk;
    if |tokens| > 1 {
      var tail := tokens[1..];
      RowKidsOk(tail, del);
      var more := ShowKids(RowKids(tail), del) + [CLOSE];
      DelimiterSuffices(tokens[0], del, more);
      assert del + ShowKids(RowKids(tail), del) + [CLOSE] == del + more;
      assert forall k :: 0 < k < |tokens| ==> tokens[k] == tail[k - 1];
      assert forall k :: 0 <= k < |tail| ==> tail[k] == tokens[k + 1];
    } else {
      assert del <= [CLOSE] <==> del == [CLOSE];
    }
  }

  lemma {:induction false} LeavesAtMostArity(kids: Kids)
    requires KidsLevels(kids, 0)
    ensures |KidsLeaves(kids)| <= Arity(kids)
  {
    if kids.More? {
      LeavesAtMostArity(kids.rest);
    }
  }

  /** One level of nodes with as many leaves as entries is a row. */
  lemma {:induction false} FlatKidsAreRow(kids: Kids) returns (tokens: seq<Token>)
    requires KidsLevels(kids, 0) && |KidsLeaves(kids)| == Arity(kids)
    ensures tokens != [] && kids == RowKids(tokens)
  {
    match kids {
      case Last(t) =>
        tokens := [t.token];
      case More(t, rest) =>
        LeavesAtMostArity(rest);
        var tail := FlatKidsAreRow(rest);
        tokens := [t.token] + tail;
        assert tokens[1..] == tail;
    }
  }

  /** A row of tokens parses to their values: nothing can go wrong with one dimension. */
  lemma RowParses(tokens: seq<Token>, del: seq<byte>)
    requires |del| >= 1 && del != [CLOSE] && tokens != [] && TokensOk(tokens, del)
    ensures Parse(Row(tokens, del), del) == Ok(Parsed([|tokens|], TokenElems(tokens)))
    ensures ScanLinear(Row(tokens, del), del) == Ok(TokenElems(tokens))
  {
    hide Parse, TokenOk, Join, RowKids, TokenElem;
    RowKidsAre(tokens, del);
    RowKidsOk(tokens, del);
    var t := Node(RowKids(tokens));
    assert ArityAt(t, 0) == [|tokens|];
    assert Spine(t) == 1;
    assert [CLOSE] + [] == [CLOSE];
    assert TreeOk(t, del, []) && FirstSolid(t) && Levels(t, 1);
    TextParses(Row(tokens, del), del, t, [|tokens|]);
  }

  /** The exact language of scanLinearArray, for every delimiter. */
  lemma LinearExact(src: seq<byte>, del: seq<byte>, elems: seq<Elem>)
    requires |del| >= 1
    ensures ScanLinear(src, del) == Ok(elems) <==> LinearDenotes(src, del, elems)
  {
    hide Parse;
    if ScanLinear(src, del) == Ok(elems) {
      if ClosesAtOnce(src) {
        ParsesIsEmpty(src, del);
      } else {
        var t := ParsesIsText(src, del);
        LinearCount(src, del);
        assert KidsLevels(t.kids, 0) && ArityAt(t, 0) == [Arity(t.kids)];
        var tokens := FlatKidsAreRow(t.kids);
        RowKidsAre(tokens, del);
        RowKidsOk(tokens, del);
        assert [CLOSE] + [] == [CLOSE];
      }
    }
    if LinearDenotes(src, del, elems) {
      if k: nat :| elems == [] && k >= 1 && src == Empty(k) {
        EmptyParses(src, del, k);
      } else {
        var tokens :| tokens != [] && TokensOk(tokens, del) && src == Row(tokens, del) && elems == TokenElems(tokens);
        RowParses(tokens, del);
      }
    }
  }

  // ----- the dimension counts the elements, whatever the delimiter -----

  /** What the machine knows between elements when there is one dimension: a stray opening
      brace may have been counted as a delimiter, so elements can only be missing. */
  predicate Counting(depth: nat, dims: seq<nat>, elems: seq<Elem>) {
    && |dims| == 1 && depth <= 1
    && 1 <= |elems| <= dims[0] + depth
    && Counted(depth, dims)
  }

  lemma {:induction false} ElementCounts(s: seq<byte>, i: nat, del: seq<byte>, dims: seq<nat>, elems: seq<Elem>)
    requires |del| >= 1 && |dims| == 1 && |elems| <= dims[0]
    requires elems == [] ==> s == [] || s[0] != OPEN
    ensures var r := Element(s, i, del, 1, dims, elems);
            r.Ok? ==> |r.value.dims| == 1 && r.value.dims[0] == |r.value.elems|
    decreases |s|, 1
  {
    hide Element, Delims, ItemAt;
    ElementStep(s, i, del, 1, dims, elems);
    if s != [] && s[0] == OPEN {
      DelimsCount(s, i, del, 1, dims, elems);
    } else if s != [] && ItemAt(s, del).Read? {
      var item := ItemAt(s, del);
      DelimsCount(item.rest, i + (|s| - |item.rest|), del, 1, dims, elems + [item.elem]);
    }
  }

  lemma {:induction false} DelimsCount(s: seq<byte>, i: nat, del: seq<byte>, depth: nat, dims: seq<nat>, elems: seq<Elem>)
    requires |del| >= 1 && Counting(depth, dims, elems)
    ensures var r := Delims(s, i, del, depth, dims, elems);
            r.Ok? ==> |r.value.dims| == 1 && r.value.dims[0] == |r.value.elems|
    decreases |s|, 0
  {
    hide Element, Delims, ItemAt;
    DelimsStep(s, i, del, depth, dims, elems);
    if s == [] {
      if depth == 0 && |elems| % dims[0] == 0 {
        WholeMultiple(|elems|, dims[0]);
      }
    } else if depth > 0 {
      var counted := dims[depth - 1 := dims[depth - 1] + 1];
      if del <= s {
        ElementCounts(s[|del|..], i + |del|, del, counted, elems);
      } else if s[0] == CLOSE {
        DelimsCount(s[1..], i + 1, del, 0, counted, elems);
      }
    }
  }

  lemma WholeMultiple(n: nat, d: nat)
    requires 1 <= n <= d && n % d == 0
    ensures n == d
  {
  }

  /** Whenever the parser succeeds with at most one dimension, that dimension, or zero when
      there is none, is the number of elements. */
  lemma LinearCount(src: seq<byte>, del: seq<byte>)
    requires |del| >= 1
    requires Parse(src, del).Ok? && |Parse(src, del).value.dims| <= 1
    ensures var p := Parse(src, del).value;
            |p.elems| == if p.dims == [] then 0 else p.dims[0]
  {
    hide Element, Delims, ItemAt;
    var k := LeadingOpens(src);
    if ClosesAtOnce(src) {
      ParsesIsEmpty(src, del);
    } else {
      ElementDims(src[k..], k, del, k, Repeat(0, k), []);
      assert k == 1;
      ElementCounts(src[k..], k, del, Repeat(0, k), []);
    }
  }

  /** The number of dimensions never changes after the opening braces, and a result never has a
      dimension of zero: that is what keeps the final division defined. */
  lemma {:induction false} ElementDims(s: seq<byte>, i: nat, del: seq<byte>, depth: nat, dims: seq<nat>, elems: seq<Elem>)
    requires |del| >= 1 && Counted(depth, dims)
    ensures var r := Element(s, i, del, depth, dims, elems);
            r.Ok? ==> |r.value.dims| == |dims| && AllDivide(r.value.dims, |r.value.elems|)
    decreases |s|, 1
  {
    hide Element, Delims, ItemAt;
    ElementStep(s, i, del, depth, dims, elems);
    if s != [] {
      if s[0] == OPEN && depth == |dims| {
        DelimsDims(s, i, del, depth, dims, elems);
      } else if s[0] == OPEN {
        ElementDims(s[1..], i + 1, del, depth + 1, dims[depth := 0], elems);
      } else if ItemAt(s, del).Read? {
        var item := ItemAt(s, del);
        DelimsDims(item.rest, i + (|s| - |item.rest|), del, depth, dims, elems + [item.elem]);
      }
    }
  }

  lemma {:induction false} DelimsDims(s: seq<byte>, i: nat, del: seq<byte>, depth: nat, dims: seq<nat>, elems: seq<Elem>)
    requires |del| >= 1 && Counted(depth, dims)
    ensures var r := Delims(s, i, del, depth, dims, elems);
            r.Ok? ==> |r.value.dims| == |dims| && AllDivide(r.value.dims, |r.value.elems|)
    decreases |s|, 0
  {
    hide Element, Delims, ItemAt;
    DelimsStep(s, i, del, depth, dims, elems);
    if s != [] && depth > 0 {
      var counted := dims[depth - 1 := dims[depth - 1] + 1];
      if del <= s {
        ElementDims(s[|del|..], i + |del|, del, depth, counted, elems);
      } else if s[0] == CLOSE {
        DelimsDims(s[1..], i + 1, del, depth - 1, counted, elems);
      }
    }
  }

  /** Every dimension of every result is positive and divides the number of elements, whatever
      the delimiter. */
  lemma DimsDivide(src: seq<byte>, del: seq<byte>)
    requires |del| >= 1 && Parse(src, del).Ok?
    ensures AllDivide(Parse(src, del).value.dims, |Parse(src, del).value.elems|)
  {
    hide Element, Delims, ItemAt;
    var k := LeadingOpens(src);
    if ClosesAtOnce(src) {
      ParsesIsEmpty(src, del);
    } else {
      ElementDims(src[k..], k, del, k, Repeat(0, k), []);
    }
  }

  // ----- a delimiter that cannot work -----

  /** With the closing brace itself as delimiter no array with elements ever parses: every brace
      that should close is taken for a delimiter. */
  lemma BraceDelimiterNeverParses(src: seq<byte>)
    requires Parse(src, [CLOSE]).Ok?
    ensures Parse(src, [CLOSE]).value == Parsed([], []) && src == Empty(LeadingOpens(src))
  {
    hide Element, Delims, ItemAt;
    var k := LeadingOpens(src);
    if ClosesAtOnce(src) {
      ParsesIsEmpty(src, [CLOSE]);
    } else {
      BraceElementFails(src[k..], k, k, Repeat(0, k), []);
    }
  }

  lemma {:induction false} BraceElementFails(s: seq<byte>, i: nat, depth: nat, dims: seq<nat>, elems: seq<Elem>)
    requires depth >= 1 && Counted(depth, dims)
    ensures Element(s, i, [CLOSE], depth, dims, elems).Err?
    decreases |s|, 1
  {
    hide Element, Delims, ItemAt;
    ElementStep(s, i, [CLOSE], depth, dims, elems);
    if s != [] {
      if s[0] == OPEN && depth == |dims| {
        BraceDelimsFail(s, i, depth, dims, elems);
      } else if s[0] == OPEN {
        BraceElementFails(s[1..], i + 1, depth + 1, dims[depth := 0], elems);
      } else if ItemAt(s, [CLOSE]).Read? {
        var item := ItemAt(s, [CLOSE]);
        BraceDelimsFail(item.rest, i + (|s| - |item.rest|), depth, dims, elems + [item.elem]);
      }
    }
  }

  lemma {:induction false} BraceDelimsFail(s: seq<byte>, i: nat, depth: nat, dims: seq<nat>, elems: seq<Elem>)
    requires depth >= 1 && Counted(depth, dims)
    ensures Delims(s, i, [CLOSE], depth, dims, elems).Err?
    decreases |s|, 0
  {
    hide Element, Delims, ItemAt;
    DelimsStep(s, i, [CLOSE], depth, dims, elems);
    if s != [] && s[0] == CLOSE {
      BraceElementFails(s[1..], i + 1, depth, dims[depth - 1 := dims[depth - 1] + 1], elems);
    }
  }
}
