/** Arrays with empty slices inside: what the printer makes of them, and exactly when it parses. */
module HollowArrays {
  import opened Bytes
  import opened ArrayParser
  import opened ArrayGrammar
  import opened ArrayLanguage
  import opened ArrayPrinter
  import opened NestedArrays

  const HOLLOW: Value := List([])

  // ----- an empty slice that no item follows -----

  /** In last position an empty slice leaves the delimiter of the item before it, and asks for
      none itself. */
  lemma {:induction false} EmptySliceAtEnd(before: seq<Value>)
    requires before != []
    ensures PrintItems(before + [HOLLOW]) ==
            match PrintItems(before) case None => None case Some(p) => Some(Printed(p.text + p.del, []))
  {
    var items := before + [HOLLOW];
    if |before| == 1 {
      assert items[1..] == [HOLLOW] && items[0] == before[0];
      assert PrintItems([HOLLOW]) == Some(Printed([], []));
      var p := Print(before[0]);
      if p.Some? {
        assert p.value.text + p.value.del + [] == p.value.text + p.value.del;
      }
    } else {
      EmptySliceAtEnd(before[1..]);
      assert items[1..] == before[1..] + [HOLLOW] && items[0] == before[0];
      var p, rest := Print(before[0]), PrintItems(before[1..]);
      if p.Some? && rest.Some? {
        Reassociate(p.value.text + p.value.del, rest.value.text, rest.value.del);
      }
    }
  }

  // ----- dropping the slices that leave no trace -----

  function Trim(v: Value): Value
    decreases v, 0
  {
    if v.List? then List(TrimAll(v.items)) else v
  }

  /** Drops every empty slice that another item follows, at every depth. */
  function TrimAll(items: seq<Value>): seq<Value>
    decreases items, 1
  {
    if items == [] then []
    else if |items| > 1 && items[0] == HOLLOW then TrimAll(items[1..])
    else [Trim(items[0])] + TrimAll(items[1..])
  }

  /** Empty slices stand only at the end of their list. */
  predicate Tidy(v: Value)
    decreases v, 0
  {
    v.List? ==> TidyItems(v.items)
  }

  predicate TidyItems(items: seq<Value>)
    decreases items, 1
  {
    items != [] ==>
      Tidy(items[0]) && (|items| > 1 ==> items[0] != HOLLOW) && TidyItems(items[1..])
  }

  /** Trimming changes neither the printed text nor the leaves. */
  lemma {:induction false} TrimKeeps(v: Value, del: seq<byte>)
    requires Printable(v, del)
    ensures Print(Trim(v)) == Print(v) && Flatten(Trim(v)) == Flatten(v)
    ensures Printable(Trim(v), del) && Tidy(Trim(v)) && (Trim(v) == HOLLOW <==> v == HOLLOW)
    decreases v, 0
  {
    if v.List? {
      TrimAllKeeps(v.items, del);
    }
  }

  lemma {:induction false} TrimAllKeeps(items: seq<Value>, del: seq<byte>)
    requires forall k :: 0 <= k < |items| ==> Printable(items[k], del)
    ensures TrimAll(items) == [] <==> items == []
    ensures items != [] ==> PrintItems(TrimAll(items)) == PrintItems(items)
    ensures FlattenAll(TrimAll(items)) == FlattenAll(items) && TidyItems(TrimAll(items))
    ensures forall k :: 0 <= k < |TrimAll(items)| ==> Printable(TrimAll(items)[k], del)
    decreases items, 1
  {
    if items != [] {
      var rest := items[1..];
      TrimAllKeeps(rest, del);
      if |items| > 1 && items[0] == HOLLOW {
        EmptySliceVanishes([], rest);
        assert [] + [HOLLOW] + rest == items && [] + rest == rest;
        assert FlattenAll(items) == [] + FlattenAll(rest) == FlattenAll(rest);
      } else {
        TrimKeeps(items[0], del);
        assert TrimAll(items)[1..] == TrimAll(rest);
      }
    }
  }

  // ----- a list that still ends in an empty slice does not parse -----

  /** Reading the text of such an array at label Element ends in an error. */
  lemma {:induction false} HollowFails(v: Value, del: seq<byte>, rest: seq<byte>,
                                       i: nat, depth: nat, dims: seq<nat>, elems: seq<Elem>)
    requires GoodDelimiter(del) && Printable(v, del) && Tidy(v) && !Full(v) && v != HOLLOW
    requires Print(v).Some? && Counted(depth, dims)
    ensures Element(Print(v).value.text + rest, i, del, depth, dims, elems).Err?
    decreases v, 0
  {
    hide Element, Delims, ItemAt, Finish;
    var inner, closing := PrintItems(v.items).value.text, [CLOSE] + rest;
    Reassociate([OPEN] + inner, [CLOSE], rest);
    Reassociate([OPEN], inner, closing);
    assert Print(v).value.text + rest == [OPEN] + (inner + closing);
    assert !AllFull(v.items) && TidyItems(v.items);
    hide Print, PrintItems, Full, AllFull, TidyItems;
    var s := [OPEN] + (inner + closing);
    ElementStep(s, i, del, depth, dims, elems);
    DelimsStep(s, i, del, depth, dims, elems);
    if depth < |dims| {
      assert s[1..] == inner + closing;
      HollowItemsFail(v.items, del, closing, i + 1, depth + 1, dims[depth := 0], elems);
    }
  }

  lemma {:induction false} HollowItemsFail(items: seq<Value>, del: seq<byte>, closing: seq<byte>,
                                           i: nat, depth: nat, dims: seq<nat>, elems: seq<Elem>)
    requires GoodDelimiter(del) && items != [] && TidyItems(items) && closing != [] && closing[0] == CLOSE
    requires forall k :: 0 <= k < |items| ==> Printable(items[k], del)
    requires !AllFull(items)
    requires PrintItems(items).Some? && depth >= 1 && Counted(depth, dims)
    ensures Element(PrintItems(items).value.text + closing, i, del, depth, dims, elems).Err?
    decreases items, 1
  {
    hide Element, Delims, ItemAt, Finish;
    var first := items[0];
    if first == HOLLOW {
      HollowEndFails(closing, i, del, depth, dims, elems);
      assert PrintItems(items).value.text + closing == closing;
    } else {
      var after := Behind(items, closing);
      FirstPrints(items, closing);
      hide PrintItems, TidyItems;
      if !Full(first) {
        HollowFails(first, del, after, i, depth, dims, elems);
      } else {
        RestFails(items, del, closing, i, depth, dims, elems);
      }
    }
  }

  /** The first item is read, and the failure is among the others. */
  lemma {:induction false} RestFails(items: seq<Value>, del: seq<byte>, closing: seq<byte>,
                                     i: nat, depth: nat, dims: seq<nat>, elems: seq<Elem>)
    requires GoodDelimiter(del) && |items| > 1 && TidyItems(items) && closing != [] && closing[0] == CLOSE
    requires forall k :: 0 <= k < |items| ==> Printable(items[k], del)
    requires Full(items[0]) && !AllFull(items[1..])
    requires PrintItems(items).Some? && depth >= 1 && Counted(depth, dims)
    ensures Element(Print(items[0]).value.text + Behind(items, closing), i, del, depth, dims, elems).Err?
    decreases items, 0
  {
    hide Element, Delims, ItemAt, Finish, Full, AllFull, Printable, Print, PrintItems, TidyItems, Behind;
    hide TreeOf, TreeOk, Show, Leaves, Levels, Recount;
    RestPrints(items, del, closing);
    var t, remaining := TreeOf(items[0]), PrintItems(items[1..]).value.text + closing;
    if Levels(t, |dims| - depth) {
      var counts := Recount(t, depth, dims);
      RecountCounted(t, depth, dims);
      HollowItemsFail(items[1..], del, closing, i + |Show(t, del)| + |del|, depth,
                      counts[depth - 1 := counts[depth - 1] + 1], elems + Leaves(t));
    }
    TreeThenFails(t, del, remaining, i, depth, dims, elems);
  }

  lemma RestPrints(items: seq<Value>, del: seq<byte>, closing: seq<byte>)
    requires GoodDelimiter(del) && |items| > 1 && closing != [] && closing[0] == CLOSE
    requires Full(items[0]) && Printable(items[0], del) && PrintItems(items).Some?
    ensures PrintItems(items[1..]).Some?
    ensures var t, remaining := TreeOf(items[0]), PrintItems(items[1..]).value.text + closing;
            && Print(items[0]).value.text == Show(t, del) && Behind(items, closing) == del + remaining
            && TreeOk(t, del, del + remaining)
    ensures TidyItems(items) ==> TidyItems(items[1..])
  {
    var rest := PrintItems(items[1..]).value.text;
    PrintIsShow(items[0], del, del + (rest + closing));
    Reassociate(del, rest, closing);
  }

  /** An error after a tree and its delimiter, or the tree itself too deep. */
  lemma TreeThenFails(t: Tree, del: seq<byte>, remaining: seq<byte>, i: nat, depth: nat, dims: seq<nat>, elems: seq<Elem>)
    requires GoodDelimiter(del) && TreeOk(t, del, del + remaining) && depth >= 1 && Counted(depth, dims)
    requires Levels(t, |dims| - depth) ==>
               var counts := Recount(t, depth, dims);
               && Counted(depth, counts)
               && Element(remaining, i + |Show(t, del)| + |del|, del, depth,
                          counts[depth - 1 := counts[depth - 1] + 1], elems + Leaves(t)).Err?
    ensures Element(Show(t, del) + (del + remaining), i, del, depth, dims, elems).Err?
  {
    hide Element, Delims, ItemAt, Finish;
    var after := del + remaining;
    if Levels(t, |dims| - depth) {
      TreeReads(t, del, after, i, depth, dims, elems);
      DelimsStep(after, i + |Show(t, del)|, del, depth, Recount(t, depth, dims), elems + Leaves(t));
      assert after[|del|..] == remaining;
    } else {
      DeepTreeFails(t, del, after, i, depth, dims, elems);
    }
  }

  lemma FirstPrints(items: seq<Value>, closing: seq<byte>)
    requires items != [] && PrintItems(items).Some?
    ensures PrintItems(items).value.text + closing == Print(items[0]).value.text + Behind(items, closing)
  {
    if |items| > 1 {
      var p, rest := Print(items[0]).value, PrintItems(items[1..]).value.text;
      Reassociate(p.text, p.del, rest);
      Reassociate(p.text, p.del + rest, closing);
    }
  }

  predicate AllFull(items: seq<Value>) {
    forall k :: 0 <= k < |items| ==> Full(items[k])
  }

  /** What follows the text of the first item. */
  function Behind(items: seq<Value>, closing: seq<byte>): seq<byte>
    requires items != [] && PrintItems(items).Some?
  {
    if |items| == 1 then closing else Print(items[0]).value.del + PrintItems(items[1..]).value.text + closing
  }

  /** An item is expected where the closing brace stands. */
  lemma HollowEndFails(s: seq<byte>, i: nat, del: seq<byte>, depth: nat, dims: seq<nat>, elems: seq<Elem>)
    requires |del| >= 1 && s != [] && s[0] == CLOSE && Counted(depth, dims)
    ensures Element(s, i, del, depth, dims, elems) == Err(Unexpected(CLOSE, i))
  {
    hide Element, Delims;
    ElementStep(s, i, del, depth, dims, elems);
  }

  // ----- round trips of every printable array -----

  /** A leaf's text has a byte that is no brace. */
  predicate HasText(s: seq<byte>) {
    exists j :: 0 <= j < |s| && s[j] != OPEN && s[j] != CLOSE
  }

  lemma PartHasText(before: seq<byte>, part: seq<byte>, after: seq<byte>)
    requires HasText(part)
    ensures HasText(before + part + after)
  {
    var j :| 0 <= j < |part| && part[j] != OPEN && part[j] != CLOSE;
    assert (before + part + after)[|before| + j] == part[j];
  }

  /** A byte that is no brace, somewhere in a text. */
  lemma PlainHasText(s: seq<byte>, j: nat)
    requires j < |s| && s[j] != OPEN && s[j] != CLOSE
    ensures HasText(s)
  {
  }

  lemma {:induction false} LeavesHaveText(v: Value, del: seq<byte>)
    requires Printable(v, del) && Print(v).Some? && Flatten(v) != []
    ensures HasText(Print(v).value.text)
    decreases v, 0
  {
    hide HasText, QuoteUnits, ShowUnits, PrintItems;
    match v {
      case List(items) =>
        ItemsHaveText(items, del);
        PartHasText([OPEN], PrintItems(items).value.text, [CLOSE]);
      case Missing(_) => PlainHasText(NULL_TEXT, 0);
      case Bytea(_, bytes) => PlainHasText(ShowToken(Quoting(bytes)), 0);
      case Scalar(_, text) => PlainHasText(text, 0);
      case Unsupported(_) =>
    }
  }

  lemma {:induction false} ItemsHaveText(items: seq<Value>, del: seq<byte>)
    requires items != [] && PrintItems(items).Some? && FlattenAll(items) != []
    requires forall k :: 0 <= k < |items| ==> Printable(items[k], del)
    ensures HasText(PrintItems(items).value.text)
    decreases items, 1
  {
    hide HasText;
    var text, first := PrintItems(items).value.text, Print(items[0]).value;
    if Flatten(items[0]) != [] {
      LeavesHaveText(items[0], del);
      PartHasText([], first.text, text[|first.text|..]);
      assert text == [] + first.text + text[|first.text|..];
    } else {
      assert FlattenAll(items[1..]) != [];
      ItemsHaveText(items[1..], del);
      var rest := PrintItems(items[1..]).value.text;
      PartHasText(first.text + first.del, rest, []);
      assert text == first.text + first.del + rest + [];
    }
  }

  /** The round trip of every printable array, empty slices included. Its text parses if and only
      if it is only matching braces, or no empty slice ends a list of the trimmed array and that
      one's tree is parsable; the leaves then come back in order. */
  lemma PrintedRoundTrip(items: seq<Value>, del: seq<byte>)
    requires GoodDelimiter(del) && items != [] && Printable(List(items), del)
    ensures PrintList(items).Some?
    ensures var text, kept := PrintList(items).value.text, List(TrimAll(items));
            && (Parse(text, del).Ok? <==>
                  (exists k: nat :: k >= 1 && text == Empty(k)) || (Full(kept) && Parsable(TreeOf(kept))))
            && (Parse(text, del).Ok? ==> Parse(text, del).value.elems == Flatten(List(items)))
            && (Parse(text, del).Ok? && Full(kept) ==> DimsOf(TreeOf(kept), Parse(text, del).value.dims))
  {
    hide Parse, Spined, DimsOf, AllDivide, Flatten, Full, Print, PrintItems;
    var v, kept := List(items), List(TrimAll(items));
    TrimmedPrints(items, del);
    var text := PrintList(items).value.text;
    if Full(kept) {
      FullRoundTrip(kept.items, del);
      if k: nat :| k >= 1 && text == Empty(k) {
        EmptyParses(text, del, k);
      }
    } else {
      HollowTextFails(items, del);
    }
  }

  lemma TrimmedPrints(items: seq<Value>, del: seq<byte>)
    requires items != [] && Printable(List(items), del)
    ensures PrintList(items).Some?
    ensures var kept := List(TrimAll(items));
            && kept.items != [] && PrintList(kept.items) == PrintList(items) && Flatten(kept) == Flatten(List(items))
            && Printable(kept, del) && Tidy(kept)
  {
    PrintableSucceeds(List(items), del);
    TrimKeeps(List(items), del);
  }

  /** Without a tree, only braces parse. */
  lemma HollowTextFails(items: seq<Value>, del: seq<byte>)
    requires GoodDelimiter(del) && items != [] && Printable(List(items), del) && !Full(List(TrimAll(items)))
    ensures PrintList(items).Some?
    ensures var text := PrintList(items).value.text;
            && (Parse(text, del).Ok? <==> exists k: nat :: k >= 1 && text == Empty(k))
            && (Parse(text, del).Ok? ==> Parse(text, del).value.elems == Flatten(List(items)))
  {
    TrimmedPrints(items, del);
    var text, kept := PrintList(items).value.text, List(TrimAll(items));
    hide Full, Printable, Tidy, TrimAll, Flatten, Element, Delims;
    if ClosesAtOnce(text) {
      if Parse(text, del).Ok? {
        ParsesIsEmpty(text, del);
        NoLeavesInBraces(items, del, LeadingOpens(text));
      }
    } else {
      ParseIsElement(text, del);
      assert text + [] == text;
      HollowFails(kept, del, [], 0, 0, Repeat(1, LeadingOpens(text)), []);
    }
    if k: nat :| k >= 1 && text == Empty(k) {
      EmptyParses(text, del, k);
    }
  }

  lemma NoLeavesInBraces(items: seq<Value>, del: seq<byte>, k: nat)
    requires items != [] && Printable(List(items), del) && PrintList(items).Some? && PrintList(items).value.text == Empty(k)
    ensures Flatten(List(items)) == []
  {
    assert !HasText(Print(List(items)).value.text);
    if Flatten(List(items)) != [] {
      LeavesHaveText(List(items), del);
    }
  }

  // ----- the smallest example -----

  const ONE: Value := Scalar([COMMA], [0x31])

  /** The list of [1] and the empty list prints as {{1},} and does not parse. */
  lemma HollowLast()
    ensures var text := [OPEN, OPEN, 0x31, CLOSE, COMMA, CLOSE];
            && PrintList([List([ONE]), HOLLOW]) == Some(Printed(text, []))
            && Parse(text, [COMMA]) == Err(Unexpected(CLOSE, 5))
  {
    var one := List([ONE]);
    OneItem();
    EmptySliceAtEnd([one]);
    assert [one] + [HOLLOW] == [one, HOLLOW];
    assert [OPEN, 0x31, CLOSE] + [COMMA] == [OPEN, 0x31, CLOSE, COMMA];
    hide PrintItems, Parse;
    assert [OPEN] + [OPEN, 0x31, CLOSE, COMMA] + [CLOSE] == [OPEN, OPEN, 0x31, CLOSE, COMMA, CLOSE];
    EndingInComma();
  }

  /** In the other order it prints as {{1}}, which parses as if the empty list were not there. */
  lemma HollowFirst()
    ensures var text := [OPEN, OPEN, 0x31, CLOSE, CLOSE];
            && PrintList([HOLLOW, List([ONE])]) == Some(Printed(text, [COMMA]))
            && Parse(text, [COMMA]) == Ok(Parsed([1, 1], [Text([0x31])]))
  {
    var one := List([ONE]);
    OneItem();
    EmptySliceVanishes([], [one]);
    assert [] + [HOLLOW] + [one] == [HOLLOW, one] && [] + [one] == [one];
    hide PrintItems, Parse;
    assert [OPEN] + [OPEN, 0x31, CLOSE] + [CLOSE] == [OPEN, OPEN, 0x31, CLOSE, CLOSE];
    NestedRoundTrip([one], [COMMA], [1, 1]);
  }

  lemma OneItem()
    ensures var one := List([ONE]);
            && PrintItems([one]) == Some(Printed([OPEN, 0x31, CLOSE], [COMMA]))
            && Rectangular(List([one]), [1, 1]) && Printable(List([one]), [COMMA])
            && Flatten(List([one])) == [Text([0x31])]
  {
    var one := List([ONE]);
    assert PrintItems([ONE]) == Some(Printed([0x31], [COMMA]));
    assert [OPEN] + [0x31] + [CLOSE] == [OPEN, 0x31, CLOSE];
    assert Print(one) == PrintList([ONE]) == Some(Printed([OPEN, 0x31, CLOSE], [COMMA]));
    assert Rectangular(ONE, [1, 1][1..][1..]) && Rectangular(one, [1, 1][1..]);
    assert ([0x31] + [COMMA])[0] == 0x31;
    assert Printable(ONE, [COMMA]) && Printable(one, [COMMA]);
    assert FlattenAll([ONE]) == [Text([0x31])] + FlattenAll([]) == [Text([0x31])];
    assert FlattenAll([one]) == Flatten(one) + FlattenAll([]) == Flatten(one);
  }

  lemma EndingInComma()
    ensures Parse([OPEN, OPEN, 0x31, CLOSE, COMMA, CLOSE], [COMMA]) == Err(Unexpected(CLOSE, 5))
  {
    hide Element, Delims, ItemAt;
    var src, del := [OPEN, OPEN, 0x31, CLOSE, COMMA, CLOSE], [COMMA];
    var rest := [CLOSE, COMMA, CLOSE];
    assert src[1..] == [OPEN, 0x31] + rest && src[1..][1..] == [0x31] + rest == src[2..];
    assert LeadingOpens(src[2..]) == 0 && LeadingOpens(src[1..]) == 1 && LeadingOpens(src) == 2;
    assert Repeat(0, 2) == [0, 0];
    TokenReads(BareToken([0x31]), del, rest);
    ElementStep(src[2..], 2, del, 2, [0, 0], []);
    assert [] + [Text([0x31])] == [Text([0x31])];
    ClosingThenComma([Text([0x31])]);
  }

  lemma ClosingThenComma(elems: seq<Elem>)
    ensures Delims([CLOSE, COMMA, CLOSE], 3, [COMMA], 2, [0, 0], elems) == Err(Unexpected(CLOSE, 5))
  {
    hide Element, Delims;
    var s, del := [CLOSE, COMMA, CLOSE], [COMMA];
    DelimsStep(s, 3, del, 2, [0, 0], elems);
    assert s[1..] == [COMMA, CLOSE] && [0, 0][1 := 1] == [0, 1];
    DelimsStep([COMMA, CLOSE], 4, del, 1, [0, 1], elems);
    assert [COMMA, CLOSE][1..] == [CLOSE] && [0, 1][0 := 1] == [1, 1];
    HollowEndFails([CLOSE], 5, del, 1, [1, 1], elems);
  }
}
