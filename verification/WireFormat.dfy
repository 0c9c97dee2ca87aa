/** The text format in numbers: what the parser reads and the printer writes, with every byte of the
    syntax written as such, so that nothing here depends on how the modules name them. */
module WireFormat {
  import opened Bytes
  import opened ArrayParser
  import opened ArrayGrammar
  import opened ArrayLanguage
  import opened LinearArrays
  import opened ArrayPrinter

  // ----- reading -----

  /** An item between commas: a bare word, or bytes between double quotes, some of them after a
      backslash. */
  datatype Word = Bare(text: seq<byte>) | InQuotes(bytes: seq<byte>, slashed: seq<bool>)

  /** A bare word is not empty, does not begin like a quoted one or like an array, and has neither
      commas nor closing braces. In quotes only quotes and backslashes need a backslash. */
  predicate WordOk(w: Word) {
    match w
    case Bare(text) =>
      text != [] && text[0] != 0x22 && text[0] != 0x7B && 0x2C !in text && 0x7D !in text
    case InQuotes(bytes, slashed) =>
      && |slashed| == |bytes|
      && forall k :: 0 <= k < |bytes| && (bytes[k] == 0x22 || bytes[k] == 0x5C) ==> slashed[k]
  }

  function Slashed(bytes: seq<byte>, slashed: seq<bool>): seq<byte>
    requires |slashed| == |bytes|
  {
    if bytes == [] then []
    else (if slashed[0] then [0x5C, bytes[0]] else [bytes[0]]) + Slashed(bytes[1..], slashed[1..])
  }

  function WordText(w: Word): seq<byte>
    requires WordOk(w)
  {
    match w
    case Bare(text) => text
    case InQuotes(bytes, slashed) => [0x22] + Slashed(bytes, slashed) + [0x22]
  }

  predicate WordsOk(ws: seq<Word>) {
    forall k :: 0 <= k < |ws| ==> WordOk(ws[k])
  }

  function WordsText(ws: seq<Word>): seq<byte>
    requires WordsOk(ws)
  {
    if ws == [] then []
    else if |ws| == 1 then WordText(ws[0])
    else WordText(ws[0]) + [0x2C] + WordsText(ws[1..])
  }

  /** Only the bare word of the capital letters N, U, L, L is NULL. */
  predicate Means(e: Elem, w: Word) {
    match w
    case Bare(text) => if text == [0x4E, 0x55, 0x4C, 0x4C] then e == Null else e == Text(text)
    case InQuotes(bytes, _) => e == Text(bytes)
  }

  function UnitsOf(bytes: seq<byte>, slashed: seq<bool>): (us: seq<Unit>)
    requires |slashed| == |bytes|
    ensures |us| == |bytes|
    ensures forall k :: 0 <= k < |us| ==> us[k] == if slashed[k] then Escaped(bytes[k]) else Plain(bytes[k])
  {
    seq(|bytes|, k requires 0 <= k < |bytes| => if slashed[k] then Escaped(bytes[k]) else Plain(bytes[k]))
  }

  lemma {:induction false} UnitsAre(bytes: seq<byte>, slashed: seq<bool>)
    requires |slashed| == |bytes|
    ensures ShowUnits(UnitsOf(bytes, slashed)) == Slashed(bytes, slashed)
    ensures UnitsValue(UnitsOf(bytes, slashed)) == bytes
  {
    if bytes != [] {
      UnitsAre(bytes[1..], slashed[1..]);
      assert UnitsOf(bytes, slashed)[1..] == UnitsOf(bytes[1..], slashed[1..]);
      assert bytes == [bytes[0]] + bytes[1..];
    }
  }

  function TokenOf(w: Word): Token
    requires WordOk(w)
  {
    match w
    case Bare(text) => BareToken(text)
    case InQuotes(bytes, slashed) => QuotedToken(UnitsOf(bytes, slashed))
  }

  lemma WordIsToken(w: Word, after: seq<byte>)
    requires WordOk(w)
    ensures TokenOk(TokenOf(w), [0x2C], after) && ShowToken(TokenOf(w)) == WordText(w)
    ensures Means(TokenElem(TokenOf(w)), w)
  {
    match w {
      case InQuotes(bytes, slashed) => UnitsAre(bytes, slashed);
      case Bare(text) =>
        forall j | 0 <= j < |text| ensures text[j] != CLOSE && !([0x2C] <= (text + after)[j..]) {
          assert (text + after)[j..][0] == text[j];
        }
    }
  }

  function TokensOf(ws: seq<Word>): (tokens: seq<Token>)
    requires WordsOk(ws)
    ensures |tokens| == |ws| && forall k :: 0 <= k < |ws| ==> tokens[k] == TokenOf(ws[k])
  {
    seq(|ws|, k requires 0 <= k < |ws| => TokenOf(ws[k]))
  }

  lemma {:induction false} WordsAreTokens(ws: seq<Word>)
    requires WordsOk(ws)
    ensures Join(TokensOf(ws), [0x2C]) == WordsText(ws)
  {
    if ws != [] {
      hide TokenOf, WordOk, WordText;
      WordIsToken(ws[0], []);
      if |ws| > 1 {
        WordsAreTokens(ws[1..]);
        assert TokensOf(ws)[1..] == TokensOf(ws[1..]);
      }
    }
  }

  /** Any number of words between braces and commas is read as what they mean, in order, with their
      number as the one dimension. */
  lemma WordsParse(ws: seq<Word>)
    requires ws != [] && WordsOk(ws)
    ensures var r := Parse([0x7B] + WordsText(ws) + [0x7D], [0x2C]);
            && r.Ok? && r.value.dims == [|ws|] && |r.value.elems| == |ws|
            && forall k :: 0 <= k < |ws| ==> Means(r.value.elems[k], ws[k])
  {
    hide Parse, Join, TokenOk, TokenOf, TokenElem, WordOk, WordText, WordsText, Means;
    var tokens := TokensOf(ws);
    forall k | 0 <= k < |ws|
      ensures TokenOk(tokens[k], [0x2C], [0x2C]) && TokenOk(tokens[k], [0x2C], [CLOSE])
      ensures Means(TokenElem(tokens[k]), ws[k])
    {
      WordIsToken(ws[k], [0x2C]);
      WordIsToken(ws[k], [CLOSE]);
    }
    WordsAreTokens(ws);
    RowParses(tokens, [0x2C]);
  }

  /** One bare word: NULL in capital letters is nil, and any other word is itself. */
  lemma BareWordParses(text: seq<byte>)
    requires WordOk(Bare(text))
    ensures text == [0x4E, 0x55, 0x4C, 0x4C] ==>
              Parse([0x7B] + text + [0x7D], [0x2C]) == Ok(Parsed([1], [Null]))
    ensures text != [0x4E, 0x55, 0x4C, 0x4C] ==>
              Parse([0x7B] + text + [0x7D], [0x2C]) == Ok(Parsed([1], [Text(text)]))
  {
    hide Parse;
    WordsParse([Bare(text)]);
    var elems := Parse([0x7B] + WordsText([Bare(text)]) + [0x7D], [0x2C]).value.elems;
    assert elems == [elems[0]];
  }

  /** One quoted word is its bytes, NULL included. */
  lemma QuotedWordParses(bytes: seq<byte>, slashed: seq<bool>)
    requires WordOk(InQuotes(bytes, slashed))
    ensures Parse([0x7B] + ([0x22] + Slashed(bytes, slashed) + [0x22]) + [0x7D], [0x2C]) == Ok(Parsed([1], [Text(bytes)]))
  {
    hide Parse, Slashed;
    var w := InQuotes(bytes, slashed);
    WordsParse([w]);
    var elems := Parse([0x7B] + WordsText([w]) + [0x7D], [0x2C]).value.elems;
    assert WordText(w) == [0x22] + Slashed(bytes, slashed) + [0x22];
    assert elems == [elems[0]];
  }

  // ----- writing -----

  function Special(v: seq<byte>): (slashed: seq<bool>)
    ensures |slashed| == |v| && forall k :: 0 <= k < |v| ==> slashed[k] == (v[k] == 0x22 || v[k] == 0x5C)
  {
    seq(|v|, k requires 0 <= k < |v| => v[k] == 0x22 || v[k] == 0x5C)
  }

  /** Quoted output has a backslash before quotes and backslashes, and nowhere else. */
  lemma {:induction false} QuotingWrites(v: seq<byte>)
    ensures ShowToken(Quoting(v)) == [0x22] + Slashed(v, Special(v)) + [0x22]
  {
    QuoteUnitsAre(v);
    UnitsAre(v, Special(v));
  }

  lemma {:induction false} QuoteUnitsAre(v: seq<byte>)
    ensures QuoteUnits(v) == UnitsOf(v, Special(v))
  {
    if v != [] {
      QuoteUnitsAre(v[1..]);
      assert UnitsOf(v, Special(v)) == [UnitsOf(v, Special(v))[0]] + UnitsOf(v[1..], Special(v[1..]));
    }
  }

  /** A leaf prints as the word NULL, as its bytes in quotes, or as its text. */
  lemma LeafWrites(del: seq<byte>, bytes: seq<byte>)
    ensures Print(Missing(del)) == Some(Printed([0x4E, 0x55, 0x4C, 0x4C], del))
    ensures Print(Bytea(del, bytes)) == Some(Printed([0x22] + Slashed(bytes, Special(bytes)) + [0x22], del))
    ensures Print(Scalar(del, bytes)) == Some(Printed(bytes, del))
  {
    QuotingWrites(bytes);
  }

  lemma {:induction false} LastItemAsks(items: seq<Value>)
    requires items != []
    ensures PrintItems(items).Some? ==>
              Print(items[|items| - 1]).Some? && PrintItems(items).value.del == Print(items[|items| - 1]).value.del
  {
    if |items| > 1 {
      LastItemAsks(items[1..]);
    }
  }

  /** One more item goes after the delimiter that the item before it asked for, and decides which one
      comes next. */
  lemma {:induction false} ItemAppends(items: seq<Value>, v: Value)
    requires items != []
    ensures PrintItems(items + [v]).Some? <==> PrintItems(items).Some? && Print(v).Some?
    ensures PrintItems(items).Some? ==> Print(items[|items| - 1]).Some?
    ensures PrintItems(items + [v]).Some? ==>
              PrintItems(items + [v]).value ==
              Printed(PrintItems(items).value.text + Print(items[|items| - 1]).value.del + Print(v).value.text,
                      Print(v).value.del)
  {
    var all, last := items + [v], Print(items[|items| - 1]);
    LastItemAsks(items);
    assert all[1..] == items[1..] + [v];
    if |items| == 1 {
      assert all[1..] == [v];
    } else {
      ItemAppends(items[1..], v);
      var p, q := Print(items[0]), PrintItems(items[1..]);
      if p.Some? && q.Some? && Print(v).Some? {
        Reassociate(p.value.text + p.value.del, q.value.text, last.value.del);
        Reassociate(p.value.text + p.value.del, q.value.text + last.value.del, Print(v).value.text);
      }
    }
  }

  /** A list prints between braces and asks for the delimiter of its last item; an empty one prints
      nothing and asks for none. */
  lemma ListWrites(items: seq<Value>)
    ensures Print(List([])) == Some(Printed([], []))
    ensures items != [] ==> (Print(List(items)).Some? <==> PrintItems(items).Some?)
    ensures items != [] && PrintItems(items).Some? ==>
              && Print(items[|items| - 1]).Some?
              && Print(List(items)).value ==
                 Printed([0x7B] + PrintItems(items).value.text + [0x7D], Print(items[|items| - 1]).value.del)
  {
    if items != [] {
      LastItemAsks(items);
    }
  }

  // ----- failing -----

  /** Somewhere inside is a value that the driver cannot convert. */
  predicate Unprintable(v: Value) {
    v.Unsupported? || (v.List? && exists k :: 0 <= k < |v.items| && Unprintable(v.items[k]))
  }

  /** Printing fails exactly if a leaf, at whatever depth, does not convert. */
  lemma {:induction false} FailsExactly(v: Value)
    ensures Print(v) == None <==> Unprintable(v)
    decreases v, 0
  {
    if v.List? && v.items != [] {
      ItemsFail(v.items);
    }
  }

  lemma {:induction false} ItemsFail(items: seq<Value>)
    requires items != []
    ensures PrintItems(items) == None <==> exists k :: 0 <= k < |items| && Unprintable(items[k])
    decreases items, 1
  {
    FailsExactly(items[0]);
    if |items| > 1 {
      ItemsFail(items[1..]);
      assert forall k :: 1 <= k < |items| ==> items[k] == items[1..][k - 1];
      assert forall k :: 0 <= k < |items| - 1 ==> items[1..][k] == items[k + 1];
    }
  }
}
