/** The array text printer of dbarray.go, and what parsing its output gives back. */
module ArrayPrinter {
  import opened Bytes
  import opened ArrayParser
  import opened ArrayGrammar
  import opened ArrayLanguage

  /** A value as the printer sees it: a nested slice or array, or a leaf after the driver's
      conversion, with the delimiter its type asks for. Scalar is a converted value that is
      printed without quotes; Unsupported is one the driver cannot convert. */
  datatype Value =
    | Missing(del: seq<byte>)
    | Bytea(del: seq<byte>, bytes: seq<byte>)
    | Scalar(del: seq<byte>, text: seq<byte>)
    | Unsupported(del: seq<byte>)
    | List(items: seq<Value>)

  /** The text of an element and the delimiter to put after it. */
  datatype Printed = Printed(text: seq<byte>, del: seq<byte>)

  // ----- quoting -----

  /** The units of a quoted byte string: a backslash before every quote and backslash. */
  function QuoteUnits(v: seq<byte>): (us: seq<Unit>)
    ensures |us| == |v|
  {
    if v == [] then []
    else [if v[0] == QUOTE || v[0] == BACKSLASH then Escaped(v[0]) else Plain(v[0])] + QuoteUnits(v[1..])
  }

  function Quoting(v: seq<byte>): Token {
    QuotedToken(QuoteUnits(v))
  }

  /** The index of the first quote or backslash, or the length. */
  function SpecialIndex(v: seq<byte>): (i: nat)
    ensures i <= |v|
    ensures i < |v| ==> v[i] == QUOTE || v[i] == BACKSLASH
    ensures forall j :: 0 <= j < i ==> v[j] != QUOTE && v[j] != BACKSLASH
  {
    if v == [] || v[0] == QUOTE || v[0] == BACKSLASH then 0 else 1 + SpecialIndex(v[1..])
  }

  function Escape(v: seq<byte>): seq<byte> {
    ShowUnits(QuoteUnits(v))
  }

  lemma EscapeHead(v: seq<byte>)
    requires v != []
    ensures v[0] == QUOTE || v[0] == BACKSLASH ==> Escape(v) == [BACKSLASH, v[0]] + Escape(v[1..])
    ensures v[0] != QUOTE && v[0] != BACKSLASH ==> Escape(v) == [v[0]] + Escape(v[1..])
  {
    assert QuoteUnits(v)[1..] == QuoteUnits(v[1..]);
  }

  lemma {:induction false} EscapePrefix(v: seq<byte>, i: nat)
    requires i <= |v| && forall j :: 0 <= j < i ==> v[j] != QUOTE && v[j] != BACKSLASH
    ensures Escape(v) == v[..i] + Escape(v[i..])
  {
    hide Escape;
    if i == 0 {
      assert v[0..] == v;
    } else {
      var tail := v[1..];
      EscapeHead(v);
      EscapePrefix(tail, i - 1);
      assert tail[i - 1..] == v[i..];
      assert v[..i] == [v[0]] + tail[..i - 1];
      Reassociate([v[0]], tail[..i - 1], Escape(v[i..]));
    }
  }

  /** Escaping byte by byte is copying up to the first special byte, escaping that one, and
      going on. */
  lemma EscapeChunk(v: seq<byte>)
    ensures SpecialIndex(v) == |v| ==> Escape(v) == v
    ensures var i := SpecialIndex(v);
            i < |v| ==> Escape(v) == v[..i] + ([BACKSLASH, v[i]] + Escape(v[i + 1..]))
  {
    var i := SpecialIndex(v);
    EscapePrefix(v, i);
    if i == |v| {
      assert v[i..] == [] && Escape([]) == [];
    } else {
      hide Escape, SpecialIndex;
      EscapeHead(v[i..]);
      assert v[i..][1..] == v[i + 1..];
    }
  }

  lemma QuotingNext(r: seq<byte>, v: seq<byte>)
    requires SpecialIndex(v) < |v|
    ensures var i := SpecialIndex(v);
            r + Escape(v) == r + v[..i] + [BACKSLASH, v[i]] + Escape(v[i + 1..])
  {
    hide Escape, SpecialIndex;
    var i := SpecialIndex(v);
    var all, chunk, pair, tail := Escape(v), v[..i], [BACKSLASH, v[i]], Escape(v[i + 1..]);
    assert all == chunk + (pair + tail) by {
      EscapeChunk(v);
    }
    AppendThree(r, all, chunk, pair, tail);
  }

  lemma AppendThree(r: seq<byte>, all: seq<byte>, a: seq<byte>, b: seq<byte>, c: seq<byte>)
    requires all == a + (b + c)
    ensures r + all == r + a + b + c
  {
    Reassociate(r, a, b + c);
    Reassociate(r + a, b, c);
  }

  /** appendArrayQuotedBytes: copies the stretches between special bytes in one go. */
  method AppendArrayQuotedBytes(b: seq<byte>, v: seq<byte>) returns (r: seq<byte>)
    ensures r == b + ShowToken(Quoting(v))
  {
    r := b + [QUOTE];
    var rest := v;
    ghost var goal := r + Escape(v);
    while true
      invariant r + Escape(rest) == goal
      decreases |rest|
    {
      hide Escape, SpecialIndex;
      var i := SpecialIndex(rest);
      if i == |rest| {
        EscapeChunk(rest);
        r := r + rest;
        break;
      }
      QuotingNext(r, rest);
      if i > 0 {
        r := r + rest[..i];
      }
      r := r + [BACKSLASH, rest[i]];
      rest := rest[i + 1..];
    }
    r := r + [QUOTE];
    Reassociate(b, [QUOTE], Escape(v));
    Reassociate(b, [QUOTE] + Escape(v), [QUOTE]);
  }

  lemma {:induction false} QuoteUnitsValue(v: seq<byte>)
    ensures UnitsValue(QuoteUnits(v)) == v
    ensures TokenOk(Quoting(v), [], [])
  {
    if v != [] {
      QuoteUnitsValue(v[1..]);
      assert QuoteUnits(v)[1..] == QuoteUnits(v[1..]);
    }
  }

  /** Quoting is self-delimiting: the parser started on the quoted text of v followed by any
      suffix reads exactly v and stops right after the closing quote. */
  lemma QuotingRoundTrip(v: seq<byte>, del: seq<byte>, suffix: seq<byte>)
    ensures ItemAt(ShowToken(Quoting(v)) + suffix, del) == Read(Text(v), suffix)
  {
    hide ItemAt;
    QuoteUnitsValue(v);
    QuotedTokenReads(QuoteUnits(v), del, suffix);
  }

  // ----- printing -----

  /** What appendArrayElement appends; None where the driver's conversion fails. */
  function Print(v: Value): Option<Printed>
    decreases v, 0
  {
    match v
    case Missing(del) => Some(Printed(NULL_TEXT, del))
    case Bytea(del, bytes) => Some(Printed(ShowToken(Quoting(bytes)), del))
    case Scalar(del, text) => Some(Printed(text, del))
    case Unsupported(_) => None
    case List(items) => if items == [] then Some(Printed([], [])) else PrintList(items)
  }

  /** What appendArray appends. */
  function PrintList(items: seq<Value>): Option<Printed>
    requires items != []
    decreases items, 2
  {
    match PrintItems(items)
    case None => None
    case Some(p) => Some(Printed([OPEN] + p.text + [CLOSE], p.del))
  }

  /** The items between the braces, each followed by the delimiter it asked for. */
  function PrintItems(items: seq<Value>): Option<Printed>
    requires items != []
    decreases items, 1
  {
    match Print(items[0])
    case None => None
    case Some(p) => if |items| == 1 then Some(p) else Joined(p, PrintItems(items[1..]))
  }

  function Joined(p: Printed, rest: Option<Printed>): Option<Printed> {
    match rest
    case None => None
    case Some(q) => Some(Printed(p.text + p.del + q.text, q.del))
  }

  lemma JoinedAssociates(p: Printed, q: Printed, rest: Option<Printed>)
    ensures Joined(Printed(p.text + p.del + q.text, q.del), rest) == Joined(p, Joined(q, rest))
  {
    if rest.Some? {
      var r := rest.value;
      assert (p.text + p.del + q.text) + q.del + r.text == p.text + p.del + (q.text + q.del + r.text);
    }
  }

  /** appendArray. */
  method AppendArray(b: seq<byte>, items: seq<Value>) returns (r: seq<byte>, del: seq<byte>, ok: bool)
    requires items != []
    ensures ok == PrintList(items).Some?
    ensures ok ==> r == b + PrintList(items).value.text && del == PrintList(items).value.del
    decreases items, 2
  {
    hide Print;
    r, del, ok := AppendArrayElement(b + [OPEN], items[0]);
    if !ok {
      return;
    }
    ghost var sofar := Print(items[0]).value;
    var i := 1;
    while i < |items|
      invariant 1 <= i <= |items|
      invariant r == b + [OPEN] + sofar.text && del == sofar.del
      invariant PrintItems(items) == if i == |items| then Some(sofar) else Joined(sofar, PrintItems(items[i..]))
    {
      r, del, ok := AppendArrayElement(r + del, items[i]);
      if !ok {
        return;
      }
      ghost var p := Print(items[i]).value;
      if i + 1 < |items| {
        assert items[i..][1..] == items[i + 1..];
        JoinedAssociates(sofar, p, PrintItems(items[i + 1..]));
      }
      sofar := Printed(sofar.text + sofar.del + p.text, p.del);
      i := i + 1;
    }
    r := r + [CLOSE];
    assert r == b + ([OPEN] + sofar.text + [CLOSE]);
  }

  /** appendArrayElement. */
  method AppendArrayElement(b: seq<byte>, v: Value) returns (r: seq<byte>, del: seq<byte>, ok: bool)
    ensures ok == Print(v).Some?
    ensures ok ==> r == b + Print(v).value.text && del == Print(v).value.del
    decreases v, 0
  {
    ok := true;
    match v {
      case Missing(d) =>
        r, del := b + NULL_TEXT, d;
      case Bytea(d, bytes) =>
        r := AppendArrayQuotedBytes(b, bytes);
        del := d;
      case Scalar(d, text) =>
        r, del := b + text, d;
      case Unsupported(d) =>
        r, del, ok := b, d, false;
      case List(items) =>
        if |items| > 0 {
          r, del, ok := AppendArray(b, items);
        } else {
          r, del := b, [];
        }
    }
  }
}
