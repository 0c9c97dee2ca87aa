/** The parser and the grammar agree, in both directions, on every input. */
module ArrayLanguage {
  import opened Bytes
  import opened ArrayParser
  import opened ArrayGrammar

  // ----- elements -----

  /** The byte-wise steps of a quoted element. */
  lemma QuotedStep(s: seq<byte>, elem: seq<byte>)
    ensures s != [] && s[0] == QUOTE ==> QuotedElem(s, false, elem) == Terminated(elem, s[1..])
    ensures s != [] && s[0] != QUOTE && s[0] != BACKSLASH ==>
              QuotedElem(s, false, elem) == QuotedElem(s[1..], false, elem + [s[0]])
    ensures |s| >= 2 && s[0] == BACKSLASH ==>
              QuotedElem(s, false, elem) == QuotedElem(s[2..], false, elem + [s[1]])
    ensures |s| < 2 && (s == [] || s[0] == BACKSLASH) ==> QuotedElem(s, false, elem) == Unterminated
  {
    if |s| >= 2 {
      assert s[1..][1..] == s[2..];
    }
  }

  /** A quoted element stops right after its closing quote, whatever follows. */
  lemma {:induction false} QuotedReads(us: seq<Unit>, elem: seq<byte>, rest: seq<byte>)
    requires TokenOk(QuotedToken(us), [], [])
    ensures QuotedElem(ShowUnits(us) + ([QUOTE] + rest), false, elem) == Terminated(elem + UnitsValue(us), rest)
  {
    hide QuotedElem;
    var s := ShowUnits(us) + ([QUOTE] + rest);
    QuotedStep(s, elem);
    if us == [] {
      assert s == [QUOTE] + rest;
      assert elem + UnitsValue(us) == elem;
    } else {
      var shown, b := ShowUnit(us[0]), us[0].b;
      Reassociate(shown, ShowUnits(us[1..]), [QUOTE] + rest);
      assert s[|shown|..] == ShowUnits(us[1..]) + ([QUOTE] + rest);
      QuotedReads(us[1..], elem + [b], rest);
      Reassociate(elem, [b], UnitsValue(us[1..]));
    }
  }

  lemma UnitsCons(u: Unit, us: seq<Unit>)
    ensures ShowUnits([u] + us) == ShowUnit(u) + ShowUnits(us)
    ensures UnitsValue([u] + us) == [u.b] + UnitsValue(us)
  {
    assert ([u] + us)[1..] == us;
  }

  /** Conversely, whatever is read as a quoted element is one. */
  lemma {:induction false} QuotedIsToken(s: seq<byte>, elem: seq<byte>) returns (us: seq<Unit>)
    requires QuotedElem(s, false, elem).Terminated?
    ensures TokenOk(QuotedToken(us), [], [])
    ensures var q := QuotedElem(s, false, elem);
            s == ShowUnits(us) + ([QUOTE] + q.rest) && q.elem == elem + UnitsValue(us)
    decreases |s|
  {
    hide QuotedElem;
    var q := QuotedElem(s, false, elem);
    QuotedStep(s, elem);
    if s[0] == QUOTE {
      us := [];
      assert q.elem == elem + UnitsValue(us);
      assert s == [QUOTE] + q.rest;
    } else {
      var u := if s[0] == BACKSLASH then Escaped(s[1]) else Plain(s[0]);
      var tail := s[|ShowUnit(u)|..];
      assert s == ShowUnit(u) + tail;
      var others := QuotedIsToken(tail, elem + [u.b]);
      us := [u] + others;
      UnitsCons(u, others);
      Reassociate(ShowUnit(u), ShowUnits(others), [QUOTE] + q.rest);
      Reassociate(elem, [u.b], UnitsValue(others));
    }
  }

  lemma Reassociate(a: seq<byte>, b: seq<byte>, c: seq<byte>)
    ensures a + (b + c) == (a + b) + c
  {
  }

  lemma {:induction false} BareLengthStops(s: seq<byte>, del: seq<byte>)
    ensures var n := BareLength(s, del);
            && (forall j :: 0 <= j < n ==> s[j] != CLOSE && !(del <= s[j..]))
            && (n < |s| ==> del <= s[n..] || s[n] == CLOSE)
  {
    if s != [] && !(del <= s) && s[0] != CLOSE {
      BareLengthStops(s[1..], del);
      var n := BareLength(s, del);
      forall j | 0 <= j < n ensures s[j] != CLOSE && !(del <= s[j..]) {
        assert s[j..] == if j == 0 then s else s[1..][j - 1..];
        assert j > 0 ==> s[j] == s[1..][j - 1];
      }
      assert s[n..] == s[1..][n - 1..];
    }
  }

  lemma {:induction false} BareLengthIs(s: seq<byte>, del: seq<byte>, n: nat)
    requires n < |s| && (del <= s[n..] || s[n] == CLOSE)
    requires forall j :: 0 <= j < n ==> s[j] != CLOSE && !(del <= s[j..])
    ensures BareLength(s, del) == n
  {
    if n > 0 {
      assert s[0..] == s;
      forall j | 0 <= j < n - 1 ensures s[1..][j] != CLOSE && !(del <= s[1..][j..]) {
        assert s[1..][j..] == s[j + 1..];
      }
      assert s[1..][n - 1..] == s[n..];
      BareLengthIs(s[1..], del, n - 1);
    }
  }

  /** Where an element ends: at a delimiter or a closing brace. */
  predicate Stops(del: seq<byte>, after: seq<byte>) {
    after != [] && (del <= after || after[0] == CLOSE)
  }

  lemma QuotedShows(us: seq<Unit>, rest: seq<byte>)
    ensures ShowToken(QuotedToken(us)) + rest == [QUOTE] + (ShowUnits(us) + ([QUOTE] + rest))
  {
    hide ShowUnits;
    Reassociate([QUOTE] + ShowUnits(us), [QUOTE], rest);
    Reassociate([QUOTE], ShowUnits(us), [QUOTE] + rest);
  }

  lemma QuotedTokenReads(us: seq<Unit>, del: seq<byte>, rest: seq<byte>)
    requires TokenOk(QuotedToken(us), [], [])
    ensures ItemAt(ShowToken(QuotedToken(us)) + rest, del) == Read(Text(UnitsValue(us)), rest)
  {
    hide QuotedElem, BareLength, ShowUnits, UnitsValue, TokenOk;
    var s, body := ShowToken(QuotedToken(us)) + rest, ShowUnits(us) + ([QUOTE] + rest);
    QuotedReads(us, [], rest);
    QuotedShows(us, rest);
    assert s[0] == QUOTE && s[1..] == body;
    assert [] + UnitsValue(us) == UnitsValue(us);
  }

  lemma TokenReads(token: Token, del: seq<byte>, after: seq<byte>)
    requires |del| >= 1 && TokenOk(token, del, after) && Stops(del, after)
    ensures var s := ShowToken(token) + after;
            s != [] && s[0] != OPEN && ItemAt(s, del) == Read(TokenElem(token), after)
  {
    hide QuotedElem, BareLength;
    var s := ShowToken(token) + after;
    match token {
      case QuotedToken(us) =>
        QuotedTokenReads(us, del, after);
      case BareToken(text) =>
        var n := |text|;
        assert s[n..] == after && s[..n] == text;
        BareLengthIs(s, del, n);
    }
  }

  lemma BareIsToken(s: seq<byte>, del: seq<byte>)
    requires s != [] && s[0] != OPEN && s[0] != QUOTE && 0 < BareLength(s, del) < |s|
    ensures var n := BareLength(s, del);
            TokenOk(BareToken(s[..n]), del, s[n..]) && Stops(del, s[n..])
  {
    hide BareLength;
    var n := BareLength(s, del);
    BareLengthStops(s, del);
    assert s[..n] + s[n..] == s;
  }

  lemma QuotedItem(s: seq<byte>, del: seq<byte>) returns (us: seq<Unit>)
    requires s != [] && s[0] == QUOTE && ItemAt(s, del).Read?
    ensures TokenOk(QuotedToken(us), [], [])
    ensures s == ShowToken(QuotedToken(us)) + ItemAt(s, del).rest && ItemAt(s, del).elem == Text(UnitsValue(us))
  {
    hide QuotedElem, BareLength, ShowUnits, UnitsValue, TokenOk;
    us := QuotedIsToken(s[1..], []);
    assert [] + UnitsValue(us) == UnitsValue(us);
    assert s == [QUOTE] + s[1..];
    QuotedShows(us, ItemAt(s, del).rest);
  }

  /** Whatever is read as an element inside braces is a token. */
  lemma ItemIsToken(s: seq<byte>, del: seq<byte>) returns (token: Token)
    requires s != [] && s[0] != OPEN && ItemAt(s, del).Read?
    ensures TokenOk(token, del, ItemAt(s, del).rest)
    ensures s == ShowToken(token) + ItemAt(s, del).rest && TokenElem(token) == ItemAt(s, del).elem
  {
    hide QuotedElem, BareLength, ShowUnits;
    if s[0] == QUOTE {
      var us := QuotedItem(s, del);
      token := QuotedToken(us);
    } else {
      token := BareToken(s[..BareLength(s, del)]);
      BareIsToken(s, del);
    }
  }

  // ----- dimensions -----

  /** What reading a tree at a level does to the dimension counters. */
  function Recount(t: Tree, level: nat, dims: seq<nat>): (r: seq<nat>)
    requires level <= |dims| && Levels(t, |dims| - level)
    ensures |r| == |dims|
    decreases t, 0
  {
    match t
    case Leaf(_) => dims
    case Gap => dims
    case Node(kids) => RecountKids(kids, level + 1, dims[level := 0])
  }

  function RecountKids(kids: Kids, level: nat, dims: seq<nat>): (r: seq<nat>)
    requires 1 <= level <= |dims| && KidsLevels(kids, |dims| - level)
    ensures |r| == |dims|
    decreases kids, 1
  {
    var first := Recount(kids.kid, level, dims);
    var counted := first[level - 1 := first[level - 1] + 1];
    match kids
    case Last(_) => counted
    case More(_, rest) => RecountKids(rest, level, counted)
  }

  function LastOr(counts: seq<nat>, default: nat): nat {
    if counts == [] then default else counts[|counts| - 1]
  }

  /** The counters above the tree's level keep their values; the others end with the size of
      the last node at their depth. */
  lemma {:induction false} RecountIs(t: Tree, level: nat, dims: seq<nat>, j: nat)
    requires level <= |dims| && Levels(t, |dims| - level) && j < |dims|
    ensures Recount(t, level, dims)[j] ==
            if j < level then dims[j] else LastOr(ArityAt(t, j - level), dims[j])
    decreases t, 0
  {
    match t {
      case Leaf(_) =>
      case Gap =>
      case Node(kids) => RecountKidsIs(kids, level + 1, dims[level := 0], j);
    }
  }

  lemma {:induction false} RecountKidsIs(kids: Kids, level: nat, dims: seq<nat>, j: nat)
    requires 1 <= level <= |dims| && KidsLevels(kids, |dims| - level) && j < |dims|
    ensures RecountKids(kids, level, dims)[j] ==
            if j < level - 1 then dims[j]
            else if j == level - 1 then dims[j] + Arity(kids)
            else LastOr(KidsArityAt(kids, j - level), dims[j])
    decreases kids, 1
  {
    var first := Recount(kids.kid, level, dims);
    var counted := first[level - 1 := first[level - 1] + 1];
    RecountIs(kids.kid, level, dims, j);
    match kids {
      case Last(_) =>
      case More(_, rest) => RecountKidsIs(rest, level, counted, j);
    }
  }

  lemma {:induction false} AritiesPositive(t: Tree, j: nat, k: nat)
    requires k < |ArityAt(t, j)|
    ensures ArityAt(t, j)[k] >= 1
    decreases t, 0
  {
    if j > 0 {
      KidsAritiesPositive(t.kids, j - 1, k);
    }
  }

  lemma {:induction false} KidsAritiesPositive(kids: Kids, j: nat, k: nat)
    requires k < |KidsArityAt(kids, j)|
    ensures KidsArityAt(kids, j)[k] >= 1
    decreases kids, 1
  {
    var n := |ArityAt(kids.kid, j)|;
    if k < n {
      AritiesPositive(kids.kid, j, k);
    } else {
      KidsAritiesPositive(kids.rest, j, k - n);
    }
  }

  lemma RecountCounted(t: Tree, level: nat, dims: seq<nat>)
    requires Counted(level, dims) && Levels(t, |dims| - level)
    ensures Counted(level, Recount(t, level, dims))
  {
    forall j | level <= j < |dims| ensures Recount(t, level, dims)[j] >= 1 {
      RecountIs(t, level, dims, j);
      var counts := ArityAt(t, j - level);
      if counts != [] {
        AritiesPositive(t, j - level, |counts| - 1);
      }
    }
  }

  // ----- the parser reads every tree -----

  /** Reading the text of a tree at label Element leaves the machine after the tree, with the
      tree's leaves added and its nodes counted. */
  lemma {:induction false} TreeReads(t: Tree, del: seq<byte>, rest: seq<byte>,
                                     i: nat, depth: nat, dims: seq<nat>, elems: seq<Elem>)
    requires |del| >= 1 && TreeOk(t, del, rest) && (t.Leaf? ==> Stops(del, rest))
    requires Counted(depth, dims) && Levels(t, |dims| - depth)
    ensures Counted(depth, Recount(t, depth, dims))
    ensures Element(Show(t, del) + rest, i, del, depth, dims, elems) ==
            Delims(rest, i + |Show(t, del)|, del, depth, Recount(t, depth, dims), elems + Leaves(t))
    decreases t, 0
  {
    hide Element, Delims, ItemAt, Finish;
    RecountCounted(t, depth, dims);
    var s := Show(t, del) + rest;
    ElementStep(s, i, del, depth, dims, elems);
    match t {
      case Leaf(token) =>
        TokenReads(token, del, rest);
      case Gap =>
        assert s == rest && elems + [] == elems;
      case Node(kids) =>
        var reset := dims[depth := 0];
        assert s[1..] == ShowKids(kids, del) + ([CLOSE] + rest);
        assert Counted(depth + 1, reset);
        KidsRead(kids, del, rest, i + 1, depth + 1, reset, elems);
    }
  }

  lemma MoreShows(t: Tree, rest: Kids, del: seq<byte>, after: seq<byte>)
    ensures del + ShowKids(rest, del) + after == del + (ShowKids(rest, del) + after)
    ensures ShowKids(More(t, rest), del) + after == Show(t, del) + (del + (ShowKids(rest, del) + after))
  {
    var shown := ShowKids(rest, del);
    Reassociate(del, shown, after);
    Reassociate(Show(t, del), del, shown);
    Reassociate(Show(t, del), del + shown, after);
  }

  lemma {:induction false} KidsRead(kids: Kids, del: seq<byte>, rest: seq<byte>,
                                    i: nat, depth: nat, dims: seq<nat>, elems: seq<Elem>)
    requires |del| >= 1 && KidsOk(kids, del, [CLOSE] + rest)
    requires depth >= 1 && Counted(depth, dims) && KidsLevels(kids, |dims| - depth)
    ensures Counted(depth - 1, RecountKids(kids, depth, dims))
    ensures Element(ShowKids(kids, del) + ([CLOSE] + rest), i, del, depth, dims, elems) ==
            Delims(rest, i + |ShowKids(kids, del)| + 1, del, depth - 1, RecountKids(kids, depth, dims),
                   elems + KidsLeaves(kids))
    decreases kids, 1
  {
    hide Element, Delims, ItemAt, Finish;
    var t := kids.kid;
    var first := Recount(t, depth, dims);
    var counted := first[depth - 1 := first[depth - 1] + 1];
    var i' := i + |Show(t, del)|;
    var elems' := elems + Leaves(t);
    var closing := [CLOSE] + rest;
    match kids {
      case Last(_) =>
        TreeReads(t, del, closing, i, depth, dims, elems);
        assert closing[1..] == rest;
        DelimsStep(closing, i', del, depth, first, elems');
      case More(_, others) =>
        var remaining := ShowKids(others, del) + closing;
        var after := del + remaining;
        MoreShows(t, others, del, closing);
        TreeReads(t, del, after, i, depth, dims, elems);
        assert after[|del|..] == remaining;
        DelimsStep(after, i', del, depth, first, elems');
        KidsRead(others, del, rest, i' + |del|, depth, counted, elems');
        assert i' + |del| + |ShowKids(others, del)| + 1 == i + |ShowKids(kids, del)| + 1;
        assert elems' + KidsLeaves(others) == elems + KidsLeaves(kids);
        assert RecountKids(kids, depth, dims) == RecountKids(others, depth, counted);
    }
  }

  // ----- and reads nothing else -----

  /** The machine got through the syntax: it succeeded, or only the sizes did not divide. */
  predicate Balanced(r: Outcome) {
    r.Ok? || r == Err(Ragged)
  }

  /** Inside braces, a run that gets through finds a delimiter or a closing brace after each entry. */
  lemma DelimsStops(s: seq<byte>, i: nat, del: seq<byte>, depth: nat, dims: seq<nat>, elems: seq<Elem>)
    requires |del| >= 1 && depth >= 1 && Counted(depth, dims)
    requires Balanced(Delims(s, i, del, depth, dims, elems))
    ensures Stops(del, s)
  {
  }

  lemma {:induction false} ElementIsTree(s: seq<byte>, i: nat, del: seq<byte>, depth: nat, dims: seq<nat>, elems: seq<Elem>)
    returns (t: Tree, rest: seq<byte>)
    requires |del| >= 1 && depth >= 1 && Counted(depth, dims)
    requires Balanced(Element(s, i, del, depth, dims, elems))
    ensures TreeOk(t, del, rest) && Stops(del, rest)
    ensures s == Show(t, del) + rest && Levels(t, |dims| - depth)
    decreases |s|, 0
  {
    hide Element, Delims, ItemAt;
    ElementStep(s, i, del, depth, dims, elems);
    if s[0] == OPEN && depth == |dims| {
      DelimsStops(s, i, del, depth, dims, elems);
      t, rest := Gap, s;
    } else if s[0] == OPEN {
      var reset := dims[depth := 0];
      var kids;
      kids, rest := ElementIsKids(s[1..], i + 1, del, depth + 1, reset, elems);
      t := Node(kids);
      assert s == [OPEN] + s[1..] == Show(t, del) + rest;
      TreeReads(t, del, rest, i, depth, dims, elems);
      DelimsStops(rest, i + |Show(t, del)|, del, depth, Recount(t, depth, dims), elems + Leaves(t));
    } else {
      var item := ItemAt(s, del);
      rest := item.rest;
      DelimsStops(rest, i + (|s| - |rest|), del, depth, dims, elems + [item.elem]);
      var token := ItemIsToken(s, del);
      t := Leaf(token);
    }
  }

  lemma {:induction false} ElementIsKids(s: seq<byte>, i: nat, del: seq<byte>, depth: nat, dims: seq<nat>, elems: seq<Elem>)
    returns (kids: Kids, rest: seq<byte>)
    requires |del| >= 1 && depth >= 1 && Counted(depth, dims)
    requires Balanced(Element(s, i, del, depth, dims, elems))
    ensures KidsOk(kids, del, [CLOSE] + rest)
    ensures s == ShowKids(kids, del) + ([CLOSE] + rest) && KidsLevels(kids, |dims| - depth)
    decreases |s|, 1
  {
    hide Element, Delims, ItemAt;
    var t, next := ElementIsTree(s, i, del, depth, dims, elems);
    TreeReads(t, del, next, i, depth, dims, elems);
    var i', first, elems' := i + |Show(t, del)|, Recount(t, depth, dims), elems + Leaves(t);
    DelimsStep(next, i', del, depth, first, elems');
    if del <= next {
      var counted := first[depth - 1 := first[depth - 1] + 1];
      var others;
      others, rest := ElementIsKids(next[|del|..], i' + |del|, del, depth, counted, elems');
      kids := More(t, others);
      assert next == del + next[|del|..];
      MoreShows(t, others, del, [CLOSE] + rest);
    } else {
      kids, rest := Last(t), next[1..];
      assert next == [CLOSE] + rest;
    }
  }

  // ----- whole inputs -----

  /** The loop labelled Open does what label Element would do from depth zero. */
  lemma {:induction false} OpenIsElement(src: seq<byte>, del: seq<byte>, j: nat)
    requires |del| >= 1 && j <= LeadingOpens(src)
    ensures var k := LeadingOpens(src);
            && Counted(j, Repeat(0, j) + Repeat(1, k - j))
            && Element(src, 0, del, 0, Repeat(1, k), []) ==
               Element(src[j..], j, del, j, Repeat(0, j) + Repeat(1, k - j), [])
  {
    hide Element, Delims, ItemAt, Finish;
    var k := LeadingOpens(src);
    if j == 0 {
      assert src[0..] == src && Repeat(0, 0) + Repeat(1, k) == Repeat(1, k);
    } else {
      OpenIsElement(src, del, j - 1);
      var dims := Repeat(0, j - 1) + Repeat(1, k - (j - 1));
      ElementStep(src[j - 1..], j - 1, del, j - 1, dims, []);
      assert src[j - 1..][1..] == src[j..];
      assert dims[j - 1 := 0] == Repeat(0, j) + Repeat(1, k - j);
    }
  }

  lemma ParseIsElement(src: seq<byte>, del: seq<byte>)
    requires |del| >= 1 && src != [] && src[0] == OPEN
    requires var k := LeadingOpens(src); k < |src| ==> src[k] != CLOSE
    ensures Parse(src, del) == Element(src, 0, del, 0, Repeat(1, LeadingOpens(src)), [])
  {
    hide Element, Delims, ItemAt, Finish;
    var k := LeadingOpens(src);
    OpenIsElement(src, del, k);
    assert Repeat(0, k) + Repeat(1, 0) == Repeat(0, k);
  }

  /** What follows the first entry of a node, after being what follows the last. */
  function Following(kids: Kids, del: seq<byte>, after: seq<byte>): seq<byte> {
    match kids
    case Last(_) => after
    case More(_, rest) => del + ShowKids(rest, del) + after
  }

  lemma FirstShows(kids: Kids, del: seq<byte>, after: seq<byte>)
    ensures ShowKids(kids, del) + after == Show(kids.kid, del) + Following(kids, del, after)
  {
    if kids.More? {
      MoreShows(kids.kid, kids.rest, del, after);
    }
  }

  lemma FirstEntry(kids: Kids, del: seq<byte>, rest: seq<byte>)
    ensures var s := Show(Node(kids), del) + rest;
            s[0] == OPEN && s[1..] == Show(kids.kid, del) + Following(kids, del, [CLOSE] + rest)
  {
    var closing := [CLOSE] + rest;
    assert (Show(Node(kids), del) + rest)[1..] == ShowKids(kids, del) + closing;
    FirstShows(kids, del, closing);
  }

  /** The first leaf comes right after the opening braces. */
  lemma {:induction false} TextOpens(t: Tree, del: seq<byte>, rest: seq<byte>)
    requires TreeOk(t, del, rest) && FirstSolid(t)
    ensures var s, k := Show(t, del) + rest, Spine(t);
            LeadingOpens(s) == k && k < |s| && s[k] != CLOSE
  {
    var s := Show(t, del) + rest;
    if t.Node? {
      FirstEntry(t.kids, del, rest);
      TextOpens(t.kids.kid, del, Following(t.kids, del, [CLOSE] + rest));
    }
  }

  /** When the first entry is missing, what follows it opens one more brace than there are
      levels. */
  lemma {:induction false} GapOpens(t: Tree, del: seq<byte>, rest: seq<byte>, room: nat)
    requires TreeOk(t, del, rest) && !FirstSolid(t) && Levels(t, room)
    ensures LeadingOpens(Show(t, del) + rest) > room
  {
    var s := Show(t, del) + rest;
    if t.Node? {
      FirstEntry(t.kids, del, rest);
      GapOpens(t.kids.kid, del, Following(t.kids, del, [CLOSE] + rest), room - 1);
    } else {
      assert s == rest;
    }
  }

  lemma RecountIsDims(t: Tree)
    requires Spined(t)
    ensures var dims := Recount(t, 0, Repeat(1, Spine(t)));
            DimsOf(t, dims) && Counted(0, dims)
  {
    var ones := Repeat(1, Spine(t));
    RecountCounted(t, 0, ones);
    forall j | 0 <= j < Spine(t) ensures ArityAt(t, j) != [] && Recount(t, 0, ones)[j] == LastArity(t, j) {
      SpineHasArity(t, j);
      RecountIs(t, 0, ones, j);
    }
  }

  /** Completeness: the text of a tree parses to its leaves, unless the sizes do not divide. */
  lemma TextParses(src: seq<byte>, del: seq<byte>, t: Tree, dims: seq<nat>)
    requires |del| >= 1
    requires IsTextOf(src, del, t) && DimsOf(t, dims)
    ensures Parse(src, del) ==
            if AllDivide(dims, |Leaves(t)|) then Ok(Parsed(dims, Leaves(t))) else Err(Ragged)
  {
    hide Element, ItemAt;
    var k := Spine(t);
    assert src == src + [];
    TextOpens(t, del, []);
    ParseIsElement(src, del);
    TreeReads(t, del, [], 0, 0, Repeat(1, k), []);
    var counts := Recount(t, 0, Repeat(1, k));
    RecountIsDims(t);
    assert counts == dims;
    assert [] + Leaves(t) == Leaves(t);
    DelimsStep([], |src|, del, 0, dims, Leaves(t));
  }

  /** The opening braces are followed at once by a closing one. */
  predicate ClosesAtOnce(src: seq<byte>) {
    var k := LeadingOpens(src);
    k < |src| && src[k] == CLOSE
  }

  /** Soundness: an input that gets through the syntax and is not only braces is the text of a
      tree. */
  lemma BalancedIsText(src: seq<byte>, del: seq<byte>) returns (t: Tree)
    requires |del| >= 1 && Balanced(Parse(src, del)) && !ClosesAtOnce(src)
    ensures IsTextOf(src, del, t)
  {
    hide Element, Delims, ItemAt;
    var k := LeadingOpens(src);
    var ones := Repeat(1, k);
    ParseIsElement(src, del);
    ElementStep(src, 0, del, 0, ones, []);
    var kids, rest := ElementIsKids(src[1..], 1, del, 1, ones[0 := 0], []);
    t := Node(kids);
    assert src == [OPEN] + src[1..] == Show(t, del) + rest;
    TreeReads(t, del, rest, 0, 0, ones, []);
    DelimsStep(rest, |Show(t, del)|, del, 0, Recount(t, 0, ones), [] + Leaves(t));
    assert rest == [];
    assert src == Show(t, del);
    if FirstSolid(t) {
      TextOpens(t, del, []);
    } else {
      GapOpens(t, del, [], k);
    }
  }

  lemma ParsesIsText(src: seq<byte>, del: seq<byte>) returns (t: Tree)
    requires |del| >= 1 && Parse(src, del).Ok? && !ClosesAtOnce(src)
    ensures IsTextOf(src, del, t) && DimsOf(t, Parse(src, del).value.dims)
    ensures Parse(src, del).value.elems == Leaves(t) && AllDivide(Parse(src, del).value.dims, |Leaves(t)|)
  {
    hide Parse, DimsOf, Leaves, AllDivide;
    t := BalancedIsText(src, del);
    RecountIsDims(t);
    TextParses(src, del, t, Recount(t, 0, Repeat(1, Spine(t))));
  }

  lemma {:induction false} CloseEmptyIs(s: seq<byte>, i: nat, depth: nat)
    ensures CloseEmpty(s, i, depth).Ok? <==> s == seq(depth, _ => CLOSE)
    ensures CloseEmpty(s, i, depth).Ok? ==> CloseEmpty(s, i, depth).value == Parsed([], [])
  {
    if s != [] && s[0] == CLOSE && depth > 0 {
      CloseEmptyIs(s[1..], i + 1, depth - 1);
      assert s == [CLOSE] + s[1..];
      assert seq(depth, _ => CLOSE) == [CLOSE] + seq(depth - 1, _ => CLOSE);
      if s == seq(depth, _ => CLOSE) {
        assert s[1..] == seq(depth - 1, _ => CLOSE);
      }
    }
  }

  lemma {:induction false} EmptyOpens(s: seq<byte>, k: nat)
    requires k < |s| && (forall j :: 0 <= j < k ==> s[j] == OPEN) && s[k] != OPEN
    ensures LeadingOpens(s) == k
  {
    if k > 0 {
      EmptyOpens(s[1..], k - 1);
    }
  }

  /** An input that parses to no elements consists of braces only, as many closing as opening. */
  lemma EmptyParses(src: seq<byte>, del: seq<byte>, k: nat)
    requires |del| >= 1 && k >= 1 && src == Empty(k)
    ensures Parse(src, del) == Ok(Parsed([], []))
  {
    EmptyOpens(src, k);
    assert src[k..] == seq(k, _ => CLOSE);
    CloseEmptyIs(src[k..], k, k);
  }

  lemma ParsesIsEmpty(src: seq<byte>, del: seq<byte>)
    requires |del| >= 1 && Parse(src, del).Ok? && ClosesAtOnce(src)
    ensures Parse(src, del).value == Parsed([], []) && LeadingOpens(src) >= 1 && src == Empty(LeadingOpens(src))
  {
    var k := LeadingOpens(src);
    CloseEmptyIs(src[k..], k, k);
    assert src == src[..k] + src[k..];
    assert src[..k] == seq(k, _ => OPEN);
  }

  /** The exact language, for every delimiter: parseArray succeeds with these dimensions and
      elements if and only if the grammar gives the input this meaning. */
  lemma ParseExact(src: seq<byte>, del: seq<byte>, dims: seq<nat>, elems: seq<Elem>)
    requires |del| >= 1
    ensures Parse(src, del) == Ok(Parsed(dims, elems)) <==> Denotes(src, del, dims, elems)
  {
    hide Parse, Spined, TreeOk, Show, DimsOf, Leaves, AllDivide;
    if Parse(src, del) == Ok(Parsed(dims, elems)) {
      if ClosesAtOnce(src) {
        ParsesIsEmpty(src, del);
      } else {
        var t := ParsesIsText(src, del);
      }
    }
    if Denotes(src, del, dims, elems) {
      if k: nat :| dims == [] && elems == [] && k >= 1 && src == Empty(k) {
        EmptyParses(src, del, k);
      } else {
        var t :| IsTextOf(src, del, t) && DimsOf(t, dims) && elems == Leaves(t) && AllDivide(dims, |elems|);
        TextParses(src, del, t, dims);
      }
    }
  }

  // ----- printed trees that do not parse -----

  /** A tree that is deeper than the dimensions allow stops the parser with an error. */
  lemma {:induction false} DeepTreeFails(t: Tree, del: seq<byte>, rest: seq<byte>,
                                         i: nat, depth: nat, dims: seq<nat>, elems: seq<Elem>)
    requires |del| >= 1 && del[0] != OPEN && TreeOk(t, del, rest)
    requires Counted(depth, dims) && !Levels(t, |dims| - depth)
    ensures Element(Show(t, del) + rest, i, del, depth, dims, elems).Err?
    decreases t, 0
  {
    hide Element, Delims, ItemAt, Finish;
    var s := Show(t, del) + rest;
    ElementStep(s, i, del, depth, dims, elems);
    DelimsStep(s, i, del, depth, dims, elems);
    if t.Node? && depth < |dims| {
      assert s[1..] == ShowKids(t.kids, del) + ([CLOSE] + rest);
      DeepKidsFail(t.kids, del, rest, i + 1, depth + 1, dims[depth := 0], elems);
    }
  }

  lemma {:induction false} DeepKidsFail(kids: Kids, del: seq<byte>, rest: seq<byte>,
                                        i: nat, depth: nat, dims: seq<nat>, elems: seq<Elem>)
    requires |del| >= 1 && del[0] != OPEN && KidsOk(kids, del, [CLOSE] + rest)
    requires depth >= 1 && Counted(depth, dims) && !KidsLevels(kids, |dims| - depth)
    ensures Element(ShowKids(kids, del) + ([CLOSE] + rest), i, del, depth, dims, elems).Err?
    decreases kids, 1
  {
    hide Element, Delims, ItemAt, Finish;
    var t, closing := kids.kid, [CLOSE] + rest;
    var s := ShowKids(kids, del) + closing;
    var next := Following(kids, del, closing);
    FirstShows(kids, del, closing);
    if !Levels(t, |dims| - depth) {
      DeepTreeFails(t, del, next, i, depth, dims, elems);
    } else {
      var remaining := ShowKids(kids.rest, del) + closing;
      Reassociate(del, ShowKids(kids.rest, del), closing);
      TreeReads(t, del, next, i, depth, dims, elems);
      var i', first, elems' := i + |Show(t, del)|, Recount(t, depth, dims), elems + Leaves(t);
      DelimsStep(next, i', del, depth, first, elems');
      assert next[|del|..] == remaining;
      DeepKidsFail(kids.rest, del, rest, i' + |del|, depth, first[depth - 1 := first[depth - 1] + 1], elems');
    }
  }

  lemma {:induction false} NoGapFirst(t: Tree, del: seq<byte>, rest: seq<byte>)
    requires |del| >= 1 && del[0] != OPEN && TreeOk(t, del, rest)
    ensures FirstSolid(t)
  {
    if t.Node? {
      NoGapFirst(t.kids.kid, del, Following(t.kids, del, [CLOSE] + rest));
    }
  }

  /** Exactly which texts of trees parse: those whose first leaf is among the deepest and whose
      last node at each level has a size that divides the number of leaves. A delimiter that
      begins with an opening brace is left to ParseExact: with it a text can be that of two trees. */
  lemma ShowParses(t: Tree, del: seq<byte>)
    requires |del| >= 1 && del[0] != OPEN && t.Node? && TreeOk(t, del, [])
    ensures Parse(Show(t, del), del).Ok? <==> Parsable(t)
  {
    hide Parse, Element, Delims, TreeOk, Show, Leaves;
    var k := Spine(t);
    NoGapFirst(t, del, []);
    if Spined(t) {
      var counts := Recount(t, 0, Repeat(1, k));
      RecountIsDims(t);
      TextParses(Show(t, del), del, t, counts);
      if dims :| DimsOf(t, dims) && AllDivide(dims, |Leaves(t)|) {
        assert dims == counts;
      }
    } else {
      assert Show(t, del) + [] == Show(t, del);
      TextOpens(t, del, []);
      assert Show(t, del)[0] == OPEN;
      ParseIsElement(Show(t, del), del);
      DeepTreeFails(t, del, [], 0, 0, Repeat(1, k), []);
    }
  }

  /** The parser complains about sizes exactly when the syntax is that of a tree and the size
      of a last node does not divide the number of leaves. */
  lemma RaggedExact(src: seq<byte>, del: seq<byte>)
    requires |del| >= 1
    ensures Parse(src, del) == Err(Ragged) <==>
            exists t: Tree, dims: seq<nat> :: IsTextOf(src, del, t) && DimsOf(t, dims) && !AllDivide(dims, |Leaves(t)|)
  {
    hide Parse, DimsOf, Leaves, AllDivide;
    if Parse(src, del) == Err(Ragged) {
      if ClosesAtOnce(src) {
        BracesNotRagged(src, del);
      }
      var t := BalancedIsText(src, del);
      RecountIsDims(t);
      var dims := Recount(t, 0, Repeat(1, Spine(t)));
      TextParses(src, del, t, dims);
      assert IsTextOf(src, del, t) && DimsOf(t, dims) && !AllDivide(dims, |Leaves(t)|);
    }
    if t: Tree, dims: seq<nat> :| IsTextOf(src, del, t) && DimsOf(t, dims) && !AllDivide(dims, |Leaves(t)|) {
      TextParses(src, del, t, dims);
    }
  }

  lemma BracesNotRagged(src: seq<byte>, del: seq<byte>)
    requires |del| >= 1 && ClosesAtOnce(src)
    ensures Parse(src, del) != Err(Ragged)
  {
    CloseEmptyFails(src[LeadingOpens(src)..], LeadingOpens(src), LeadingOpens(src));
  }

  lemma {:induction false} CloseEmptyFails(s: seq<byte>, i: nat, depth: nat)
    ensures CloseEmpty(s, i, depth) != Err(Ragged)
  {
    if s != [] && s[0] == CLOSE && depth > 0 {
      CloseEmptyFails(s[1..], i + 1, depth - 1);
    }
  }

  // ----- where errors point -----

  /** An error names the byte it stands on, or the end of the input. */
  predicate Located(r: Outcome, src: seq<byte>) {
    match r
    case Err(Unexpected(b, offset)) => offset < |src| && src[offset] == b
    case Err(ExpectedClose(offset)) => offset == |src|
    case _ => r != Err(ExpectedOpen)
  }

  lemma {:induction false} ElementLocated(src: seq<byte>, i: nat, del: seq<byte>,
                                          depth: nat, dims: seq<nat>, elems: seq<Elem>)
    requires |del| >= 1 && Counted(depth, dims) && i <= |src|
    ensures Located(Element(src[i..], i, del, depth, dims, elems), src)
    decreases |src| - i, 1
  {
    hide Element, Delims, ItemAt;
    var s := src[i..];
    ElementStep(s, i, del, depth, dims, elems);
    if s != [] {
      if s[0] == OPEN && depth == |dims| {
        DelimsLocated(src, i, del, depth, dims, elems);
      } else if s[0] == OPEN {
        assert s[1..] == src[i + 1..];
        ElementLocated(src, i + 1, del, depth + 1, dims[depth := 0], elems);
      } else if ItemAt(s, del).Read? {
        var item := ItemAt(s, del);
        var n := |s| - |item.rest|;
        ItemRestIsSuffix(s, del);
        assert item.rest == src[i + n..];
        DelimsLocated(src, i + n, del, depth, dims, elems + [item.elem]);
      }
    }
  }

  lemma ItemRestIsSuffix(s: seq<byte>, del: seq<byte>)
    requires s != [] && ItemAt(s, del).Read?
    ensures var rest := ItemAt(s, del).rest; |rest| < |s| && rest == s[|s| - |rest|..]
  {
    hide BareLength;
    if s[0] == QUOTE {
      var rest := ItemAt(s, del).rest;
      assert rest == s[1..][|s| - 1 - |rest|..];
    }
  }

  lemma {:induction false} DelimsLocated(src: seq<byte>, i: nat, del: seq<byte>,
                                         depth: nat, dims: seq<nat>, elems: seq<Elem>)
    requires |del| >= 1 && Counted(depth, dims) && i <= |src|
    ensures Located(Delims(src[i..], i, del, depth, dims, elems), src)
    decreases |src| - i, 0
  {
    hide Element, Delims, ItemAt;
    var s := src[i..];
    DelimsStep(s, i, del, depth, dims, elems);
    if s != [] && depth > 0 {
      var counted := dims[depth - 1 := dims[depth - 1] + 1];
      if del <= s {
        assert s[|del|..] == src[i + |del|..];
        ElementLocated(src, i + |del|, del, depth, counted, elems);
      } else if s[0] == CLOSE {
        assert s[1..] == src[i + 1..];
        DelimsLocated(src, i + 1, del, depth - 1, counted, elems);
      }
    }
  }

  lemma {:induction false} CloseEmptyLocated(src: seq<byte>, i: nat, depth: nat)
    requires i <= |src|
    ensures Located(CloseEmpty(src[i..], i, depth), src)
    decreases |src| - i
  {
    if i < |src| && src[i] == CLOSE && depth > 0 {
      assert src[i..][1..] == src[i + 1..];
      CloseEmptyLocated(src, i + 1, depth - 1);
    }
  }

  /** Every error of the parser points at the input: the missing opening brace exactly when there
      is none, an unexpected byte that stands there, or a missing closing brace at the end. */
  lemma ErrorsLocated(src: seq<byte>, del: seq<byte>)
    requires |del| >= 1
    ensures Parse(src, del) == Err(ExpectedOpen) <==> src == [] || src[0] != OPEN
    ensures Parse(src, del) != Err(ExpectedOpen) ==> Located(Parse(src, del), src)
  {
    hide Element, Delims, ItemAt;
    if src != [] && src[0] == OPEN {
      var k := LeadingOpens(src);
      if ClosesAtOnce(src) {
        CloseEmptyLocated(src, k, k);
      } else {
        ElementLocated(src, k, del, k, Repeat(0, k), []);
      }
    }
  }

  /** The grammar is unambiguous: a text denotes one list of elements and one shape. */
  lemma DenotesUnique(src: seq<byte>, del: seq<byte>, dims: seq<nat>, elems: seq<Elem>, dims': seq<nat>, elems': seq<Elem>)
    requires |del| >= 1
    requires Denotes(src, del, dims, elems) && Denotes(src, del, dims', elems')
    ensures dims == dims' && elems == elems'
  {
    ParseExact(src, del, dims, elems);
    ParseExact(src, del, dims', elems');
  }
}
