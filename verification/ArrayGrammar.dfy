/** The array text format as a grammar of trees, independent of the parser: what a text is,
    which elements it denotes and how many entries its braces hold. */
module ArrayGrammar {
  import opened Bytes

  datatype Unit = Plain(b: byte) | Escaped(b: byte)

  datatype Token = QuotedToken(units: seq<Unit>) | BareToken(text: seq<byte>)

  /** Gap is an entry that is not there: only a delimiter that begins with an opening brace
      makes room for one. */
  datatype Tree = Leaf(token: Token) | Gap | Node(kids: Kids)

  /** The entries between two braces: at least one. */
  datatype Kids = Last(kid: Tree) | More(kid: Tree, rest: Kids)

  // ----- the text of a tree -----

  function ShowUnit(u: Unit): seq<byte> {
    match u
    case Plain(b) => [b]
    case Escaped(b) => [BACKSLASH, b]
  }

  function ShowUnits(us: seq<Unit>): seq<byte> {
    if us == [] then [] else ShowUnit(us[0]) + ShowUnits(us[1..])
  }

  function ShowToken(token: Token): seq<byte> {
    match token
    case QuotedToken(us) => [QUOTE] + ShowUnits(us) + [QUOTE]
    case BareToken(text) => text
  }

  function Show(t: Tree, del: seq<byte>): seq<byte> {
    match t
    case Leaf(token) => ShowToken(token)
    case Gap => []
    case Node(kids) => [OPEN] + ShowKids(kids, del) + [CLOSE]
  }

  function ShowKids(kids: Kids, del: seq<byte>): seq<byte> {
    match kids
    case Last(t) => Show(t, del)
    case More(t, rest) => Show(t, del) + del + ShowKids(rest, del)
  }

  // ----- which trees are texts of the language -----

  /** A token is read up to the next delimiter or closing brace in the text, of which after is
      the part that follows it. An unquoted one must not contain either, nor begin like a quoted
      element or a nested array. */
  predicate TokenOk(token: Token, del: seq<byte>, after: seq<byte>) {
    match token
    case QuotedToken(us) =>
      forall k :: 0 <= k < |us| && us[k].Plain? ==> us[k].b != QUOTE && us[k].b != BACKSLASH
    case BareToken(text) =>
      && text != [] && text[0] != OPEN && text[0] != QUOTE
      && forall j :: 0 <= j < |text| ==> text[j] != CLOSE && !(del <= (text + after)[j..])
  }

  /** after is the text that follows the tree. */
  predicate TreeOk(t: Tree, del: seq<byte>, after: seq<byte>)
    decreases t, 0
  {
    match t
    case Leaf(token) => TokenOk(token, del, after)
    case Gap => after != [] && after[0] == OPEN && del <= after
    case Node(kids) => KidsOk(kids, del, [CLOSE] + after)
  }

  /** after begins with the brace that closes the node. A delimiter that begins with a closing
      brace must not be found there. */
  predicate KidsOk(kids: Kids, del: seq<byte>, after: seq<byte>)
    decreases kids, 1
  {
    match kids
    case Last(t) => TreeOk(t, del, after) && !(del <= after)
    case More(t, rest) => TreeOk(t, del, del + ShowKids(rest, del) + after) && KidsOk(rest, del, after)
  }

  // ----- what a tree denotes -----

  function UnitsValue(us: seq<Unit>): (v: seq<byte>)
    ensures |v| == |us|
  {
    if us == [] then [] else [us[0].b] + UnitsValue(us[1..])
  }

  function TokenElem(token: Token): Elem {
    match token
    case QuotedToken(us) => Text(UnitsValue(us))
    case BareToken(text) => BareElem(text)
  }

  function Leaves(t: Tree): seq<Elem> {
    match t
    case Leaf(token) => [TokenElem(token)]
    case Gap => []
    case Node(kids) => KidsLeaves(kids)
  }

  function KidsLeaves(kids: Kids): seq<Elem> {
    match kids
    case Last(t) => Leaves(t)
    case More(t, rest) => Leaves(t) + KidsLeaves(rest)
  }

  function Arity(kids: Kids): nat {
    if kids.Last? then 1 else 1 + Arity(kids.rest)
  }

  /** The arities of the nodes at depth j, in the order of the text. */
  function ArityAt(t: Tree, j: nat): seq<nat> {
    match t
    case Leaf(_) => []
    case Gap => []
    case Node(kids) => if j == 0 then [Arity(kids)] else KidsArityAt(kids, j - 1)
  }

  function KidsArityAt(kids: Kids, j: nat): seq<nat> {
    match kids
    case Last(t) => ArityAt(t, j)
    case More(t, rest) => ArityAt(t, j) + KidsArityAt(rest, j)
  }

  /** How many braces open before the first leaf. */
  function Spine(t: Tree): nat {
    if t.Node? then 1 + Spine(t.kids.kid) else 0
  }

  /** The first leaf is a token. */
  predicate FirstSolid(t: Tree) {
    if t.Node? then FirstSolid(t.kids.kid) else t.Leaf?
  }

  /** The tree has no more than room levels of nodes, and entries are missing only at the last. */
  predicate Levels(t: Tree, room: nat)
    decreases t, 0
  {
    match t
    case Leaf(_) => true
    case Gap => room == 0
    case Node(kids) => room >= 1 && KidsLevels(kids, room - 1)
  }

  predicate KidsLevels(kids: Kids, room: nat)
    decreases kids, 1
  {
    match kids
    case Last(t) => Levels(t, room)
    case More(t, rest) => Levels(t, room) && KidsLevels(rest, room)
  }

  /** No leaf lies deeper than the first one: the parser takes the number of dimensions from
      the first leaf alone. */
  predicate Spined(t: Tree) {
    FirstSolid(t) && Levels(t, Spine(t))
  }

  lemma {:induction false} SpineHasArity(t: Tree, j: nat)
    requires j < Spine(t)
    ensures ArityAt(t, j) != []
  {
    if j > 0 {
      SpineHasArity(t.kids.kid, j - 1);
    }
  }

  /** The number of entries of the last node at depth j. */
  function LastArity(t: Tree, j: nat): nat
    requires ArityAt(t, j) != []
  {
    var counts := ArityAt(t, j);
    counts[|counts| - 1]
  }

  /** dims holds, for every level of the first leaf, the size of the last node there. */
  predicate DimsOf(t: Tree, dims: seq<nat>) {
    && |dims| == Spine(t)
    && forall j :: 0 <= j < |dims| ==> ArityAt(t, j) != [] && dims[j] == LastArity(t, j)
  }

  predicate AllDivide(dims: seq<nat>, n: nat) {
    forall j :: 0 <= j < |dims| ==> dims[j] >= 1 && n % dims[j] == 0
  }

  /** The first leaf is among the deepest and the last sizes divide the number of leaves. */
  ghost predicate Parsable(t: Tree) {
    Spined(t) && exists dims :: DimsOf(t, dims) && AllDivide(dims, |Leaves(t)|)
  }

  /** A delimiter that has nothing to do with braces. */
  predicate GoodDelimiter(del: seq<byte>) {
    && |del| >= 1
    && del[0] != OPEN
    && CLOSE !in del
  }

  /** The text src denotes the elements elems with dimensions dims. */
  ghost predicate Denotes(src: seq<byte>, del: seq<byte>, dims: seq<nat>, elems: seq<Elem>) {
    || (dims == [] && elems == [] && exists k: nat :: k >= 1 && src == Empty(k))
    || exists t: Tree :: IsTextOf(src, del, t) && DimsOf(t, dims) && elems == Leaves(t) && AllDivide(dims, |elems|)
  }

  /** An array without elements: only braces. */
  function Empty(k: nat): seq<byte> {
    seq(k, _ => OPEN) + seq(k, _ => CLOSE)
  }

  predicate IsTextOf(src: seq<byte>, del: seq<byte>, t: Tree) {
    t.Node? && TreeOk(t, del, []) && Spined(t) && src == Show(t, del)
  }
}
