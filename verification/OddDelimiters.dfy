/** Delimiters a caller can choose but should not: the empty one, with which the parser does not
    end on some inputs, and those that begin with an opening brace, with which a text can be read
    in two ways. */
module OddDelimiters {
  import opened Bytes
  import opened ArrayParser
  import opened ArrayGrammar
  import opened ArrayLanguage

  // ----- the goto machine, one jump at a time -----

  /** Where the machine is: at label Element, in the loop that follows, or done. */
  datatype Config =
    | AtElement(s: seq<byte>, i: nat, depth: nat, dims: seq<nat>, elems: seq<Elem>)
    | AtDelims(s: seq<byte>, i: nat, depth: nat, dims: seq<nat>, elems: seq<Elem>)
    | Halted(r: Outcome)

  predicate Sound(c: Config) {
    c.Halted? || Counted(c.depth, c.dims)
  }

  /** One step, for any delimiter. */
  function Step(c: Config, del: seq<byte>): (c': Config)
    requires Sound(c)
    ensures Sound(c')
  {
    match c
    case Halted(_) => c
    case AtElement(s, i, depth, dims, elems) =>
      if s == [] then Halted(Finish(i, depth, dims, elems))
      else if s[0] == OPEN then
        if depth == |dims| then AtDelims(s, i, depth, dims, elems)
        else AtElement(s[1..], i + 1, depth + 1, dims[depth := 0], elems)
      else (
        match ItemAt(s, del)
        case CutOff => Halted(Finish(i + |s|, depth, dims, elems))
        case Blank => Halted(Err(Unexpected(s[0], i)))
        case Read(elem, rest) => AtDelims(rest, i + (|s| - |rest|), depth, dims, elems + [elem])
      )
    case AtDelims(s, i, depth, dims, elems) =>
      if s == [] then Halted(Finish(i, depth, dims, elems))
      else if del <= s && depth > 0 then
        AtElement(s[|del|..], i + |del|, depth, dims[depth - 1 := dims[depth - 1] + 1], elems)
      else if s[0] == CLOSE && depth > 0 then
        AtDelims(s[1..], i + 1, depth - 1, dims[depth - 1 := dims[depth - 1] + 1], elems)
      else Halted(Err(Unexpected(s[0], i)))
  }

  function Steps(c: Config, del: seq<byte>, n: nat): (c': Config)
    requires Sound(c)
    ensures Sound(c')
    decreases n
  {
    if n == 0 then c else Steps(Step(c, del), del, n - 1)
  }

  /** The machine after the opening braces; label Close does not look at the delimiter. */
  function Start(src: seq<byte>): (c: Config)
    ensures Sound(c)
  {
    if src == [] || src[0] != OPEN then Halted(Err(ExpectedOpen))
    else
      var k := LeadingOpens(src);
      if ClosesAtOnce(src) then Halted(CloseEmpty(src[k..], k, k))
      else AtElement(src[k..], k, k, Repeat(0, k), [])
  }

  /** With a delimiter that is not empty the machine halts with the parser's result. */
  lemma MachineParses(src: seq<byte>, del: seq<byte>) returns (n: nat)
    requires |del| >= 1
    ensures Steps(Start(src), del, n) == Halted(Parse(src, del))
  {
    hide Element, Delims, ItemAt, Finish;
    var c := Start(src);
    if c.Halted? {
      n := 0;
    } else {
      n := MachineHalts(c, del);
    }
  }

  function Meaning(c: Config, del: seq<byte>): Outcome
    requires |del| >= 1 && Sound(c)
  {
    match c
    case Halted(r) => r
    case AtElement(s, i, depth, dims, elems) => Element(s, i, del, depth, dims, elems)
    case AtDelims(s, i, depth, dims, elems) => Delims(s, i, del, depth, dims, elems)
  }

  lemma {:induction false} MachineHalts(c: Config, del: seq<byte>) returns (n: nat)
    requires |del| >= 1 && Sound(c)
    ensures Steps(c, del, n) == Halted(Meaning(c, del))
    decreases if c.Halted? then 0 else |c.s| + 1, c.AtElement?
  {
    hide Element, Delims, ItemAt, Finish;
    if c.Halted? {
      n := 0;
    } else {
      if c.AtElement? {
        ElementStep(c.s, c.i, del, c.depth, c.dims, c.elems);
      } else {
        DelimsStep(c.s, c.i, del, c.depth, c.dims, c.elems);
      }
      var before := MachineHalts(Step(c, del), del);
      n := before + 1;
    }
  }

  // ----- the empty delimiter -----

  /** At full depth, some quoted elements and then an opening brace. */
  predicate Loops(s: seq<byte>)
    decreases |s|
  {
    && s != []
    && (s[0] == OPEN ||
        (s[0] == QUOTE && QuotedElem(s[1..], false, []).Terminated? && Loops(QuotedElem(s[1..], false, []).rest)))
  }

  /** The machine is at full depth before such a text. */
  predicate Caught(c: Config) {
    !c.Halted? && Loops(c.s) && 1 <= c.depth == |c.dims|
  }

  lemma {:induction false} CaughtForever(c: Config, n: nat)
    requires Sound(c) && Caught(c)
    ensures !Steps(c, [], n).Halted?
    decreases n
  {
    hide QuotedElem;
    if n > 0 {
      CaughtForever(Step(c, []), n - 1);
    }
  }

  lemma {:induction false} HaltsOtherwise(c: Config) returns (n: nat)
    requires c.AtElement? && 1 <= c.depth == |c.dims| && !Loops(c.s)
    ensures Steps(c, [], n).Halted? && Steps(c, [], n).r.Err?
    decreases |c.s|
  {
    hide QuotedElem;
    var next := Step(c, []);
    if next.Halted? {
      n := 1;
      assert Steps(c, [], 1) == Steps(next, [], 0);
    } else if next.s == [] {
      n := 2;
      assert Steps(c, [], 2) == Steps(next, [], 1) == Steps(Step(next, []), [], 0);
    } else {
      var before := HaltsOtherwise(Step(next, []));
      n := before + 2;
      assert Steps(c, [], n) == Steps(next, [], before + 1);
    }
  }

  /** With the empty delimiter the machine runs forever exactly on inputs that have at least one
      quoted element right after their opening braces, and an opening brace right after the last of
      these; on every other input with elements it halts with an error. */
  lemma EmptyDelimiterDiverges(src: seq<byte>)
    requires src != [] && src[0] == OPEN && !ClosesAtOnce(src)
    ensures Loops(src[LeadingOpens(src)..]) ==> forall n: nat :: !Steps(Start(src), [], n).Halted?
    ensures !Loops(src[LeadingOpens(src)..]) ==>
              exists n: nat :: Steps(Start(src), [], n).Halted? && Steps(Start(src), [], n).r.Err?
  {
    var c := Start(src);
    if Loops(c.s) {
      forall n: nat ensures !Steps(c, [], n).Halted? {
        CaughtForever(c, n);
      }
    } else {
      var n := HaltsOtherwise(c);
    }
  }

  // ----- a delimiter that begins with an opening brace -----

  /** Such a delimiter: its text is also that of a node. */
  const NODE_DELIMITER: seq<byte> := [OPEN, 0x78, CLOSE]

  function Letter(b: byte): Tree {
    Leaf(BareToken([b]))
  }

  lemma LetterReads(b: byte, after: seq<byte>)
    requires b != OPEN && b != QUOTE && b != CLOSE
    ensures TreeOk(Letter(b), NODE_DELIMITER, after)
    ensures Show(Letter(b), NODE_DELIMITER) == [b]
    ensures Leaves(Letter(b)) == [Text([b])]
  {
    assert ([b] + after)[0] == b;
  }

  /** The same list, with {x} as a node or as a delimiter between missing entries. */
  function NodeEntries(): Kids {
    More(Letter(0x61), More(Node(Last(Letter(0x78))), Last(Letter(0x62))))
  }

  function GapEntries(): Kids {
    More(Letter(0x61), More(Gap, More(Gap, Last(Letter(0x62)))))
  }

  /** {{...}{x}{c{x}d}} around either list. */
  function Outer(entries: Kids): Tree {
    Node(More(Node(entries), Last(Node(More(Letter(0x63), Last(Letter(0x64)))))))
  }

  lemma EntriesShow()
    ensures ShowKids(NodeEntries(), NODE_DELIMITER) == ShowKids(GapEntries(), NODE_DELIMITER)
  {
    var del := NODE_DELIMITER;
    LetterReads(0x61, []);
    LetterReads(0x62, []);
    LetterReads(0x78, []);
    assert Show(Node(Last(Letter(0x78))), del) == del;
    assert ShowKids(NodeEntries().rest, del) == del + del + [0x62];
    assert ShowKids(GapEntries().rest.rest, del) == del + [0x62];
    assert ShowKids(GapEntries().rest, del) == del + (del + [0x62]);
  }

  lemma NodeEntriesOk(after: seq<byte>)
    requires after != [] && after[0] == CLOSE
    ensures KidsOk(NodeEntries(), NODE_DELIMITER, after)
  {
    var del, kids := NODE_DELIMITER, NodeEntries();
    LetterReads(0x61, del + ShowKids(kids.rest, del) + after);
    LetterReads(0x78, [CLOSE] + (del + ShowKids(kids.rest.rest, del) + after));
    LetterReads(0x62, after);
    assert KidsOk(kids.rest.rest, del, after);
    assert KidsOk(kids.rest.kid.kids, del, [CLOSE] + (del + ShowKids(kids.rest.rest, del) + after));
    assert KidsOk(kids.rest, del, after);
  }

  lemma GapEntriesOk(after: seq<byte>)
    requires after != [] && after[0] == CLOSE
    ensures KidsOk(GapEntries(), NODE_DELIMITER, after)
  {
    var del, kids := NODE_DELIMITER, GapEntries();
    LetterReads(0x61, del + ShowKids(kids.rest, del) + after);
    LetterReads(0x62, after);
    assert KidsOk(kids.rest.rest.rest, del, after);
    assert KidsOk(kids.rest.rest, del, after);
    assert KidsOk(kids.rest, del, after);
  }

  lemma OuterOk(entries: Kids)
    requires forall after: seq<byte> :: after != [] && after[0] == CLOSE ==> KidsOk(entries, NODE_DELIMITER, after)
    ensures TreeOk(Outer(entries), NODE_DELIMITER, [])
  {
    var del, end := NODE_DELIMITER, [CLOSE] + [];
    var last := More(Letter(0x63), Last(Letter(0x64)));
    LetterReads(0x63, del + ShowKids(last.rest, del) + ([CLOSE] + end));
    LetterReads(0x64, [CLOSE] + end);
    assert KidsOk(last.rest, del, [CLOSE] + end);
    assert KidsOk(last, del, [CLOSE] + end);
    assert KidsOk(Last(Node(last)), del, end);
    assert KidsOk(entries, del, [CLOSE] + (del + ShowKids(Last(Node(last)), del) + end));
  }

  lemma OuterShow(entries: Kids, others: Kids)
    requires ShowKids(entries, NODE_DELIMITER) == ShowKids(others, NODE_DELIMITER)
    ensures Show(Outer(entries), NODE_DELIMITER) == Show(Outer(others), NODE_DELIMITER)
  {
    assert Show(Node(entries), NODE_DELIMITER) == Show(Node(others), NODE_DELIMITER);
  }

  lemma GapMeaning()
    ensures var t := Outer(GapEntries());
            t.Node? && Spined(t) && Spine(t) == 2 && |Leaves(t)| == 4 && ArityAt(t, 0) == [2] && ArityAt(t, 1) == [4, 2]
  {
    var kids := GapEntries();
    var last := More(Letter(0x63), Last(Letter(0x64)));
    assert KidsLeaves(kids.rest.rest) == KidsLeaves(kids.rest.rest.rest) && |KidsLeaves(kids.rest.rest.rest)| == 1;
    assert |KidsLeaves(kids)| == 2 && |KidsLeaves(last)| == 2;
    assert Arity(kids.rest.rest) == 2 && Arity(kids) == 4 && Arity(last) == 2;
    assert KidsArityAt(Last(Node(last)), 0) == [2] && ArityAt(Node(kids), 0) == [4];
    assert KidsLevels(kids.rest.rest, 0) && KidsLevels(kids, 0) && KidsLevels(last, 0);
    assert KidsLevels(Last(Node(last)), 1);
  }

  lemma DeepEntries()
    ensures Outer(NodeEntries()).Node? && !Spined(Outer(NodeEntries()))
  {
    assert !Levels(NodeEntries().rest.kid, 0);
    assert !KidsLevels(NodeEntries().rest, 0);
  }

  /** With such a delimiter a text can be that of two trees, of which the parser finds the one
      without the deeper node: it parses, although not as the tree it was shown for. */
  lemma TwoReadings()
    ensures var t, del := Outer(NodeEntries()), NODE_DELIMITER;
            t.Node? && TreeOk(t, del, []) && !Spined(t) && Parse(Show(t, del), del).Ok?
  {
    hide NodeEntries, GapEntries, Outer, TreeOk, Show, ShowKids, Parse, Spined, Spine, Leaves, ArityAt;
    var del, t := NODE_DELIMITER, Outer(GapEntries());
    forall after: seq<byte> | after != [] && after[0] == CLOSE
      ensures KidsOk(NodeEntries(), del, after) && KidsOk(GapEntries(), del, after)
    {
      NodeEntriesOk(after);
      GapEntriesOk(after);
    }
    hide KidsOk;
    OuterOk(NodeEntries());
    OuterOk(GapEntries());
    EntriesShow();
    OuterShow(NodeEntries(), GapEntries());
    GapMeaning();
    DeepEntries();
    TextParses(Show(t, del), del, t, [2, 2]);
  }
}
