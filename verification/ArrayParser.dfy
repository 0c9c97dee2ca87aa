/** The array text parser of dbarray.go: a functional account of its goto machine, one
    function per control point, and the imperative machine proved against it.

    Every function takes the unread input and the offset at which it starts; the offset
    only serves the error values. */
module ArrayParser {
  import opened Bytes

  datatype ParseError =
    | ExpectedOpen
    | Unexpected(found: byte, offset: nat)
    | ExpectedClose(offset: nat)
    | Ragged

  datatype Parsed = Parsed(dims: seq<nat>, elems: seq<Elem>)

  type Outcome = Result<Parsed, ParseError>

  datatype Quoted = Unterminated | Terminated(elem: seq<byte>, rest: seq<byte>)

  /** Every level that is not open has counted at least one element. */
  predicate Counted(depth: nat, dims: seq<nat>) {
    && depth <= |dims|
    && forall j :: depth <= j < |dims| ==> dims[j] >= 1
  }

  function Repeat(x: nat, n: nat): (s: seq<nat>)
    ensures |s| == n && forall j :: 0 <= j < n ==> s[j] == x
  {
    seq(n, _ => x)
  }

  /** How many opening braces the input starts with. */
  function LeadingOpens(s: seq<byte>): (n: nat)
    ensures n <= |s|
    ensures forall j :: 0 <= j < n ==> s[j] == OPEN
    ensures n < |s| ==> s[n] != OPEN
  {
    if s == [] || s[0] != OPEN then 0 else 1 + LeadingOpens(s[1..])
  }

  /** The body of a quoted element, after its opening quote. */
  function QuotedElem(s: seq<byte>, escape: bool, elem: seq<byte>): (q: Quoted)
    ensures q.Terminated? ==> |q.rest| < |s| && q.rest == s[|s| - |q.rest|..]
    decreases |s|
  {
    if s == [] then Unterminated
    else if escape then QuotedElem(s[1..], false, elem + [s[0]])
    else if s[0] == BACKSLASH then QuotedElem(s[1..], true, elem)
    else if s[0] == QUOTE then Terminated(elem, s[1..])
    else QuotedElem(s[1..], false, elem + [s[0]])
  }

  /** How far an unquoted element reaches: to the first delimiter or closing brace. */
  function BareLength(s: seq<byte>, del: seq<byte>): (n: nat)
    ensures n <= |s|
  {
    if s == [] || del <= s || s[0] == CLOSE then 0 else 1 + BareLength(s[1..], del)
  }

  /** One element: cut off by the end of the input, blank, or read with what follows it. */
  datatype Item = CutOff | Blank | Read(elem: Elem, rest: seq<byte>)

  function ItemAt(s: seq<byte>, del: seq<byte>): (t: Item)
    requires s != []
    ensures t.Read? ==> |t.rest| < |s|
  {
    if s[0] == QUOTE then
      match QuotedElem(s[1..], false, [])
      case Unterminated => CutOff
      case Terminated(elem, rest) => Read(Text(elem), rest)
    else
      var n := BareLength(s, del);
      if n == |s| then CutOff
      else if n == 0 then Blank
      else Read(BareElem(s[..n]), s[n..])
  }

  /** The machine at label Element. */
  function Element(s: seq<byte>, i: nat, del: seq<byte>, depth: nat, dims: seq<nat>, elems: seq<Elem>): Outcome
    requires |del| >= 1 && Counted(depth, dims)
    decreases |s|, 1
  {
    if s == [] then
      Finish(i, depth, dims, elems)
    else if s[0] == OPEN then
      if depth == |dims| then Delims(s, i, del, depth, dims, elems)
      else Element(s[1..], i + 1, del, depth + 1, dims[depth := 0], elems)
    else
      match ItemAt(s, del)
      case CutOff => Finish(i + |s|, depth, dims, elems)
      case Blank => Err(Unexpected(s[0], i))
      case Read(elem, rest) => Delims(rest, i + (|s| - |rest|), del, depth, dims, elems + [elem])
  }

  /** The machine in the loop that follows an element: delimiters and closing braces. */
  function Delims(s: seq<byte>, i: nat, del: seq<byte>, depth: nat, dims: seq<nat>, elems: seq<Elem>): Outcome
    requires |del| >= 1 && Counted(depth, dims)
    decreases |s|, 0
  {
    if s == [] then
      Finish(i, depth, dims, elems)
    else if del <= s && depth > 0 then
      Element(s[|del|..], i + |del|, del, depth, dims[depth - 1 := dims[depth - 1] + 1], elems)
    else if s[0] == CLOSE && depth > 0 then
      Delims(s[1..], i + 1, del, depth - 1, dims[depth - 1 := dims[depth - 1] + 1], elems)
    else
      Err(Unexpected(s[0], i))
  }

  /** The machine at label Close, reached only from an array without elements. */
  function CloseEmpty(s: seq<byte>, i: nat, depth: nat): Outcome {
    if s == [] then Finish(i, depth, [], [])
    else if s[0] == CLOSE && depth > 0 then CloseEmpty(s[1..], i + 1, depth - 1)
    else Err(Unexpected(s[0], i))
  }

  /** The checks at the end of the input. The requires clause is what keeps the division
      defined. */
  function Finish(i: nat, depth: nat, dims: seq<nat>, elems: seq<Elem>): Outcome
    requires depth == 0 ==> Counted(0, dims)
  {
    if depth > 0 then Err(ExpectedClose(i))
    else if forall j :: 0 <= j < |dims| ==> |elems| % dims[j] == 0 then Ok(Parsed(dims, elems))
    else Err(Ragged)
  }

  function Parse(src: seq<byte>, del: seq<byte>): Outcome
    requires |del| >= 1
  {
    if src == [] || src[0] != OPEN then Err(ExpectedOpen)
    else
      var k := LeadingOpens(src);
      if k < |src| && src[k] == CLOSE then CloseEmpty(src[k..], k, k)
      else Element(src[k..], k, del, k, Repeat(0, k), [])
  }

  /** scanLinearArray: the outer None is the parser's success. */
  datatype LinearError = ParseFailed(error: ParseError) | NotLinear(dims: seq<nat>)

  function ScanLinear(src: seq<byte>, del: seq<byte>): Result<seq<Elem>, LinearError>
    requires |del| >= 1
  {
    match Parse(src, del)
    case Err(e) => Err(ParseFailed(e))
    case Ok(p) => if |p.dims| > 1 then Err(NotLinear(p.dims)) else Ok(p.elems)
  }

  // ----- the imperative machine -----

  /** One step at label Element, and one in the loop that follows: what the loops below use
      in place of the functions' bodies. */
  lemma ElementStep(s: seq<byte>, i: nat, del: seq<byte>, depth: nat, dims: seq<nat>, elems: seq<Elem>)
    requires |del| >= 1 && Counted(depth, dims)
    ensures s == [] ==> Element(s, i, del, depth, dims, elems) == Finish(i, depth, dims, elems)
    ensures s != [] && s[0] == OPEN && depth == |dims| ==>
              Element(s, i, del, depth, dims, elems) == Delims(s, i, del, depth, dims, elems)
    ensures s != [] && s[0] == OPEN && depth < |dims| ==>
              Element(s, i, del, depth, dims, elems) == Element(s[1..], i + 1, del, depth + 1, dims[depth := 0], elems)
    ensures s != [] && s[0] != OPEN && ItemAt(s, del).CutOff? ==>
              Element(s, i, del, depth, dims, elems) == Finish(i + |s|, depth, dims, elems)
    ensures s != [] && s[0] != OPEN && ItemAt(s, del).Blank? ==>
              Element(s, i, del, depth, dims, elems) == Err(Unexpected(s[0], i))
    ensures s != [] && s[0] != OPEN && ItemAt(s, del).Read? ==>
              var rest := ItemAt(s, del).rest;
              Element(s, i, del, depth, dims, elems) ==
              Delims(rest, i + (|s| - |rest|), del, depth, dims, elems + [ItemAt(s, del).elem])
  {
  }

  lemma DelimsStep(s: seq<byte>, i: nat, del: seq<byte>, depth: nat, dims: seq<nat>, elems: seq<Elem>)
    requires |del| >= 1 && Counted(depth, dims)
    ensures s == [] ==> Delims(s, i, del, depth, dims, elems) == Finish(i, depth, dims, elems)
    ensures s != [] && del <= s && depth > 0 ==>
              Delims(s, i, del, depth, dims, elems) ==
              Element(s[|del|..], i + |del|, del, depth, dims[depth - 1 := dims[depth - 1] + 1], elems)
    ensures s != [] && !(del <= s) && s[0] == CLOSE && depth > 0 ==>
              Delims(s, i, del, depth, dims, elems) ==
              Delims(s[1..], i + 1, del, depth - 1, dims[depth - 1 := dims[depth - 1] + 1], elems)
    ensures s != [] && (depth == 0 || (!(del <= s) && s[0] != CLOSE)) ==>
              Delims(s, i, del, depth, dims, elems) == Err(Unexpected(s[0], i))
  {
  }

  /** The inner loop of a quoted element: starts after the opening quote and stops after the
      closing one, or at the end of the input. */
  method ReadQuoted(src: seq<byte>, start: nat) returns (i: nat, closed: bool, elem: seq<byte>)
    requires start <= |src|
    ensures start <= i <= |src|
    ensures QuotedElem(src[start..], false, []) ==
            if closed then Terminated(elem, src[i..]) else Unterminated
    ensures !closed ==> i == |src|
    ensures closed ==> i > start
  {
    i, elem := start, [];
    var escape := false;
    ghost var s := src[start..];
    ghost var goal := QuotedElem(s, false, []);
    while i < |src|
      invariant start <= i <= |src| && s == src[i..]
      invariant goal == QuotedElem(s, escape, elem)
    {
      s := s[1..];
      if escape {
        elem := elem + [src[i]];
        escape := false;
      } else if src[i] == BACKSLASH {
        escape := true;
      } else if src[i] == QUOTE {
        return i + 1, true, elem;
      } else {
        elem := elem + [src[i]];
      }
      i := i + 1;
    }
    closed := false;
  }

  /** The inner loop of an unquoted element. */
  method ReadBare(src: seq<byte>, start: nat, del: seq<byte>) returns (i: nat)
    requires start <= |src|
    ensures i == start + BareLength(src[start..], del)
  {
    i := start;
    while i < |src|
      invariant start <= i <= |src|
      invariant start + BareLength(src[start..], del) == i + BareLength(src[i..], del)
    {
      assert src[i..][1..] == src[i + 1..];
      if del <= src[i..] || src[i] == CLOSE {
        return;
      }
      i := i + 1;
    }
  }

  /** The checks at the end of the input, with the loop that divides by every dimension. */
  method Conclude(i: nat, depth: nat, dims: array<nat>, elems: seq<Elem>) returns (r: Outcome)
    requires depth == 0 ==> Counted(0, dims[..])
    ensures r == Finish(i, depth, dims[..], elems)
  {
    if depth > 0 {
      return Err(ExpectedClose(i));
    }
    var matching := true;
    for d := 0 to dims.Length
      invariant matching == forall j :: 0 <= j < d ==> |elems| % dims[..][j] == 0
    {
      if |elems| % dims[d] != 0 {
        matching := false;
      }
    }
    return if matching then Ok(Parsed(dims[..], elems)) else Err(Ragged);
  }

  /** The quoted and unquoted cases of label Element. */
  method ReadItem(src: seq<byte>, start: nat, del: seq<byte>)
    returns (i: nat, found: Option<Elem>, blank: bool)
    requires |del| >= 1 && start < |src|
    ensures start <= i <= |src|
    ensures ItemAt(src[start..], del) ==
            if blank then Blank else if found == None then CutOff else Read(found.value, src[i..])
    ensures blank ==> i == start
    ensures found == None && !blank ==> i == |src|
  {
    found, blank := None, false;
    ghost var s := src[start..];
    if src[start] == QUOTE {
      var elem, closed;
      i, closed, elem := ReadQuoted(src, start + 1);
      assert s[1..] == src[start + 1..];
      if closed {
        found := Some(Text(elem));
      }
    } else {
      i := ReadBare(src, start, del);
      if i < |src| {
        var elem := src[start..i];
        assert elem == s[..i - start] && s[i - start..] == src[i..];
        if |elem| == 0 {
          blank := true;
        } else {
          found := Some(BareElem(elem));
        }
      }
    }
  }

  /** The loop labelled Element: opens the braces it meets and reads one element. It stops
      with the machine about to look for a delimiter, or with an error. */
  method ReadElement(src: seq<byte>, i0: nat, del: seq<byte>, depth0: nat, dims: array<nat>, elems0: seq<Elem>)
    returns (i: nat, depth: nat, elems: seq<Elem>, failed: Option<ParseError>)
    requires |del| >= 1 && i0 <= |src| && 1 <= depth0
    requires Counted(depth0, dims[..])
    modifies dims
    ensures i0 <= i <= |src| && 1 <= depth && Counted(depth, dims[..])
    ensures Element(src[i0..], i0, del, depth0, old(dims[..]), elems0) ==
            if failed.Some? then Err(failed.value)
            else Delims(src[i..], i, del, depth, dims[..], elems)
  {
    hide Element, Delims, ItemAt, Finish;
    i, depth, elems, failed := i0, depth0, elems0, None;
    ghost var s, counts := src[i0..], dims[..];
    ghost var goal := Element(s, i0, del, depth0, counts, elems0);
    label Element: while i < |src|
      invariant i0 <= i <= |src| && s == src[i..]
      invariant counts == dims[..]
      invariant 1 <= depth && Counted(depth, counts)
      invariant failed == None
      invariant goal == Element(s, i, del, depth, counts, elems)
    {
      ElementStep(s, i, del, depth, counts, elems);
      if src[i] == OPEN {
        if depth == dims.Length {
          break Element;
        }
        depth := depth + 1;
        dims[depth - 1] := 0;
        i := i + 1;
        s, counts := s[1..], counts[depth - 1 := 0];
      } else {
        var found, blank;
        i, found, blank := ReadItem(src, i, del);
        if blank {
          failed := Some(Unexpected(src[i], i));
          return;
        }
        s := src[i..];
        if found.Some? {
          elems := elems + [found.value];
          break Element;
        }
        ElementStep(s, i, del, depth, counts, elems);
      }
    }
    ElementStep(s, i, del, depth, counts, elems);
    DelimsStep(s, i, del, depth, counts, elems);
  }

  /** The loop after an element: counts it at its level, and closes levels, up to the next
      delimiter (again), the end of the input, or an error. */
  method ReadDelims(src: seq<byte>, i0: nat, del: seq<byte>, depth0: nat, dims: array<nat>, ghost elems: seq<Elem>)
    returns (i: nat, depth: nat, again: bool, failed: Option<ParseError>)
    requires |del| >= 1 && i0 <= |src|
    requires Counted(depth0, dims[..])
    modifies dims
    ensures i0 <= i <= |src| && Counted(depth, dims[..])
    ensures again ==> i0 < i && 1 <= depth
    ensures !again && failed == None ==> i == |src|
    ensures Delims(src[i0..], i0, del, depth0, old(dims[..]), elems) ==
            if failed.Some? then Err(failed.value)
            else if again then Element(src[i..], i, del, depth, dims[..], elems)
            else Finish(i, depth, dims[..], elems)
  {
    hide Element, Delims, Finish;
    i, depth, again, failed := i0, depth0, false, None;
    ghost var s, counts := src[i0..], dims[..];
    ghost var goal := Delims(s, i0, del, depth0, counts, elems);
    while i < |src|
      invariant i0 <= i <= |src| && s == src[i..]
      invariant counts == dims[..]
      invariant Counted(depth, counts)
      invariant goal == Delims(s, i, del, depth, counts, elems)
    {
      DelimsStep(s, i, del, depth, counts, elems);
      if del <= src[i..] && depth > 0 {
        dims[depth - 1] := dims[depth - 1] + 1;
        i := i + |del|;
        s, counts := s[|del|..], counts[depth - 1 := counts[depth - 1] + 1];
        again := true;
        return;
      } else if src[i] == CLOSE && depth > 0 {
        dims[depth - 1] := dims[depth - 1] + 1;
        i := i + 1;
        s, counts := s[1..], counts[depth - 1 := counts[depth - 1] + 1];
        depth := depth - 1;
      } else {
        failed := Some(Unexpected(src[i], i));
        return;
      }
    }
    DelimsStep(s, i, del, depth, counts, elems);
  }

  /** The loop labelled Close, for an array without elements. */
  method ReadCloses(src: seq<byte>, i0: nat, depth0: nat) returns (i: nat, depth: nat, failed: Option<ParseError>)
    requires i0 <= |src|
    ensures CloseEmpty(src[i0..], i0, depth0) ==
            if failed.Some? then Err(failed.value) else Finish(i, depth, [], [])
  {
    i, depth, failed := i0, depth0, None;
    while i < |src|
      invariant i0 <= i <= |src|
      invariant CloseEmpty(src[i0..], i0, depth0) == CloseEmpty(src[i..], i, depth)
    {
      if src[i] == CLOSE && depth > 0 {
        assert src[i..][1..] == src[i + 1..];
        depth := depth - 1;
        i := i + 1;
      } else {
        failed := Some(Unexpected(src[i], i));
        return;
      }
    }
  }

  /** parseArray. Termination and the absence of index and division errors are part of what
      Dafny checks here; the result is the functional machine's on every input, errors and
      their offsets included. */
  method ParseArray(src: seq<byte>, del: seq<byte>) returns (r: Outcome)
    requires |del| >= 1
    ensures r == Parse(src, del)
  {
    hide Element, Delims;
    if |src| < 1 || src[0] != OPEN {
      return Err(ExpectedOpen);
    }

    var depth: nat, i: nat := 0, 0;
    while i < |src| && src[i] == OPEN
      invariant depth == i <= |src|
      invariant LeadingOpens(src) == i + LeadingOpens(src[i..])
    {
      assert src[i..][1..] == src[i + 1..];
      depth := depth + 1;
      i := i + 1;
    }

    var failed;
    if i < |src| && src[i] == CLOSE {
      i, depth, failed := ReadCloses(src, i, depth);
      return if failed.Some? then Err(failed.value)
             else if depth > 0 then Err(ExpectedClose(i))
             else Ok(Parsed([], []));
    }

    var dims := new nat[i](_ => 0);
    var elems: seq<Elem> := [];
    assert dims[..] == Repeat(0, i);
    ghost var goal := Parse(src, del);
    assert goal == Element(src[i..], i, del, i, Repeat(0, i), elems);
    var again := true;
    while again
      invariant i <= |src| && Counted(depth, dims[..])
      invariant again ==> 1 <= depth
      invariant goal == if again then Element(src[i..], i, del, depth, dims[..], elems)
                        else Finish(i, depth, dims[..], elems)
      decreases again, |src| - i
    {
      i, depth, elems, failed := ReadElement(src, i, del, depth, dims, elems);
      if failed.Some? {
        return Err(failed.value);
      }
      i, depth, again, failed := ReadDelims(src, i, del, depth, dims, elems);
      if failed.Some? {
        return Err(failed.value);
      }
    }
    r := Conclude(i, depth, dims, elems);
  }

  /** scanLinearArray. */
  method ScanLinearArray(src: seq<byte>, del: seq<byte>) returns (r: Result<seq<Elem>, LinearError>)
    requires |del| >= 1
    ensures r == ScanLinear(src, del)
  {
    var p := ParseArray(src, del);
    match p {
      case Err(e) => return Err(ParseFailed(e));
      case Ok(parsed) =>
        if |parsed.dims| > 1 {
          return Err(NotLinear(parsed.dims));
        }
        return Ok(parsed.elems);
    }
  }
}
