/** Errors are earned: with a delimiter of one byte the parser complains about a byte exactly when
    nothing can follow it, and about the end of the input exactly when something can. */
module ViablePrefixes {
  import opened Bytes
  import opened ArrayParser
  import opened ArrayGrammar
  import opened ArrayLanguage
  import opened LinearArrays

  /** Nothing is wrong so far: the input got through the syntax or ended too early. */
  predicate Viable(r: Outcome) {
    Balanced(r) || (r.Err? && r.error.ExpectedClose?)
  }

  predicate ErrsAt(r: Outcome, offset: nat) {
    r.Err? && r.error.Unexpected? && r.error.offset == offset
  }

  // ----- elements do not depend on what comes after the byte that ends them -----

  lemma OneByte(del: seq<byte>, s: seq<byte>)
    requires |del| == 1
    ensures del <= s <==> s != [] && s[0] == del[0]
  {
  }

  /** A token is a token in front of everything that ends one. */
  lemma TokenAnywhere(token: Token, del: seq<byte>, after: seq<byte>, after': seq<byte>)
    requires |del| == 1 && TokenOk(token, del, after)
    ensures TokenOk(token, del, after')
  {
    if token.BareToken? {
      var text := token.text;
      forall j | 0 <= j < |text| ensures !(del <= (text + after')[j..]) {
        OneByte(del, (text + after)[j..]);
        OneByte(del, (text + after')[j..]);
        assert (text + after)[j..][0] == text[j] == (text + after')[j..][0];
      }
    }
  }

  /** An element that was read is read in front of other texts, too: a quoted one of any, an
      unquoted one of any with the same first byte. */
  lemma ItemStable(s: seq<byte>, del: seq<byte>, after: seq<byte>)
    requires |del| == 1 && s != [] && s[0] != OPEN && ItemAt(s, del).Read?
    requires var rest := ItemAt(s, del).rest;
             rest != [] ==> after != [] && after[0] == rest[0]
    ensures var rest := ItemAt(s, del).rest;
            ItemAt(s[..|s| - |rest|] + after, del) == Read(ItemAt(s, del).elem, after)
  {
    hide QuotedElem, BareLength, ShowUnits;
    var rest := ItemAt(s, del).rest;
    ItemRestIsSuffix(s, del);
    var token := ItemIsToken(s, del);
    assert ShowToken(token) == s[..|s| - |rest|];
    TokenAnywhere(token, del, rest, after);
    if token.QuotedToken? {
      QuotedTokenReads(token.units, del, after);
    } else {
      BareStops(s, del, token);
      OneByte(del, rest);
      OneByte(del, after);
      TokenReads(token, del, after);
    }
  }

  /** An unquoted element ends before a delimiter or a closing brace. */
  lemma BareStops(s: seq<byte>, del: seq<byte>, token: Token)
    requires |del| == 1 && s != [] && s[0] != OPEN && ItemAt(s, del).Read? && token.BareToken?
    requires TokenOk(token, del, ItemAt(s, del).rest) && s == ShowToken(token) + ItemAt(s, del).rest
    ensures Stops(del, ItemAt(s, del).rest)
  {
    hide QuotedElem, BareLength;
    assert s[0] == token.text[0];
    BareIsToken(s, del);
  }

  // ----- an error depends on nothing after the byte it names, and nothing was wrong before -----

  lemma {:induction false} ElementStable(s: seq<byte>, i: nat, del: seq<byte>, depth: nat, dims: seq<nat>,
                                         elems: seq<Elem>, offset: nat, more: seq<byte>)
    requires |del| == 1 && depth >= 1 && Counted(depth, dims)
    requires ErrsAt(Element(s, i, del, depth, dims, elems), offset)
    ensures i <= offset < i + |s|
    ensures Element(s[..offset - i + 1] + more, i, del, depth, dims, elems) == Element(s, i, del, depth, dims, elems)
    ensures Viable(Element(s[..offset - i], i, del, depth, dims, elems))
    decreases |s|, 1
  {
    hide Element, Delims, ItemAt;
    ElementStep(s, i, del, depth, dims, elems);
    if s[0] == OPEN && depth < |dims| {
      ElementStable(s[1..], i + 1, del, depth + 1, dims[depth := 0], elems, offset, more);
      OneStep(s, offset - i, more);
      ElementStep(s[..offset - i + 1] + more, i, del, depth, dims, elems);
      ElementStep(s[..offset - i], i, del, depth, dims, elems);
    } else if s[0] == OPEN {
      DelimsStable(s, i, del, depth, dims, elems, offset, more);
      ElementStep(s[..offset - i + 1] + more, i, del, depth, dims, elems);
      ElementStep(s[..offset - i], i, del, depth, dims, elems);
      DelimsStep(s[..offset - i], i, del, depth, dims, elems);
    } else {
      ItemErrorStable(s, i, del, depth, dims, elems, offset, more);
    }
  }

  /** Taking one byte off a cut text. */
  lemma OneStep(s: seq<byte>, n: nat, more: seq<byte>)
    requires 0 < n < |s|
    ensures (s[..n + 1] + more)[0] == s[0] && (s[..n + 1] + more)[1..] == s[1..][..n] + more
    ensures s[..n][0] == s[0] && s[..n][1..] == s[1..][..n - 1]
  {
  }

  /** The error is at an element or after it. */
  lemma {:induction false} ItemErrorStable(s: seq<byte>, i: nat, del: seq<byte>, depth: nat, dims: seq<nat>,
                                           elems: seq<Elem>, offset: nat, more: seq<byte>)
    requires |del| == 1 && depth >= 1 && Counted(depth, dims) && s != [] && s[0] != OPEN
    requires ErrsAt(Element(s, i, del, depth, dims, elems), offset)
    ensures i <= offset < i + |s|
    ensures Element(s[..offset - i + 1] + more, i, del, depth, dims, elems) == Element(s, i, del, depth, dims, elems)
    ensures Viable(Element(s[..offset - i], i, del, depth, dims, elems))
    decreases |s|, 0
  {
    hide Element, Delims, ItemAt;
    ElementStep(s, i, del, depth, dims, elems);
    if ItemAt(s, del).Blank? {
      BlankStable(s, del, more);
      ElementStep(s[..1] + more, i, del, depth, dims, elems);
      ElementStep(s[..0], i, del, depth, dims, elems);
    } else {
      var elem, rest := ItemAt(s, del).elem, ItemAt(s, del).rest;
      var k := |s| - |rest|;
      ItemRestIsSuffix(s, del);
      DelimsStable(rest, i + k, del, depth, dims, elems + [elem], offset, more);
      var n := offset - i;
      ItemStable(s, del, rest[..n - k + 1] + more);
      assert s[..n + 1] + more == s[..k] + (rest[..n - k + 1] + more);
      ElementStep(s[..n + 1] + more, i, del, depth, dims, elems);
      ItemCut(s, i, del, depth, dims, elems, n);
    }
  }

  lemma BlankStable(s: seq<byte>, del: seq<byte>, more: seq<byte>)
    requires |del| == 1 && s != [] && s[0] != OPEN && ItemAt(s, del).Blank?
    ensures ItemAt(s[..1] + more, del).Blank? && s[..0] == []
  {
    OneByte(del, s);
    OneByte(del, s[..1] + more);
  }

  /** Cut right after the element, or later. */
  lemma ItemCut(s: seq<byte>, i: nat, del: seq<byte>, depth: nat, dims: seq<nat>, elems: seq<Elem>, n: nat)
    requires |del| == 1 && depth >= 1 && Counted(depth, dims) && s != [] && s[0] != OPEN && ItemAt(s, del).Read?
    requires var k := |s| - |ItemAt(s, del).rest|;
             && k <= n < |s|
             && Viable(Delims(ItemAt(s, del).rest[..n - k], i + k, del, depth, dims, elems + [ItemAt(s, del).elem]))
    ensures Viable(Element(s[..n], i, del, depth, dims, elems))
  {
    hide Element, Delims, ItemAt;
    var rest := ItemAt(s, del).rest;
    var k := |s| - |rest|;
    ItemRestIsSuffix(s, del);
    assert s[..n] == s[..k] + rest[..n - k];
    ElementStep(s[..n], i, del, depth, dims, elems);
    if n > k {
      ItemStable(s, del, rest[..n - k]);
    } else {
      CutItem(s, del);
      assert s[..n] == s[..k] && rest[..n - k] == [];
    }
  }

  /** An element at the end of the input is read or cut off. */
  lemma CutItem(s: seq<byte>, del: seq<byte>)
    requires |del| == 1 && s != [] && s[0] != OPEN && ItemAt(s, del).Read?
    ensures var rest := ItemAt(s, del).rest;
            var cut := s[..|s| - |rest|];
            && cut != [] && cut[0] == s[0]
            && (ItemAt(cut, del).CutOff? || ItemAt(cut, del) == Read(ItemAt(s, del).elem, []))
  {
    hide QuotedElem, ShowUnits;
    var rest := ItemAt(s, del).rest;
    var cut := s[..|s| - |rest|];
    ItemRestIsSuffix(s, del);
    var token := ItemIsToken(s, del);
    assert ShowToken(token) == cut;
    if token.QuotedToken? {
      QuotedTokenReads(token.units, del, []);
      assert cut + [] == cut;
    } else {
      assert cut == token.text && cut[0] == s[0];
      BareAll(token.text, del);
    }
  }

  lemma {:induction false} BareAll(text: seq<byte>, del: seq<byte>)
    requires |del| == 1 && forall j :: 0 <= j < |text| ==> text[j] != CLOSE && text[j] != del[0]
    ensures BareLength(text, del) == |text|
  {
    OneByte(del, text);
    if text != [] {
      BareAll(text[1..], del);
    }
  }

  lemma {:induction false} DelimsStable(s: seq<byte>, i: nat, del: seq<byte>, depth: nat, dims: seq<nat>,
                                        elems: seq<Elem>, offset: nat, more: seq<byte>)
    requires |del| == 1 && Counted(depth, dims)
    requires ErrsAt(Delims(s, i, del, depth, dims, elems), offset)
    ensures i <= offset < i + |s|
    ensures Delims(s[..offset - i + 1] + more, i, del, depth, dims, elems) == Delims(s, i, del, depth, dims, elems)
    ensures Viable(Delims(s[..offset - i], i, del, depth, dims, elems))
    decreases |s|, 0
  {
    hide Element, Delims, ItemAt;
    DelimsStep(s, i, del, depth, dims, elems);
    OneByte(del, s);
    var n := offset - i;
    if depth > 0 && (s[0] == del[0] || s[0] == CLOSE) {
      var counted := dims[depth - 1 := dims[depth - 1] + 1];
      if s[0] == del[0] {
        ElementStable(s[1..], i + 1, del, depth, counted, elems, offset, more);
      } else {
        DelimsStable(s[1..], i + 1, del, depth - 1, counted, elems, offset, more);
      }
      OneStep(s, n, more);
    }
    OneByte(del, s[..n + 1] + more);
    OneByte(del, s[..n]);
    DelimsStep(s[..n + 1] + more, i, del, depth, dims, elems);
    DelimsStep(s[..n], i, del, depth, dims, elems);
  }

  // ----- an input that ended too early can be completed -----

  function Closes(n: nat): seq<byte> {
    seq(n, _ => CLOSE)
  }

  lemma {:induction false} DelimsClose(n: nat, i: nat, del: seq<byte>, dims: seq<nat>, elems: seq<Elem>)
    requires |del| == 1 && del[0] != CLOSE && Counted(n, dims)
    ensures Balanced(Delims(Closes(n), i, del, n, dims, elems))
  {
    hide Element, Delims;
    DelimsStep(Closes(n), i, del, n, dims, elems);
    OneByte(del, Closes(n));
    if n > 0 {
      assert Closes(n)[1..] == Closes(n - 1);
      DelimsClose(n - 1, i + 1, del, dims[n - 1 := dims[n - 1] + 1], elems);
    }
  }

  /** What ends a quoted element that was cut off, depending on where it was cut. */
  lemma {:induction false} QuotedEnds(s: seq<byte>, escape: bool, elem: seq<byte>, more: seq<byte>)
    returns (ending: seq<byte>)
    requires QuotedElem(s, escape, elem).Unterminated?
    ensures ending != [] && QuotedElem(s + (ending + more), escape, elem).Terminated?
    ensures QuotedElem(s + (ending + more), escape, elem).rest == more
    decreases |s|
  {
    if s == [] {
      ending := if escape then [QUOTE, QUOTE] else [QUOTE];
      var all := ending + more;
      assert s + all == all && all[0] == QUOTE;
      if escape {
        assert all[1..][0] == QUOTE && all[1..][1..] == more;
      } else {
        assert all[1..] == more;
      }
    } else {
      ending := QuotedEnds(s[1..], !escape && s[0] == BACKSLASH,
                           if escape || (s[0] != BACKSLASH && s[0] != QUOTE) then elem + [s[0]] else elem, more);
      assert (s + (ending + more))[1..] == s[1..] + (ending + more);
    }
  }

  /** A new element where one is due, and the closing braces. */
  lemma NewElementCloses(i: nat, del: seq<byte>, depth: nat, dims: seq<nat>, elems: seq<Elem>)
    requires |del| == 1 && del[0] != CLOSE && depth >= 1 && Counted(depth, dims)
    ensures Balanced(Element([QUOTE, QUOTE] + Closes(depth), i, del, depth, dims, elems))
  {
    hide Element, Delims;
    var s := [QUOTE, QUOTE] + Closes(depth);
    assert s[1..] == [QUOTE] + Closes(depth) && s[1..][1..] == Closes(depth);
    assert ItemAt(s, del) == Read(Text([]), Closes(depth));
    ElementStep(s, i, del, depth, dims, elems);
    DelimsClose(depth, i + 2, del, dims, elems + [Text([])]);
  }

  lemma {:induction false} ElementCompletes(s: seq<byte>, i: nat, del: seq<byte>,
                                            depth: nat, dims: seq<nat>, elems: seq<Elem>)
    returns (more: seq<byte>)
    requires |del| == 1 && del[0] != CLOSE && depth >= 1 && Counted(depth, dims)
    requires Viable(Element(s, i, del, depth, dims, elems))
    ensures Balanced(Element(s + more, i, del, depth, dims, elems))
    ensures s == [] ==> more != [] && more[0] == QUOTE
    decreases |s|, 1
  {
    hide Element, Delims, ItemAt;
    ElementStep(s, i, del, depth, dims, elems);
    if s == [] {
      more := [QUOTE, QUOTE] + Closes(depth);
      assert s + more == more;
      NewElementCloses(i, del, depth, dims, elems);
    } else if s[0] == OPEN && depth < |dims| {
      more := ElementCompletes(s[1..], i + 1, del, depth + 1, dims[depth := 0], elems);
      assert (s + more)[1..] == s[1..] + more;
      ElementStep(s + more, i, del, depth, dims, elems);
    } else if s[0] == OPEN {
      more := DelimsComplete(s, i, del, depth, dims, elems);
      ElementStep(s + more, i, del, depth, dims, elems);
    } else if ItemAt(s, del).Read? {
      var elem, rest := ItemAt(s, del).elem, ItemAt(s, del).rest;
      var k := |s| - |rest|;
      ItemRestIsSuffix(s, del);
      more := DelimsComplete(rest, i + k, del, depth, dims, elems + [elem]);
      ItemStable(s, del, rest + more);
      assert s + more == s[..k] + (rest + more);
      ElementStep(s + more, i, del, depth, dims, elems);
    } else {
      var elem;
      more, elem := CutOffCompletes(s, del, depth);
      ElementStep(s + more, i, del, depth, dims, elems);
      DelimsClose(depth, i + (|s + more| - depth), del, dims, elems + [elem]);
    }
  }

  /** A cut-off element is ended, and the closing braces follow. */
  lemma CutOffCompletes(s: seq<byte>, del: seq<byte>, depth: nat) returns (more: seq<byte>, elem: Elem)
    requires |del| == 1 && del[0] != CLOSE && depth >= 1 && s != [] && s[0] != OPEN && ItemAt(s, del).CutOff?
    ensures ItemAt(s + more, del) == Read(elem, Closes(depth))
  {
    hide ItemAt;
    if s[0] == QUOTE {
      more, elem := QuotedCompletes(s, del, Closes(depth));
    } else {
      more, elem := Closes(depth), BareElem(s);
      BareCompletes(s, del, more);
    }
  }

  lemma QuotedCompletes(s: seq<byte>, del: seq<byte>, rest: seq<byte>) returns (more: seq<byte>, elem: Elem)
    requires s != [] && s[0] == QUOTE && ItemAt(s, del).CutOff?
    ensures ItemAt(s + more, del) == Read(elem, rest)
  {
    hide QuotedElem, BareLength;
    var ending := QuotedEnds(s[1..], false, [], rest);
    more := ending + rest;
    assert (s + more)[1..] == s[1..] + more;
    elem := Text(QuotedElem(s[1..] + more, false, []).elem);
  }

  lemma BareCompletes(s: seq<byte>, del: seq<byte>, more: seq<byte>)
    requires |del| == 1 && s != [] && s[0] != OPEN && s[0] != QUOTE && ItemAt(s, del).CutOff?
    requires more != [] && more[0] == CLOSE
    ensures ItemAt(s + more, del) == Read(BareElem(s), more)
  {
    hide QuotedElem, BareLength;
    BareLengthStops(s, del);
    forall j | 0 <= j < |s| ensures (s + more)[j] != CLOSE && !(del <= (s + more)[j..]) {
      OneByte(del, s[j..]);
      OneByte(del, (s + more)[j..]);
    }
    BareLengthIs(s + more, del, |s|);
    assert (s + more)[..|s|] == s && (s + more)[|s|..] == more;
  }

  lemma {:induction false} DelimsComplete(s: seq<byte>, i: nat, del: seq<byte>,
                                          depth: nat, dims: seq<nat>, elems: seq<Elem>)
    returns (more: seq<byte>)
    requires |del| == 1 && del[0] != CLOSE && Counted(depth, dims)
    requires Viable(Delims(s, i, del, depth, dims, elems))
    ensures Balanced(Delims(s + more, i, del, depth, dims, elems))
    decreases |s|, 0
  {
    hide Element, Delims, ItemAt;
    DelimsStep(s, i, del, depth, dims, elems);
    OneByte(del, s);
    if s == [] {
      more := Closes(depth);
      assert s + more == more;
      DelimsClose(depth, i, del, dims, elems);
    } else {
      var counted := dims[depth - 1 := dims[depth - 1] + 1];
      if s[0] == del[0] {
        more := ElementCompletes(s[1..], i + 1, del, depth, counted, elems);
      } else {
        more := DelimsComplete(s[1..], i + 1, del, depth - 1, counted, elems);
      }
      assert (s + more)[1..] == s[1..] + more;
      OneByte(del, s + more);
      DelimsStep(s + more, i, del, depth, dims, elems);
    }
  }

  // ----- arrays without elements -----

  lemma {:induction false} CloseStable(s: seq<byte>, i: nat, depth: nat, offset: nat, more: seq<byte>)
    requires ErrsAt(CloseEmpty(s, i, depth), offset)
    ensures i <= offset < i + |s|
    ensures CloseEmpty(s[..offset - i + 1] + more, i, depth) == CloseEmpty(s, i, depth)
    ensures Viable(CloseEmpty(s[..offset - i], i, depth))
  {
    if s[0] == CLOSE && depth > 0 {
      CloseStable(s[1..], i + 1, depth - 1, offset, more);
      OneStep(s, offset - i, more);
    }
  }

  lemma {:induction false} CloseCompletes(s: seq<byte>, i: nat, depth: nat) returns (more: seq<byte>)
    requires Viable(CloseEmpty(s, i, depth))
    ensures CloseEmpty(s + more, i, depth).Ok?
  {
    if s == [] {
      more := Closes(depth);
      assert s + more == more;
      CloseEmptyIs(more, i, depth);
    } else {
      more := CloseCompletes(s[1..], i + 1, depth - 1);
      assert (s + more)[1..] == s[1..] + more;
    }
  }

  // ----- whole inputs -----

  /** What parsing does after k opening braces. */
  function After(s: seq<byte>, k: nat, del: seq<byte>): Outcome
    requires |del| >= 1
  {
    if s != [] && s[0] == CLOSE then CloseEmpty(s, k, k) else Element(s, k, del, k, Repeat(0, k), [])
  }

  lemma ParseIsAfter(src: seq<byte>, del: seq<byte>, k: nat)
    requires |del| >= 1 && 1 <= k <= |src| && (forall j :: 0 <= j < k ==> src[j] == OPEN)
    requires k < |src| ==> src[k] != OPEN
    ensures Parse(src, del) == After(src[k..], k, del)
  {
    hide Element;
    OpensAre(src, k);
  }

  lemma {:induction false} OpensAre(s: seq<byte>, k: nat)
    requires k <= |s| && (forall j :: 0 <= j < k ==> s[j] == OPEN) && (k < |s| ==> s[k] != OPEN)
    ensures LeadingOpens(s) == k
  {
    if k > 0 {
      OpensAre(s[1..], k - 1);
    }
  }

  lemma AfterStable(s: seq<byte>, k: nat, del: seq<byte>, offset: nat, more: seq<byte>)
    requires |del| == 1 && k >= 1 && ErrsAt(After(s, k, del), offset)
    ensures k <= offset < k + |s|
    ensures After(s[..offset - k + 1] + more, k, del) == After(s, k, del) && Viable(After(s[..offset - k], k, del))
  {
    hide Element;
    if s != [] && s[0] == CLOSE {
      CloseStable(s, k, k, offset, more);
      assert Viable(Element([], k, del, k, Repeat(0, k), [])) by {
        ElementStep([], k, del, k, Repeat(0, k), []);
      }
      assert offset == k ==> s[..offset - k] == [];
    } else {
      ElementStable(s, k, del, k, Repeat(0, k), [], offset, more);
    }
  }

  lemma AfterCompletes(s: seq<byte>, k: nat, del: seq<byte>) returns (more: seq<byte>)
    requires |del| == 1 && del[0] != CLOSE && k >= 1 && Viable(After(s, k, del))
    ensures Balanced(After(s + more, k, del))
    ensures s == [] ==> more != [] && more[0] != OPEN
  {
    hide Element;
    if s != [] && s[0] == CLOSE {
      more := CloseCompletes(s, k, k);
    } else {
      more := ElementCompletes(s, k, del, k, Repeat(0, k), []);
      assert s == [] ==> s + more == more;
    }
  }

  /** Some input that begins with src gets through the syntax. */
  ghost predicate CanGetThrough(src: seq<byte>, del: seq<byte>)
    requires |del| >= 1
  {
    exists all :: src <= all && Balanced(Parse(all, del))
  }

  /** The parser complains about a byte only when it has to, and then at once: every input that
      begins with what has been read up to that byte meets the same error, while everything before
      the byte can be completed. */
  lemma ErrorIsEarned(src: seq<byte>, del: seq<byte>, offset: nat)
    requires |del| == 1 && del[0] != CLOSE && ErrsAt(Parse(src, del), offset)
    ensures offset < |src|
    ensures forall all :: src[..offset + 1] <= all ==> Parse(all, del) == Parse(src, del)
    ensures CanGetThrough(src[..offset], del)
  {
    hide After;
    var k := LeadingOpens(src);
    ParseIsAfter(src, del, k);
    AfterStable(src[k..], k, del, offset, []);
    forall all | src[..offset + 1] <= all ensures Parse(all, del) == Parse(src, del) {
      var more := all[offset + 1..];
      AfterStable(src[k..], k, del, offset, more);
      assert all == src[..offset + 1] + more && all[k..] == src[k..][..offset - k + 1] + more;
      ParseIsAfter(all, del, k);
    }
    var cut := src[..offset];
    assert cut[k..] == src[k..][..offset - k];
    ParseIsAfter(cut, del, k);
    var more := InputCompletes(cut, del);
    assert cut <= cut + more;
  }

  lemma InputCompletes(src: seq<byte>, del: seq<byte>) returns (more: seq<byte>)
    requires |del| == 1 && del[0] != CLOSE && Viable(Parse(src, del))
    ensures Balanced(Parse(src + more, del))
  {
    hide After;
    var k := LeadingOpens(src);
    ParseIsAfter(src, del, k);
    more := AfterCompletes(src[k..], k, del);
    assert (src + more)[k..] == src[k..] + more;
    ParseIsAfter(src + more, del, k);
  }

  /** And it complains about the end of the input, or not at all, exactly when the input can be
      completed; the empty input, which can, is refused for its missing brace. */
  lemma EndIsEarned(src: seq<byte>, del: seq<byte>)
    requires |del| == 1 && del[0] != CLOSE
    ensures src == [] || Viable(Parse(src, del)) <==> CanGetThrough(src, del)
  {
    hide Parse, Element;
    if src == [] {
      EmptyParses(Empty(1), del, 1);
      assert src <= Empty(1);
    } else if Viable(Parse(src, del)) {
      var more := InputCompletes(src, del);
      assert src <= src + more;
    } else {
      forall all | src <= all ensures !Balanced(Parse(all, del)) {
        NothingHelps(src, del, all);
      }
    }
  }

  lemma NothingHelps(src: seq<byte>, del: seq<byte>, all: seq<byte>)
    requires |del| == 1 && del[0] != CLOSE && src != [] && src <= all && !Viable(Parse(src, del))
    ensures !Balanced(Parse(all, del))
  {
    ErrorsLocated(src, del);
    ErrorsLocated(all, del);
    hide Parse;
    if src[0] == OPEN {
      var offset := Parse(src, del).error.offset;
      ErrorIsEarned(src, del, offset);
      assert src[..offset + 1] <= all;
    }
  }

  // ----- longer delimiters -----

  /** With a longer delimiter this fails: {""a is refused at its last byte, although that begins the
      delimiter ab of {""ab""}. */
  lemma UnfinishedDelimiter()
    ensures var src, del := [OPEN, QUOTE, QUOTE, 0x61], [0x61, 0x62];
            Parse(src, del) == Err(Unexpected(0x61, 3)) && CanGetThrough(src, del)
  {
    hide Element, Delims;
    var src, del := [OPEN, QUOTE, QUOTE, 0x61], [0x61, 0x62];
    var token := QuotedToken([]);
    assert src[1..] == ShowToken(token) + [0x61];
    QuotedTokenReads([], del, [0x61]);
    OpensAre(src, 1);
    assert Repeat(0, 1) == [0];
    ElementStep(src[1..], 1, del, 1, [0], []);
    DelimsStep([0x61], 3, del, 1, [0], [] + [Text([])]);
    RowParses([token, token], del);
    assert src <= Row([token, token], del);
  }
}
