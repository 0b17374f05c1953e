/**
 * The revenue section of a PGDAS declaration: the lazy block regular expression
 * that cuts it out of the text, the normalisation of that block, and its split
 * into the domestic-market and foreign-market parts by `indexOf`.
 */
module RevenueBlock {
  import opened Wrappers
  import opened JsText

  const BlockStartNumber: string := "2.2)"
  const BlockStartTitle: string := "Receitas Brutas Anteriores (R$)"
  const BlockEndNumber: string := "2.3)"
  const BlockEndTitle: string := "Folha de Sal\U{E1}rios Anteriores"

  const InternalMarketMarker: string := "2.2.1) Mercado Interno"
  const ExternalMarketMarker: string := "2.2.2) Mercado Externo"
  /** Spelled without the accent, unlike the block's own end anchor. */
  const NextSectionMarker: string := "2.3) Folha de Salarios Anteriores"

  // ---------------------------------------------------------------------------
  // 2\.2\)\s*Receitas Brutas Anteriores \(R\$\)([\s\S]*?)2\.3\)\s*Folha de Salários Anteriores

  /**
   * `2\.2\)\s*Receitas Brutas Anteriores \(R\$\)` at `p`: the number, whitespace only, then
   * the title, with `w` where the title starts.
   */
  predicate BlockStartShape(s: string, p: nat, w: nat)
  {
    OccursAt(s, BlockStartNumber, p) && p + |BlockStartNumber| <= w && OccursAt(s, BlockStartTitle, w)
    && (forall k :: p + |BlockStartNumber| <= k < w ==> IsSpace(s[k]))
  }

  /**
   * The opening anchor at `p`: where the capture starts (just after the title), if
   * the anchor matches there. The title starts with a non-whitespace character, so
   * `\s*` must take its whole run and there is at most one way to match.
   */
  function BlockStartAt(s: string, p: nat): (r: Option<nat>)
    ensures r.Some? ==> r.value >= |BlockStartTitle| && BlockStartShape(s, p, r.value - |BlockStartTitle|)
    ensures forall w: nat :: BlockStartShape(s, p, w) ==> r == Some(w + |BlockStartTitle|)
  {
    BlockStartIsUnique(s, p);
    if OccursAt(s, BlockStartNumber, p) then
      var w := RunEnd(s, p + |BlockStartNumber|, IsSpace);
      if OccursAt(s, BlockStartTitle, w) then Some(w + |BlockStartTitle|) else None
    else None
  }

  /** The only place the title can start is the end of the whitespace run after the number. */
  lemma BlockStartIsUnique(s: string, p: nat)
    ensures forall w: nat :: BlockStartShape(s, p, w) ==> w == RunEnd(s, p + |BlockStartNumber|, IsSpace)
  {
    forall w: nat | BlockStartShape(s, p, w)
      ensures w == RunEnd(s, p + |BlockStartNumber|, IsSpace)
    {
      OccursAtFirst(s, BlockStartTitle, w);
      assert !IsSpace(BlockStartTitle[0]);
      RunEndAt(s, p + |BlockStartNumber|, w, IsSpace);
    }
  }

  /** The closing anchor `2\.3\)\s*Folha de Salários Anteriores` at `q`. */
  predicate IsBlockEndAt(s: string, q: int)
  {
    OccursAt(s, BlockEndNumber, q)
    && OccursAt(s, BlockEndTitle, RunEnd(s, q + |BlockEndNumber|, IsSpace))
  }

  /** The lazy `([\s\S]*?)`: the first closing anchor at or after `c`. */
  function FirstBlockEndFrom(s: string, c: nat): (r: Option<nat>)
    ensures r.Some? ==> c <= r.value && IsBlockEndAt(s, r.value)
    ensures forall q :: c <= q && (r.None? || q < r.value) ==> !IsBlockEndAt(s, q)
    decreases |s| - c
  {
    if c + |BlockEndNumber| > |s| then None
    else if IsBlockEndAt(s, c) then Some(c)
    else FirstBlockEndFrom(s, c + 1)
  }

  /** The whole block pattern matches at `p`. */
  predicate BlockMatchesAt(s: string, p: int)
  {
    0 <= p && BlockStartAt(s, p).Some? && FirstBlockEndFrom(s, BlockStartAt(s, p).value).Some?
  }

  /** Where a match of the block pattern begins, and where its capture starts and ends. */
  datatype BlockMatch = BlockMatch(at: nat, start: nat, end: nat)

  /** The leftmost match of the block pattern at or after `from`. */
  function FindBlockFrom(s: string, from: nat): (r: Option<BlockMatch>)
    ensures r.Some? ==> from <= r.value.at && BlockMatchesAt(s, r.value.at)
    ensures r.Some? ==> BlockStartAt(s, r.value.at) == Some(r.value.start)
                        && FirstBlockEndFrom(s, r.value.start) == Some(r.value.end)
    ensures forall p :: from <= p && (r.None? || p < r.value.at) ==> !BlockMatchesAt(s, p)
    decreases |s| - from
  {
    if from + |BlockStartNumber| > |s| then None
    else if BlockMatchesAt(s, from) then
      var c := BlockStartAt(s, from).value;
      Some(BlockMatch(from, c, FirstBlockEndFrom(s, c).value))
    else FindBlockFrom(s, from + 1)
  }

  /**
   * `fullRevenuesBlockMatch ? fullRevenuesBlockMatch[1] : ''`: the text after the
   * first opening anchor that has a closing anchor after it, up to the first such
   * closing anchor; "" when there is no match.
   */
  function RawBlock(text: string): (r: string)
    ensures (forall q :: 0 <= q ==> !IsBlockEndAt(text, q)) ==> r == []
    ensures (forall p :: 0 <= p ==> !OccursAt(text, BlockStartNumber, p)) ==> r == []
    ensures (forall p :: 0 <= p ==> !OccursAt(text, BlockStartTitle, p)) ==> r == []
  {
    match FindBlockFrom(text, 0)
    case None => []
    case Some(m) => text[m.start..m.end]
  }

  /** The block is the text up to the first closing anchor after its opening anchor. */
  lemma RawBlockIsLazy(text: string)
    requires FindBlockFrom(text, 0).Some?
    ensures var m := FindBlockFrom(text, 0).value;
            RawBlock(text) == text[m.start..m.end]
            && IsBlockEndAt(text, m.end)
            && (forall q :: m.start <= q < m.end ==> !IsBlockEndAt(text, q))
            && (forall p :: 0 <= p < m.at ==> !BlockMatchesAt(text, p))
  {
  }

  // ---------------------------------------------------------------------------
  // .replace(/["']/g, '').replace(/\r?\n|\r/g, ' ').replace(/\s+/g, ' ').trim()

  predicate IsQuote(c: char)
  {
    c == '"' || c == '\''
  }

  predicate IsLineBreak(c: char)
  {
    c == '\r' || c == '\n'
  }

  /** `.replace(/["']/g, '')`. */
  function StripQuotes(s: string): (r: string)
    ensures forall k :: 0 <= k < |r| ==> !IsQuote(r[k]) && r[k] in s
  {
    if s == [] then []
    else (if IsQuote(s[0]) then [] else [s[0]]) + StripQuotes(s[1..])
  }

  /** `.replace(/\r?\n|\r/g, ' ')`: "\r\n", "\n" and "\r" each become one space. */
  function ReplaceLineBreaks(s: string): (r: string)
    ensures forall k :: 0 <= k < |r| ==> !IsLineBreak(r[k]) && (r[k] == ' ' || r[k] in s)
    decreases |s|
  {
    if s == [] then []
    else if |s| > 1 && s[0] == '\r' && s[1] == '\n' then [' '] + ReplaceLineBreaks(s[2..])
    else if IsLineBreak(s[0]) then [' '] + ReplaceLineBreaks(s[1..])
    else [s[0]] + ReplaceLineBreaks(s[1..])
  }

  /** `.replace(/\s+/g, ' ')`: every maximal whitespace run becomes a single space. */
  function CollapseSpaces(s: string): (r: string)
    ensures |s| > 0 <==> |r| > 0
    ensures |s| > 0 ==> (IsSpace(r[0]) <==> IsSpace(s[0]))
    ensures forall k :: 0 <= k < |r| ==> r[k] == ' ' || (!IsSpace(r[k]) && r[k] in s)
    ensures forall k :: 0 <= k < |r| - 1 ==> !(IsSpace(r[k]) && IsSpace(r[k + 1]))
    decreases |s|
  {
    if s == [] then []
    else if IsSpace(s[0]) then [' '] + CollapseSpaces(s[RunEnd(s, 0, IsSpace)..])
    else [s[0]] + CollapseSpaces(s[1..])
  }

  /** No quotes, no line breaks, single spaces as the only whitespace. */
  predicate IsCollapsed(t: string)
  {
    && (forall k :: 0 <= k < |t| ==> !IsQuote(t[k]) && !IsLineBreak(t[k]))
    && (forall k :: 0 <= k < |t| ==> IsSpace(t[k]) ==> t[k] == ' ')
    && (forall k :: 0 <= k < |t| - 1 ==> !(IsSpace(t[k]) && IsSpace(t[k + 1])))
  }

  /** What the normalisation guarantees of the block. */
  predicate IsNormalized(t: string)
  {
    IsCollapsed(t) && IsTrimmed(t)
  }

  /** The three replacements leave no quote, no line break and no whitespace run. */
  lemma ReplacementsCollapse(s: string)
    ensures IsCollapsed(CollapseSpaces(ReplaceLineBreaks(StripQuotes(s))))
  {
    var q := StripQuotes(s);
    var l := ReplaceLineBreaks(q);
    var c := CollapseSpaces(l);
    forall k | 0 <= k < |c|
      ensures !IsQuote(c[k]) && !IsLineBreak(c[k])
    {
      if c[k] != ' ' {
        var j :| 0 <= j < |l| && l[j] == c[k];
        if l[j] != ' ' {
          var m :| 0 <= m < |q| && q[m] == l[j];
        }
      }
    }
  }

  /** Trimming keeps a collapsed text collapsed. */
  lemma TrimKeepsCollapsed(c: string)
    requires IsCollapsed(c)
    ensures IsCollapsed(Trim(c))
  {
    TrimDropsOnlySpaces(c);
    var a := TrimStart(c);
    var t := Trim(c);
    assert forall k :: 0 <= k < |t| ==> t[k] == c[a + k];
  }

  /**
   * Line 70's normalisation: no quotes, no line breaks, single spaces as the only
   * whitespace, nothing at either end.
   */
  function Normalize(s: string): (r: string)
    ensures IsNormalized(r)
  {
    var c := CollapseSpaces(ReplaceLineBreaks(StripQuotes(s)));
    ReplacementsCollapse(s);
    TrimKeepsCollapsed(c);
    Trim(c)
  }

  lemma {:induction false} StripQuotesOfQuoteless(s: string)
    requires forall k :: 0 <= k < |s| ==> !IsQuote(s[k])
    ensures StripQuotes(s) == s
  {
    if s != [] {
      StripQuotesOfQuoteless(s[1..]);
    }
  }

  /** Each line break, "\r\n" counting as one, becomes exactly one space. */
  lemma ReplaceLineBreaksOfBreak(s: string)
    requires s == "\r\n" || (|s| == 1 && IsLineBreak(s[0]))
    ensures ReplaceLineBreaks(s) == " "
  {
  }

  lemma {:induction false} ReplaceLineBreaksOfUnbroken(s: string)
    requires forall k :: 0 <= k < |s| ==> !IsLineBreak(s[k])
    ensures ReplaceLineBreaks(s) == s
  {
    if s != [] {
      ReplaceLineBreaksOfUnbroken(s[1..]);
    }
  }

  lemma {:induction false} CollapseSpacesOfCollapsed(s: string)
    requires forall k :: 0 <= k < |s| ==> IsSpace(s[k]) ==> s[k] == ' '
    requires forall k :: 0 <= k < |s| - 1 ==> !(IsSpace(s[k]) && IsSpace(s[k + 1]))
    ensures CollapseSpaces(s) == s
  {
    if s != [] {
      if IsSpace(s[0]) {
        assert RunEnd(s, 0, IsSpace) == 1;
      }
      CollapseSpacesOfCollapsed(s[1..]);
    }
  }

  /** Normalised text is left as it is, so normalising twice is normalising once. */
  lemma NormalizeOfNormalized(t: string)
    requires IsNormalized(t)
    ensures Normalize(t) == t
  {
    StripQuotesOfQuoteless(t);
    ReplaceLineBreaksOfUnbroken(t);
    CollapseSpacesOfCollapsed(t);
    TrimOfTrimmed(t);
  }

  lemma NormalizeIsIdempotent(s: string)
    ensures Normalize(Normalize(s)) == Normalize(s)
  {
    NormalizeOfNormalized(Normalize(s));
  }

  // ---------------------------------------------------------------------------
  // What the normalisation keeps

  /** The characters that are neither whitespace nor quotes, in order. */
  function Visible(s: string): string
  {
    if s == [] then [] else (if IsSpace(s[0]) || IsQuote(s[0]) then [] else [s[0]]) + Visible(s[1..])
  }

  lemma {:induction false} VisibleAppend(a: string, b: string)
    ensures Visible(a + b) == Visible(a) + Visible(b)
  {
    if a == [] {
      assert a + b == b;
    } else {
      assert (a + b)[1..] == a[1..] + b;
      VisibleAppend(a[1..], b);
    }
  }

  lemma {:induction false} VisibleOfSpaces(s: string)
    requires forall k :: 0 <= k < |s| ==> IsSpace(s[k])
    ensures Visible(s) == []
  {
    if s != [] {
      VisibleOfSpaces(s[1..]);
    }
  }

  lemma VisibleOfOne(c: char)
    ensures Visible([c]) == if IsSpace(c) || IsQuote(c) then [] else [c]
  {
    assert [c][1..] == [];
  }

  /** Removing quotes keeps every other character, in order. */
  lemma {:induction false} StripQuotesKeepsVisible(s: string)
    ensures Visible(StripQuotes(s)) == Visible(s)
  {
    if s != [] {
      var head := if IsQuote(s[0]) then [] else [s[0]];
      StripQuotesKeepsVisible(s[1..]);
      VisibleAppend(head, StripQuotes(s[1..]));
      VisibleOfOne(s[0]);
    }
  }

  /** Turning line breaks into spaces keeps every other character, in order. */
  lemma {:induction false} ReplaceLineBreaksKeepsVisible(s: string)
    ensures Visible(ReplaceLineBreaks(s)) == Visible(s)
    decreases |s|
  {
    if s == [] {
    } else if |s| > 1 && s[0] == '\r' && s[1] == '\n' {
      ReplaceLineBreaksKeepsVisible(s[2..]);
      VisibleAppend([' '], ReplaceLineBreaks(s[2..]));
      VisibleOfOne(' ');
      assert s[1..][1..] == s[2..];
    } else {
      var head := if IsLineBreak(s[0]) then ' ' else s[0];
      ReplaceLineBreaksKeepsVisible(s[1..]);
      VisibleAppend([head], ReplaceLineBreaks(s[1..]));
      VisibleOfOne(head);
    }
  }

  /** Collapsing whitespace runs keeps every other character, in order. */
  lemma {:induction false} CollapseSpacesKeepsVisible(s: string)
    ensures Visible(CollapseSpaces(s)) == Visible(s)
    decreases |s|
  {
    if s == [] {
    } else if IsSpace(s[0]) {
      var e := RunEnd(s, 0, IsSpace);
      CollapseSpacesKeepsVisible(s[e..]);
      VisibleAppend([' '], CollapseSpaces(s[e..]));
      VisibleOfOne(' ');
      assert s == s[..e] + s[e..];
      VisibleAppend(s[..e], s[e..]);
      VisibleOfSpaces(s[..e]);
    } else {
      CollapseSpacesKeepsVisible(s[1..]);
      VisibleAppend([s[0]], CollapseSpaces(s[1..]));
      VisibleOfOne(s[0]);
    }
  }

  /** Trimming keeps every non-whitespace character, in order. */
  lemma TrimKeepsVisible(s: string)
    ensures Visible(Trim(s)) == Visible(s)
  {
    TrimDropsOnlySpaces(s);
    var a := TrimStart(s);
    var b := TrimEnd(s);
    assert s == s[..a] + (s[a..b] + s[b..]);
    VisibleAppend(s[..a], s[a..b] + s[b..]);
    VisibleAppend(s[a..b], s[b..]);
    VisibleOfSpaces(s[..a]);
    VisibleOfSpaces(s[b..]);
  }

  /**
   * Normalising changes only whitespace and quotes: every other character of the
   * block survives, in its order.
   */
  lemma NormalizeKeepsVisible(s: string)
    ensures Visible(Normalize(s)) == Visible(s)
  {
    var q := StripQuotes(s);
    var l := ReplaceLineBreaks(q);
    var c := CollapseSpaces(l);
    StripQuotesKeepsVisible(s);
    ReplaceLineBreaksKeepsVisible(q);
    CollapseSpacesKeepsVisible(l);
    TrimKeepsVisible(c);
  }

  /** Quote removal works piece by piece. */
  lemma {:induction false} StripQuotesAppend(a: string, b: string)
    ensures StripQuotes(a + b) == StripQuotes(a) + StripQuotes(b)
  {
    if a == [] {
      assert a + b == b;
    } else {
      assert (a + b)[1..] == a[1..] + b;
      StripQuotesAppend(a[1..], b);
    }
  }

  /** Line-break replacement works piece by piece, unless the pieces split a "\r\n". */
  lemma {:induction false} ReplaceLineBreaksAppend(a: string, b: string)
    requires !(a != [] && b != [] && a[|a| - 1] == '\r' && b[0] == '\n')
    ensures ReplaceLineBreaks(a + b) == ReplaceLineBreaks(a) + ReplaceLineBreaks(b)
    decreases |a|
  {
    if a == [] {
      assert a + b == b;
    } else {
      var n := if |a| > 1 && a[0] == '\r' && a[1] == '\n' then 2 else 1;
      var rest := a[n..];
      assert rest != [] ==> rest[|rest| - 1] == a[|a| - 1];
      ReplaceLineBreaksAppend(rest, b);
      ReplaceLineBreaksOfHead(a, b, n);
      var head := if IsLineBreak(a[0]) then ' ' else a[0];
      AppendIsAssociative([head], ReplaceLineBreaks(rest), ReplaceLineBreaks(b));
    }
  }

  /** The first replacement step is the same for `a` and for `a + b`. */
  lemma ReplaceLineBreaksOfHead(a: string, b: string, n: nat)
    requires a != [] && n == if |a| > 1 && a[0] == '\r' && a[1] == '\n' then 2 else 1
    requires !(b != [] && a[|a| - 1] == '\r' && b[0] == '\n')
    ensures var head := if IsLineBreak(a[0]) then ' ' else a[0];
            ReplaceLineBreaks(a) == [head] + ReplaceLineBreaks(a[n..])
            && ReplaceLineBreaks(a + b) == [head] + ReplaceLineBreaks(a[n..] + b)
  {
    var ab := a + b;
    assert ab[0] == a[0];
    if |a| > 1 {
      assert ab[1] == a[1];
    } else if b != [] {
      assert ab[1] == b[0];
    }
    DropOfAppend(a, b, n);
  }


  lemma CollapseSpacesOfSpaceRun(a: string, b: string, e: nat)
    requires a != [] && IsSpace(a[0]) && e == RunEnd(a, 0, IsSpace)
    requires !(b != [] && IsSpace(a[|a| - 1]) && IsSpace(b[0]))
    ensures CollapseSpaces(a + b) == [' '] + CollapseSpaces(a[e..] + b)
  {
    SpaceRunOfAppend(a, b, e);
    var ab := a + b;
    CollapseSpacesAtRun(ab, e);
    DropOfAppend(a, b, e);
  }

  lemma DropOfAppend(a: string, b: string, e: nat)
    requires e <= |a|
    ensures (a + b)[e..] == a[e..] + b
  {
  }

  lemma CollapseSpacesAtRun(s: string, e: nat)
    requires s != [] && IsSpace(s[0]) && e == RunEnd(s, 0, IsSpace)
    ensures CollapseSpaces(s) == [' '] + CollapseSpaces(s[e..])
  {
  }

  lemma SpaceRunOfAppend(a: string, b: string, e: nat)
    requires a != [] && IsSpace(a[0]) && e == RunEnd(a, 0, IsSpace)
    requires !(b != [] && IsSpace(a[|a| - 1]) && IsSpace(b[0]))
    ensures e <= |a| && RunEnd(a + b, 0, IsSpace) == e && (a + b)[0] == a[0]
  {
    var ab := a + b;
    assert forall k :: 0 <= k < e ==> ab[k] == a[k] && IsSpace(ab[k]);
    if e < |a| {
      assert ab[e] == a[e];
    } else if b != [] {
      assert IsSpace(a[|a| - 1]);
      assert ab[e] == b[0];
    }
    RunEndAt(ab, 0, e, IsSpace);
  }

  /** Whitespace collapsing works piece by piece, unless the pieces split a whitespace run. */
  lemma {:induction false} CollapseSpacesAppend(a: string, b: string)
    requires !(a != [] && b != [] && IsSpace(a[|a| - 1]) && IsSpace(b[0]))
    ensures CollapseSpaces(a + b) == CollapseSpaces(a) + CollapseSpaces(b)
    decreases |a|
  {
    if a == [] {
      assert a + b == b;
    } else {
      var e := if IsSpace(a[0]) then RunEnd(a, 0, IsSpace) else 1;
      var rest := a[e..];
      assert rest != [] ==> rest[|rest| - 1] == a[|a| - 1];
      CollapseSpacesAppend(rest, b);
      CollapseSpacesStep(a, b, e);
    }
  }

  lemma CollapseSpacesStep(a: string, b: string, e: nat)
    requires a != [] && e == (if IsSpace(a[0]) then RunEnd(a, 0, IsSpace) else 1)
    requires !(b != [] && IsSpace(a[|a| - 1]) && IsSpace(b[0]))
    requires CollapseSpaces(a[e..] + b) == CollapseSpaces(a[e..]) + CollapseSpaces(b)
    ensures CollapseSpaces(a + b) == CollapseSpaces(a) + CollapseSpaces(b)
  {
    var head := if IsSpace(a[0]) then [' '] else [a[0]];
    if IsSpace(a[0]) {
      CollapseSpacesAtRun(a, e);
      CollapseSpacesOfSpaceRun(a, b, e);
    } else {
      CollapseSpacesOfVisibleHead(a, b);
    }
    AppendIsAssociative(head, CollapseSpaces(a[e..]), CollapseSpaces(b));
  }

  lemma AppendIsAssociative(x: string, y: string, z: string)
    ensures x + (y + z) == (x + y) + z
  {
  }

  lemma CollapseSpacesOfVisibleHead(a: string, b: string)
    requires a != [] && !IsSpace(a[0])
    ensures CollapseSpaces(a) == [a[0]] + CollapseSpaces(a[1..])
    ensures CollapseSpaces(a + b) == [a[0]] + CollapseSpaces(a[1..] + b)
  {
    var ab := a + b;
    assert ab[0] == a[0];
    DropOfAppend(a, b, 1);
  }


  /** The block text the market split works on: "" when the block pattern does not match. */
  function BlockText(text: string): (r: string)
    ensures IsNormalized(r)
    ensures FindBlockFrom(text, 0).None? ==> r == []
  {
    Normalize(RawBlock(text))
  }

  // ---------------------------------------------------------------------------
  // The market split

  /** `internalMarketContent`: after the domestic marker, up to the foreign marker, the next section or the end. */
  function InternalContent(b: string): (r: string)
    ensures IsTrimmed(r)
    ensures IndexOf(b, InternalMarketMarker) == -1 ==> r == []
  {
    var i := IndexOf(b, InternalMarketMarker);
    var x := IndexOf(b, ExternalMarketMarker);
    var n := IndexOf(b, NextSectionMarker);
    if i == -1 then []
    else
      var e := if x != -1 then x else n;
      var e' := if e == -1 then |b| else e;
      Trim(Substring(b, i + |InternalMarketMarker|, e'))
  }

  /** `externalMarketContent`: after the foreign marker, up to the next section or the end. */
  function ExternalContent(b: string): (r: string)
    ensures IsTrimmed(r)
    ensures IndexOf(b, ExternalMarketMarker) == -1 ==> r == []
  {
    var x := IndexOf(b, ExternalMarketMarker);
    var n := IndexOf(b, NextSectionMarker);
    if x == -1 then []
    else
      var e := if n != -1 then n else |b|;
      Trim(Substring(b, x + |ExternalMarketMarker|, e))
  }

  /** Markers in order: the domestic part is exactly the text between them. */
  lemma InternalContentBetweenMarkers(b: string)
    requires var i := IndexOf(b, InternalMarketMarker); var x := IndexOf(b, ExternalMarketMarker);
             i != -1 && x != -1 && i + |InternalMarketMarker| <= x
    ensures InternalContent(b) == Trim(b[IndexOf(b, InternalMarketMarker) + |InternalMarketMarker|..IndexOf(b, ExternalMarketMarker)])
  {
  }

  /** Without the foreign marker or the next section, the domestic part runs to the end of the block. */
  lemma InternalContentToEnd(b: string)
    requires IndexOf(b, InternalMarketMarker) != -1
    requires IndexOf(b, ExternalMarketMarker) == -1 && IndexOf(b, NextSectionMarker) == -1
    ensures InternalContent(b) == Trim(b[IndexOf(b, InternalMarketMarker) + |InternalMarketMarker|..|b|])
  {
    var i := IndexOf(b, InternalMarketMarker);
    assert OccursAt(b, InternalMarketMarker, i);
    var start := i + |InternalMarketMarker|;
    assert Clamp(start, |b|) == start && Clamp(|b|, |b|) == |b|;
    assert InternalContent(b) == Trim(Substring(b, start, |b|));
  }

  /**
   * The foreign marker before the domestic one: `substring` swaps its bounds, so the
   * domestic part is the text from the foreign marker to the end of the domestic marker.
   */
  lemma InternalContentWhenMarkersSwapped(b: string)
    requires var i := IndexOf(b, InternalMarketMarker); var x := IndexOf(b, ExternalMarketMarker);
             i != -1 && x != -1 && x < i
    ensures InternalContent(b) == Trim(b[IndexOf(b, ExternalMarketMarker)..IndexOf(b, InternalMarketMarker) + |InternalMarketMarker|])
  {
  }

  /** Without the next-section marker, the foreign part runs to the end of the block. */
  lemma ExternalContentToEnd(b: string)
    requires IndexOf(b, ExternalMarketMarker) != -1 && IndexOf(b, NextSectionMarker) == -1
    ensures ExternalContent(b) == Trim(b[IndexOf(b, ExternalMarketMarker) + |ExternalMarketMarker|..|b|])
  {
    var x := IndexOf(b, ExternalMarketMarker);
    assert OccursAt(b, ExternalMarketMarker, x);
    var start := x + |ExternalMarketMarker|;
    assert Clamp(start, |b|) == start && Clamp(|b|, |b|) == |b|;
    assert ExternalContent(b) == Trim(Substring(b, start, |b|));
  }

  /** Without the foreign marker, the domestic part runs up to the next-section marker. */
  lemma InternalContentUpToNextSection(b: string)
    requires var i := IndexOf(b, InternalMarketMarker); var n := IndexOf(b, NextSectionMarker);
             i != -1 && IndexOf(b, ExternalMarketMarker) == -1 && n != -1 && i + |InternalMarketMarker| <= n
    ensures InternalContent(b) == Trim(b[IndexOf(b, InternalMarketMarker) + |InternalMarketMarker|..IndexOf(b, NextSectionMarker)])
  {
  }

  /** With the next-section marker after it, the foreign part is the text between the two. */
  lemma ExternalContentUpToNextSection(b: string)
    requires var x := IndexOf(b, ExternalMarketMarker); var n := IndexOf(b, NextSectionMarker);
             x != -1 && n != -1 && x + |ExternalMarketMarker| <= n
    ensures ExternalContent(b) == Trim(b[IndexOf(b, ExternalMarketMarker) + |ExternalMarketMarker|..IndexOf(b, NextSectionMarker)])
  {
  }
}
