/**
 * The five header fields of a PGDAS declaration, each read by one regular
 * expression: `label\s*([C]+)` for the CNPJ, the company name and the period,
 * and `label\s+suffix\s+([0-9.,]+)` for the two revenue totals. Each pattern is a
 * hand-written scanner with the backtracking of JavaScript's matcher.
 */
module HeaderFields {
  import opened Wrappers
  import opened JsText
  import opened BrNumber

  const CnpjLabel: string := "CNPJ Matriz:"
  const NomeEmpresarialLabel: string := "Nome empresarial:"
  const PeriodoApuracaoLabel: string := "Per\U{ED}odo de Apura\U{E7}\U{E3}o:"
  const Rbt12Label: string := "Receita bruta acumulada nos doze meses anteriores"
  const Rbt12Suffix: string := "ao PA (RBT12)"
  const RbaLabel: string := "Receita bruta acumulada no ano-calend\U{E1}rio corrente"
  const RbaSuffix: string := "(RBA)"

  /** `[\d.\-/\s]`: the characters a CNPJ capture may contain. */
  predicate IsCnpjChar(c: char)
  {
    IsDigit(c) || c == '.' || c == '-' || c == '/' || IsSpace(c)
  }

  /** `[^\n]`. */
  predicate IsLineChar(c: char)
  {
    c != '\n'
  }

  // ---------------------------------------------------------------------------
  // label\s*([C]+)

  /**
   * Where `[C]+` starts after the greedy `\s*` that ran from `e` to `w`: the matcher
   * gives back one whitespace character at a time, so it is the last position in
   * `[e, w]` holding a `C` character.
   */
  function ClassStart(s: string, e: nat, w: nat, inClass: char -> bool): (r: Option<nat>)
    requires e <= w <= |s|
    ensures r.Some? ==> e <= r.value <= w && r.value < |s| && inClass(s[r.value])
    ensures r.Some? ==> forall k :: r.value < k <= w && k < |s| ==> !inClass(s[k])
    ensures r.None? ==> forall k :: e <= k <= w && k < |s| ==> !inClass(s[k])
    decreases w - e
  {
    if w < |s| && inClass(s[w]) then Some(w)
    else if w == e then None
    else ClassStart(s, e, w - 1, inClass)
  }

  /**
   * `k` is where `[C]+` starts after a label ending at `e` whose whitespace runs to `w`:
   * whitespace up to `k`, a `C` character at `k`, and none later within the run.
   */
  predicate IsCaptureStart(s: string, e: nat, w: nat, k: nat, inClass: char -> bool)
    requires e <= w <= |s|
  {
    e <= k <= w && k < |s| && inClass(s[k])
    && (forall j :: e <= j < k ==> IsSpace(s[j]))
    && (forall j :: k < j <= w && j < |s| ==> !inClass(s[j]))
  }

  /** `c` is the longest `C` run from a capture start. */
  ghost predicate IsCaptureFrom(s: string, e: nat, w: nat, inClass: char -> bool, c: string)
    requires e <= w <= |s|
  {
    exists k: nat :: IsCaptureStart(s, e, w, k, inClass) && c == s[k..RunEnd(s, k, inClass)]
  }

  /**
   * Group 1 of `label\s*([C]+)` tried at `p`, where `label` occurs: the longest `C` run
   * from the capture start, or nothing when no `C` character follows the whitespace.
   */
  function CaptureAt(s: string, anchor: string, p: nat, inClass: char -> bool): (r: Option<string>)
    requires OccursAt(s, anchor, p)
    ensures var e := p + |anchor|; var w := RunEnd(s, e, IsSpace);
            r.Some? ==> IsCaptureFrom(s, e, w, inClass, r.value)
    ensures var e := p + |anchor|; var w := RunEnd(s, e, IsSpace);
            r.None? ==> forall k :: e <= k <= w && k < |s| ==> !inClass(s[k])
  {
    var e := p + |anchor|;
    match ClassStart(s, e, RunEnd(s, e, IsSpace), inClass)
    case None => None
    case Some(k) =>
      assert IsCaptureStart(s, e, RunEnd(s, e, IsSpace), k, inClass);
      Some(s[k..RunEnd(s, k, inClass)])
  }

  predicate MatchesAt(s: string, anchor: string, inClass: char -> bool, p: int)
  {
    OccursAt(s, anchor, p) && CaptureAt(s, anchor, p, inClass).Some?
  }

  /** The pattern matches at `p` exactly when a `C` character sits after the label, past whitespace only. */
  lemma MatchesAtIff(s: string, anchor: string, inClass: char -> bool, p: nat)
    requires OccursAt(s, anchor, p)
    ensures MatchesAt(s, anchor, inClass, p)
        <==> exists k :: p + |anchor| <= k < |s| && k <= RunEnd(s, p + |anchor|, IsSpace) && inClass(s[k])
  {
    var e := p + |anchor|;
    var r := ClassStart(s, e, RunEnd(s, e, IsSpace), inClass);
    if r.Some? {
      assert e <= r.value < |s| && inClass(s[r.value]);
    }
  }

  /** The leftmost position at or after `from` where the whole pattern matches. */
  function FirstMatchFrom(s: string, anchor: string, inClass: char -> bool, from: nat): (r: Option<nat>)
    ensures r.Some? ==> from <= r.value && MatchesAt(s, anchor, inClass, r.value)
    ensures forall q :: from <= q && (r.None? || q < r.value) ==> !MatchesAt(s, anchor, inClass, q)
    decreases |s| - from
  {
    if from + |anchor| > |s| then None
    else if MatchesAt(s, anchor, inClass, from) then Some(from)
    else FirstMatchFrom(s, anchor, inClass, from + 1)
  }

  /** `s.match(/label\s*([C]+)/)`, group 1: the capture at the leftmost match, a non-empty `C` run. */
  function LabelCapture(s: string, anchor: string, inClass: char -> bool): (r: Option<string>)
    ensures r.None? <==> forall q :: 0 <= q ==> !MatchesAt(s, anchor, inClass, q)
    ensures r.Some? ==> |r.value| > 0 && forall k :: 0 <= k < |r.value| ==> inClass(r.value[k])
    ensures r.Some? ==>
              FirstMatchFrom(s, anchor, inClass, 0).Some? &&
              r.value == CaptureAt(s, anchor, FirstMatchFrom(s, anchor, inClass, 0).value, inClass).value
  {
    match FirstMatchFrom(s, anchor, inClass, 0)
    case None => None
    case Some(p) => CaptureAt(s, anchor, p, inClass)
  }

  /** `if (m) data.field = m[1].trim()`: the trimmed capture, when the pattern matches. */
  function TrimmedCapture(s: string, anchor: string, inClass: char -> bool): (r: Option<string>)
    ensures r.Some? <==> LabelCapture(s, anchor, inClass).Some?
    ensures r.Some? ==> IsTrimmed(r.value) && forall k :: 0 <= k < |r.value| ==> inClass(r.value[k])
    ensures r.Some? ==> r.value == Trim(LabelCapture(s, anchor, inClass).value)
  {
    match LabelCapture(s, anchor, inClass)
    case None => None
    case Some(c) =>
      TrimDropsOnlySpaces(c);
      Some(Trim(c))
  }

  // ---------------------------------------------------------------------------
  // The three text fields

  /** `data.cnpj`: trimmed, made only of digits, `.`, `-`, `/` and inner whitespace; it may be "". */
  function Cnpj(text: string): (r: Option<string>)
    ensures r.Some? ==> IsTrimmed(r.value) && forall k :: 0 <= k < |r.value| ==> IsCnpjChar(r.value[k])
  {
    TrimmedCapture(text, CnpjLabel, IsCnpjChar)
  }

  /** `data.nomeEmpresarial`: trimmed and within one line. */
  function NomeEmpresarial(text: string): (r: Option<string>)
    ensures r.Some? ==> IsTrimmed(r.value) && forall k :: 0 <= k < |r.value| ==> r.value[k] != '\n'
  {
    TrimmedCapture(text, NomeEmpresarialLabel, IsLineChar)
  }

  /** `data.periodoApuracao`: trimmed and within one line. */
  function PeriodoApuracao(text: string): (r: Option<string>)
    ensures r.Some? ==> IsTrimmed(r.value) && forall k :: 0 <= k < |r.value| ==> r.value[k] != '\n'
  {
    TrimmedCapture(text, PeriodoApuracaoLabel, IsLineChar)
  }

  /** Whitespace belongs to the CNPJ class, so `\s*` never has to give anything back. */
  lemma CnpjMatchesAtIff(s: string, p: nat)
    requires OccursAt(s, CnpjLabel, p)
    ensures MatchesAt(s, CnpjLabel, IsCnpjChar, p)
        <==> p + |CnpjLabel| < |s| && IsCnpjChar(s[p + |CnpjLabel|])
  {
    MatchesAtIff(s, CnpjLabel, IsCnpjChar, p);
  }

  /** The longest run of `C` characters from `i` reaches past an in-class stretch `[i, j)`. */
  lemma RunEndSkips(s: string, i: nat, j: nat, inClass: char -> bool)
    requires i <= j <= |s|
    requires forall k :: i <= k < j ==> inClass(s[k])
    ensures RunEnd(s, i, inClass) == RunEnd(s, j, inClass)
  {
  }

  /** A CNPJ character right after the label's whitespace: the capture starts there. */
  lemma CnpjRunAfterSpaces(s: string, e: nat, w: nat, run: nat)
    requires e <= |s| && w == RunEnd(s, e, IsSpace) && run == RunEnd(s, e, IsCnpjChar)
    requires w < |s| && IsCnpjChar(s[w])
    ensures w <= run
    ensures Trim(s[w..RunEnd(s, w, IsCnpjChar)]) == Trim(s[e..run])
  {
    RunEndSkips(s, e, w, IsCnpjChar);
    var t := s[e..run];
    assert t[w - e..] == s[w..run];
    TrimOfSpacePrefix(t, w - e);
  }

  /** No CNPJ character after the label's whitespace: `\s*` gives back one space, which trims away. */
  lemma CnpjRunOfOneSpace(s: string, e: nat, w: nat, run: nat)
    requires e <= |s| && e < w && w == RunEnd(s, e, IsSpace) && run == RunEnd(s, e, IsCnpjChar)
    requires !(w < |s| && IsCnpjChar(s[w]))
    ensures ClassStart(s, e, w, IsCnpjChar) == Some(w - 1)
    ensures Trim(s[w - 1..RunEnd(s, w - 1, IsCnpjChar)]) == [] == Trim(s[e..run])
  {
    RunEndSkips(s, e, w, IsCnpjChar);
    RunEndSkips(s, w - 1, w, IsCnpjChar);
    TrimOfSpaces(s[w - 1..w]);
    TrimOfSpaces(s[e..w]);
  }

  /**
   * The CNPJ read at a label is the trimmed longest run of CNPJ characters right
   * after the label, wherever the backtracking `\s*` ended up.
   */
  lemma CnpjIsTrimmedRun(s: string, p: nat)
    requires MatchesAt(s, CnpjLabel, IsCnpjChar, p)
    ensures Trim(CaptureAt(s, CnpjLabel, p, IsCnpjChar).value)
         == Trim(s[p + |CnpjLabel|..RunEnd(s, p + |CnpjLabel|, IsCnpjChar)])
  {
    var e := p + |CnpjLabel|;
    var w := RunEnd(s, e, IsSpace);
    var run := RunEnd(s, e, IsCnpjChar);
    if w < |s| && IsCnpjChar(s[w]) {
      CnpjRunAfterSpaces(s, e, w, run);
    } else {
      assert w > e;
      CnpjRunOfOneSpace(s, e, w, run);
    }
  }

  /**
   * For the company name and the period: when text follows the label's whitespace,
   * the capture is the rest of the line from that text on (the `\s*` may first
   * skip line breaks).
   */
  lemma LineCaptureIsRestOfLine(s: string, anchor: string, p: nat)
    requires OccursAt(s, anchor, p)
    requires RunEnd(s, p + |anchor|, IsSpace) < |s|
    ensures CaptureAt(s, anchor, p, IsLineChar).Some?
    ensures var w := RunEnd(s, p + |anchor|, IsSpace);
            var c := CaptureAt(s, anchor, p, IsLineChar).value;
            c == s[w..|s|] || (c == s[w..w + |c|] && s[w + |c|] == '\n')
  {
  }

  /**
   * `data.cnpj` is the trimmed longest run of CNPJ characters right after the
   * leftmost label that is followed by one.
   */
  lemma {:induction false} CnpjIsLeftmostTrimmedRun(text: string)
    ensures Cnpj(text).Some? <==> FirstMatchFrom(text, CnpjLabel, IsCnpjChar, 0).Some?
    ensures Cnpj(text).Some? ==>
              var p := FirstMatchFrom(text, CnpjLabel, IsCnpjChar, 0).value;
              p + |CnpjLabel| < |text| && IsCnpjChar(text[p + |CnpjLabel|]) &&
              Cnpj(text).value == Trim(text[p + |CnpjLabel|..RunEnd(text, p + |CnpjLabel|, IsCnpjChar)])
  {
    var m := FirstMatchFrom(text, CnpjLabel, IsCnpjChar, 0);
    if m.Some? {
      CnpjMatchesAtIff(text, m.value);
      CnpjIsTrimmedRun(text, m.value);
    }
  }

  /**
   * `data.nomeEmpresarial` is the trimmed rest of the line that starts after the
   * whitespace following the leftmost matching label (the whitespace may span lines).
   */
  lemma {:induction false} NomeEmpresarialIsRestOfLine(text: string)
    ensures NomeEmpresarial(text).Some? <==> FirstMatchFrom(text, NomeEmpresarialLabel, IsLineChar, 0).Some?
    ensures NomeEmpresarial(text).Some? ==>
              var p := FirstMatchFrom(text, NomeEmpresarialLabel, IsLineChar, 0).value;
              var w := RunEnd(text, p + |NomeEmpresarialLabel|, IsSpace);
              NomeEmpresarial(text).value == Trim(text[w..RunEnd(text, w, IsLineChar)])
  {
    var m := FirstMatchFrom(text, NomeEmpresarialLabel, IsLineChar, 0);
    if m.Some? {
      LineCaptureTrimsToRestOfLine(text, NomeEmpresarialLabel, m.value);
    }
  }

  /**
   * `data.periodoApuracao` is the trimmed rest of the line that starts after the
   * whitespace following the leftmost matching label (the whitespace may span lines).
   */
  lemma {:induction false} PeriodoApuracaoIsRestOfLine(text: string)
    ensures PeriodoApuracao(text).Some? <==> FirstMatchFrom(text, PeriodoApuracaoLabel, IsLineChar, 0).Some?
    ensures PeriodoApuracao(text).Some? ==>
              var p := FirstMatchFrom(text, PeriodoApuracaoLabel, IsLineChar, 0).value;
              var w := RunEnd(text, p + |PeriodoApuracaoLabel|, IsSpace);
              PeriodoApuracao(text).value == Trim(text[w..RunEnd(text, w, IsLineChar)])
  {
    var m := FirstMatchFrom(text, PeriodoApuracaoLabel, IsLineChar, 0);
    if m.Some? {
      LineCaptureTrimsToRestOfLine(text, PeriodoApuracaoLabel, m.value);
    }
  }

  /** The trimmed capture at a match of a line field's pattern is the trimmed rest of that line. */
  lemma LineCaptureTrimsToRestOfLine(s: string, anchor: string, p: nat)
    requires MatchesAt(s, anchor, IsLineChar, p)
    ensures var w := RunEnd(s, p + |anchor|, IsSpace);
            Trim(CaptureAt(s, anchor, p, IsLineChar).value) == Trim(s[w..RunEnd(s, w, IsLineChar)])
  {
    var w := RunEnd(s, p + |anchor|, IsSpace);
    if w < |s| {
      assert ClassStart(s, p + |anchor|, w, IsLineChar) == Some(w);
    } else {
      LineCaptureOfBlankTail(s, anchor, p);
      assert s[w..RunEnd(s, w, IsLineChar)] == [];
      TrimOfSpaces([]);
    }
  }

  /** With only whitespace after the label, a line capture can still match, but trims to "". */
  lemma LineCaptureOfBlankTail(s: string, anchor: string, p: nat)
    requires MatchesAt(s, anchor, IsLineChar, p)
    requires RunEnd(s, p + |anchor|, IsSpace) == |s|
    ensures Trim(CaptureAt(s, anchor, p, IsLineChar).value) == []
  {
    var e := p + |anchor|;
    var k := ClassStart(s, e, |s|, IsLineChar).value;
    TrimOfSpaces(s[k..RunEnd(s, k, IsLineChar)]);
  }

  // ---------------------------------------------------------------------------
  // label\s+suffix\s+([0-9.,]+)

  /**
   * Group 1 of `label\s+suffix\s+([0-9.,]+)` tried at `p`. The suffix and the number
   * class both start with non-whitespace, so each `\s+` must take its whole run
   * (see ShorterSpaceRunsFail).
   */
  function TotalCaptureAt(s: string, anchor: string, suffix: string, p: nat): (r: Option<string>)
    requires OccursAt(s, anchor, p)
    ensures r.Some? ==> |r.value| > 0 && AllNumberChars(r.value)
    ensures r.Some? ==> IsTotalCapture(s, anchor, suffix, p, r.value)
  {
    var e1 := p + |anchor|;
    var w1 := RunEnd(s, e1, IsSpace);
    if w1 == e1 || !OccursAt(s, suffix, w1) then None
    else
      var e2 := w1 + |suffix|;
      var w2 := RunEnd(s, e2, IsSpace);
      if w2 == e2 || w2 == |s| || !IsNumberChar(s[w2]) then None
      else
        assert IsTotalMatch(s, anchor, suffix, p, w1, w2, RunEnd(s, w2, IsNumberChar));
        Some(s[w2..RunEnd(s, w2, IsNumberChar)])
  }

  /**
   * One way `label\s+suffix\s+([0-9.,]+)` can match at `p`: whitespace on `[p + |label|, w1)`,
   * the suffix at `w1`, whitespace up to `w2`, and the longest number run `[w2, x)`.
   */
  predicate IsTotalMatch(s: string, anchor: string, suffix: string, p: nat, w1: nat, w2: nat, x: nat)
  {
    OccursAt(s, anchor, p) && p + |anchor| < w1 && OccursAt(s, suffix, w1)
    && w1 + |suffix| < w2 < x <= |s|
    && (forall k :: p + |anchor| <= k < w1 ==> IsSpace(s[k]))
    && (forall k :: w1 + |suffix| <= k < w2 ==> IsSpace(s[k]))
    && (forall k :: w2 <= k < x ==> IsNumberChar(s[k]))
    && (x < |s| ==> !IsNumberChar(s[x]))
  }

  /** `c` is the number run of some match of the total's pattern at `p`. */
  ghost predicate IsTotalCapture(s: string, anchor: string, suffix: string, p: nat, c: string)
  {
    exists w1: nat, w2: nat, x: nat :: IsTotalMatch(s, anchor, suffix, p, w1, w2, x) && c == s[w2..x]
  }

  /**
   * When the suffix starts with non-whitespace, any such match is the one the scanner
   * finds: the pattern matches at `p` exactly when one exists, and captures its number run.
   */
  lemma TotalMatchIsUnique(s: string, anchor: string, suffix: string, p: nat, w1: nat, w2: nat, x: nat)
    requires suffix != [] && !IsSpace(suffix[0])
    requires IsTotalMatch(s, anchor, suffix, p, w1, w2, x)
    ensures TotalCaptureAt(s, anchor, suffix, p) == Some(s[w2..x])
  {
    TotalMatchRuns(s, anchor, suffix, p, w1, w2, x);
  }

  /** The three runs of a match are the longest ones. */
  lemma TotalMatchRuns(s: string, anchor: string, suffix: string, p: nat, w1: nat, w2: nat, x: nat)
    requires suffix != [] && !IsSpace(suffix[0])
    requires IsTotalMatch(s, anchor, suffix, p, w1, w2, x)
    ensures RunEnd(s, p + |anchor|, IsSpace) == w1
    ensures RunEnd(s, w1 + |suffix|, IsSpace) == w2 && IsNumberChar(s[w2])
    ensures RunEnd(s, w2, IsNumberChar) == x
  {
    OccursAtFirst(s, suffix, w1);
    RunEndAt(s, p + |anchor|, w1, IsSpace);
    assert !IsSpace(s[w2]);
    RunEndAt(s, w1 + |suffix|, w2, IsSpace);
    RunEndAt(s, w2, x, IsNumberChar);
  }

  /** Giving back whitespace to either `\s+` leaves a whitespace character where the next part must start. */
  lemma ShorterSpaceRunsFail(s: string, anchor: string, suffix: string, p: nat, w: nat)
    requires OccursAt(s, anchor, p)
    requires suffix != [] && !IsSpace(suffix[0])
    requires p + |anchor| < w < RunEnd(s, p + |anchor|, IsSpace)
    ensures !OccursAt(s, suffix, w)
    ensures !IsNumberChar(s[w])
  {
    assert IsSpace(s[w]);
  }

  predicate TotalMatchesAt(s: string, anchor: string, suffix: string, p: int)
  {
    OccursAt(s, anchor, p) && TotalCaptureAt(s, anchor, suffix, p).Some?
  }

  function FirstTotalFrom(s: string, anchor: string, suffix: string, from: nat): (r: Option<nat>)
    ensures r.Some? ==> from <= r.value && TotalMatchesAt(s, anchor, suffix, r.value)
    ensures forall q :: from <= q && (r.None? || q < r.value) ==> !TotalMatchesAt(s, anchor, suffix, q)
    decreases |s| - from
  {
    if from + |anchor| > |s| then
      assert forall q :: from <= q ==> !OccursAt(s, anchor, q);
      None
    else if TotalMatchesAt(s, anchor, suffix, from) then Some(from)
    else FirstTotalFrom(s, anchor, suffix, from + 1)
  }

  /**
   * `if (m) data.field = parseFloat(m[1].replace(/\./g, '').replace(',', '.'))`:
   * absent when the labels do not match, otherwise a number that is never negative,
   * or NaN when the cleaned capture does not start like a decimal.
   */
  function Total(s: string, anchor: string, suffix: string): (r: Option<JsNumber>)
    ensures r.None? <==> forall q :: 0 <= q ==> !TotalMatchesAt(s, anchor, suffix, q)
    ensures r.Some? && r.value.Num? ==> r.value.value >= 0.0
  {
    match FirstTotalFrom(s, anchor, suffix, 0)
    case None => None
    case Some(p) =>
      var c := TotalCaptureAt(s, anchor, suffix, p).value;
      Some(ParseFloat(Cleaned(c)))
  }

  /** `data.receitaBrutaAcumulada` (RBT12): set exactly when its label, suffix and number occur; never negative. */
  function ReceitaBrutaAcumulada(text: string): (r: Option<JsNumber>)
    ensures r.None? <==> forall q :: 0 <= q ==> !TotalMatchesAt(text, Rbt12Label, Rbt12Suffix, q)
    ensures r.Some? && r.value.Num? ==> r.value.value >= 0.0
  {
    Total(text, Rbt12Label, Rbt12Suffix)
  }

  /** `data.receitaBrutaAno` (RBA): set exactly when its label, suffix and number occur; never negative. */
  function ReceitaBrutaAno(text: string): (r: Option<JsNumber>)
    ensures r.None? <==> forall q :: 0 <= q ==> !TotalMatchesAt(text, RbaLabel, RbaSuffix, q)
    ensures r.Some? && r.value.Num? ==> r.value.value >= 0.0
  {
    Total(text, RbaLabel, RbaSuffix)
  }

  /** A total written in the Brazilian format is read as that amount. */
  lemma TotalOfBrazilianAmount(s: string, anchor: string, suffix: string, p: nat)
    requires FirstTotalFrom(s, anchor, suffix, 0) == Some(p)
    requires var c := TotalCaptureAt(s, anchor, suffix, p).value; IsDigit(c[0]) && AmountAt(c, 0) == c
    ensures Total(s, anchor, suffix) == Some(Num(AmountValue(TotalCaptureAt(s, anchor, suffix, p).value, 0)))
  {
    AmountParses(TotalCaptureAt(s, anchor, suffix, p).value, 0);
  }

  /** Captures such as "," or "..." match `[0-9.,]+` but parse to NaN. */
  lemma TotalCanBeNaN()
    ensures AllNumberChars(Cleaned(",")) && ParseFloat(Cleaned(",")) == NaN
    ensures AllNumberChars(Cleaned("...")) && ParseFloat(Cleaned("...")) == NaN
  {
    assert RemoveDots(",") == ",";
    assert Cleaned(",") == ".";
    assert RemoveDots("...") == [];
  }
}
