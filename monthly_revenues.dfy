/**
 * `extractMonthlyRevenues`: the period tokens `\d{2}\/\d{4}` of one market section,
 * in text order, each with the first amount between it and the next token, written
 * into a JavaScript object whose keys keep their first-insertion order.
 */
module MonthlyRevenues {
  import opened Wrappers
  import opened JsText
  import opened BrNumber

  /** Length of a period token such as "01/2023". */
  const PeriodLength: nat := 7

  /** `\d{2}\/\d{4}` matches at `i`. */
  predicate IsPeriodAt(s: string, i: int)
  {
    0 <= i && i + PeriodLength <= |s|
    && IsDigit(s[i]) && IsDigit(s[i + 1]) && s[i + 2] == '/'
    && IsDigit(s[i + 3]) && IsDigit(s[i + 4]) && IsDigit(s[i + 5]) && IsDigit(s[i + 6])
  }

  /** `datePattern.exec(s)` with `lastIndex == from`: the leftmost token at or after `from`. */
  function ExecPeriod(s: string, from: nat): (r: Option<nat>)
    ensures r.Some? ==> from <= r.value && IsPeriodAt(s, r.value)
    ensures forall k :: from <= k && (r.None? || k < r.value) ==> !IsPeriodAt(s, k)
    decreases |s| - from
  {
    if from + PeriodLength > |s| then None
    else if IsPeriodAt(s, from) then Some(from)
    else ExecPeriod(s, from + 1)
  }

  /** One element of the source's `dates` array. */
  datatype DateMatch = DateMatch(date: string, index: nat)

  /** What the exec loop pushes when it starts with `lastIndex == from`. */
  function PeriodsFrom(s: string, from: nat): seq<DateMatch>
    requires from <= |s|
    decreases |s| - from
  {
    match ExecPeriod(s, from)
    case None => []
    case Some(i) => [DateMatch(s[i..i + PeriodLength], i)] + PeriodsFrom(s, i + PeriodLength)
  }

  /** The whole `dates` array of a section. */
  function Periods(s: string): (r: seq<DateMatch>)
    ensures ScanTokens(s, 0, r) && ScanIncreasing(r)
  {
    PeriodsFromIsScan(s, 0);
    PeriodsFrom(s, 0)
  }

  /** Where the segment of token `k` ends: at the next token, or at the end of the text. */
  function NextStart(s: string, ds: seq<DateMatch>, k: nat): int
    requires k < |ds|
  {
    if k + 1 < |ds| then ds[k + 1].index else |s|
  }

  /**
   * `ds` is the left-to-right, non-overlapping scan of `s` from `from`: every entry
   * is a token with its own text, entries are at least a token's length apart, and
   * no token starts in a gap the scan passed over.
   */
  ghost predicate IsPeriodScan(s: string, from: nat, ds: seq<DateMatch>)
  {
    ScanTokens(s, from, ds) && ScanIncreasing(ds) && NoTokenBefore(s, from, ds) && NoTokenBetween(s, ds)
  }

  /** Every entry is a token at or after `from`, with its own text. */
  ghost predicate ScanTokens(s: string, from: nat, ds: seq<DateMatch>)
  {
    forall k :: 0 <= k < |ds| ==>
      from <= ds[k].index && IsPeriodAt(s, ds[k].index)
      && ds[k].date == s[ds[k].index..ds[k].index + PeriodLength]
  }

  /** Entries are at least a token's length apart. */
  ghost predicate ScanIncreasing(ds: seq<DateMatch>)
  {
    forall k :: 0 < k < |ds| ==> ds[k - 1].index + PeriodLength <= ds[k].index
  }

  /** No token starts between `from` and the first entry (or anywhere after `from` when there is none). */
  ghost predicate NoTokenBefore(s: string, from: nat, ds: seq<DateMatch>)
  {
    forall p :: from <= p && (|ds| == 0 || p < ds[0].index) ==> !IsPeriodAt(s, p)
  }

  /** No token starts in the gap after an entry, before the next one or the end of `s`. */
  ghost predicate NoTokenBetween(s: string, ds: seq<DateMatch>)
  {
    forall k, p :: 0 <= k < |ds| && ds[k].index + PeriodLength <= p < NextStart(s, ds, k)
      ==> !IsPeriodAt(s, p)
  }

  /** A token found by `exec`, followed by the scan from just after it, is a scan. */
  lemma ScanCons(s: string, from: nat, i: nat, rest: seq<DateMatch>, ds: seq<DateMatch>)
    requires from <= i && IsPeriodAt(s, i)
    requires forall p :: from <= p < i ==> !IsPeriodAt(s, p)
    requires IsPeriodScan(s, i + PeriodLength, rest)
    requires ds == [DateMatch(s[i..i + PeriodLength], i)] + rest
    ensures IsPeriodScan(s, from, ds)
  {
    ConsTokens(s, from, i, rest, ds);
    ConsIncreasing(s, i, rest, ds);
    ConsNoTokenBetween(s, i, rest, ds);
  }

  lemma ConsTokens(s: string, from: nat, i: nat, rest: seq<DateMatch>, ds: seq<DateMatch>)
    requires from <= i && IsPeriodAt(s, i) && ScanTokens(s, i + PeriodLength, rest)
    requires ds == [DateMatch(s[i..i + PeriodLength], i)] + rest
    ensures ScanTokens(s, from, ds)
  {
    forall k | 0 <= k < |ds|
      ensures from <= ds[k].index && IsPeriodAt(s, ds[k].index)
      ensures ds[k].date == s[ds[k].index..ds[k].index + PeriodLength]
    {
      if k > 0 {
        assert ds[k] == rest[k - 1];
      }
    }
  }

  lemma ConsIncreasing(s: string, i: nat, rest: seq<DateMatch>, ds: seq<DateMatch>)
    requires i + PeriodLength <= |s| && ScanTokens(s, i + PeriodLength, rest) && ScanIncreasing(rest)
    requires ds == [DateMatch(s[i..i + PeriodLength], i)] + rest
    ensures ScanIncreasing(ds)
  {
    forall k | 0 < k < |ds|
      ensures ds[k - 1].index + PeriodLength <= ds[k].index
    {
      assert ds[k] == rest[k - 1];
      if k > 1 {
        assert ds[k - 1] == rest[k - 2];
      }
    }
  }

  lemma ConsNoTokenBetween(s: string, i: nat, rest: seq<DateMatch>, ds: seq<DateMatch>)
    requires i + PeriodLength <= |s|
    requires NoTokenBefore(s, i + PeriodLength, rest) && NoTokenBetween(s, rest)
    requires ds == [DateMatch(s[i..i + PeriodLength], i)] + rest
    ensures NoTokenBetween(s, ds)
  {
    forall k, p | 0 <= k < |ds| && ds[k].index + PeriodLength <= p < NextStart(s, ds, k)
      ensures !IsPeriodAt(s, p)
    {
      if k > 0 {
        assert ds[k] == rest[k - 1];
        assert NextStart(s, ds, k) == NextStart(s, rest, k - 1);
      } else if |rest| > 0 {
        assert NextStart(s, ds, 0) == rest[0].index;
      }
    }
  }

  /** The exec loop finds exactly the non-overlapping leftmost tokens, in increasing order. */
  lemma {:induction false} PeriodsFromIsScan(s: string, from: nat)
    requires from <= |s|
    ensures IsPeriodScan(s, from, PeriodsFrom(s, from))
    decreases |s| - from
  {
    match ExecPeriod(s, from)
    case None =>
      ScanNil(s, from);
    case Some(i) =>
      PeriodsFromIsScan(s, i + PeriodLength);
      ScanStep(s, from, i);
  }

  /** A failed `exec` from `from`: the empty scan is the scan. */
  lemma ScanNil(s: string, from: nat)
    requires from <= |s| && ExecPeriod(s, from).None?
    ensures IsPeriodScan(s, from, PeriodsFrom(s, from))
  {
    assert PeriodsFrom(s, from) == [];
  }

  /** A successful `exec` from `from` puts its token in front of the scan after it. */
  lemma ScanStep(s: string, from: nat, i: nat)
    requires from <= |s| && ExecPeriod(s, from) == Some(i)
    requires IsPeriodScan(s, i + PeriodLength, PeriodsFrom(s, i + PeriodLength))
    ensures IsPeriodScan(s, from, PeriodsFrom(s, from))
  {
    ExecFound(s, from, i);
    ScanCons(s, from, i, PeriodsFrom(s, i + PeriodLength), PeriodsFrom(s, from));
  }

  /** What a successful `exec` from `from` tells: the token, the gap before it, and the scan. */
  lemma ExecFound(s: string, from: nat, i: nat)
    requires from <= |s| && ExecPeriod(s, from) == Some(i)
    ensures from <= i && IsPeriodAt(s, i)
    ensures forall p :: from <= p < i ==> !IsPeriodAt(s, p)
    ensures PeriodsFrom(s, from) == [DateMatch(s[i..i + PeriodLength], i)] + PeriodsFrom(s, i + PeriodLength)
  {
  }

  lemma PeriodsAreSorted(s: string)
    ensures forall k, m :: 0 <= k < m < |Periods(s)| ==> Periods(s)[k].index + PeriodLength <= Periods(s)[m].index
  {
    var ds := Periods(s);
    forall k, m | 0 <= k < m < |ds|
      ensures ds[k].index + PeriodLength <= ds[m].index
    {
      var j := k + 1;
      while j < m
        invariant k < j <= m
        invariant ds[k].index + PeriodLength <= ds[j].index
      {
        j := j + 1;
      }
    }
  }


  /** A section without any token, the empty one included, has no dates. */
  lemma NoTokenNoPeriods(s: string)
    requires forall p :: 0 <= p ==> !IsPeriodAt(s, p)
    ensures Periods(s) == []
  {
  }

  // ---------------------------------------------------------------------------
  // The `revenues` object

  /** The `revenues` object: its keys in insertion order, and their values. */
  datatype Revenues = Revenues(keys: seq<string>, values: map<string, real>)
  {
    /** Keys are distinct and are exactly the keys of the map. */
    ghost predicate Valid()
    {
      && (forall i, j :: 0 <= i < j < |keys| ==> keys[i] != keys[j])
      && (forall d :: d in values <==> d in keys)
    }

    /** `revenues[date] = value`: an existing key keeps its place, a new one goes last. */
    function Put(date: string, value: real): (r: Revenues)
      requires Valid()
      ensures r.Valid()
      ensures r.values == values[date := value]
      ensures date in values ==> r.keys == keys
      ensures date !in values ==> r.keys == keys + [date]
    {
      if date in values then Revenues(keys, values[date := value])
      else Revenues(keys + [date], values[date := value])
    }
  }

  const NoRevenues := Revenues([], map[])

  /** One write the loop performs: `revenues[date] = value` unless `value` is NaN. */
  datatype Entry = Entry(date: string, value: JsNumber)

  /** The object after the writes `es`, in order, each skipped when its value is NaN. */
  function Assign(es: seq<Entry>): (r: Revenues)
    ensures r.Valid()
    ensures forall d :: d in r.values ==> d in DatesOf(es)
  {
    if es == [] then NoRevenues
    else
      var r := Assign(es[..|es| - 1]);
      var e := es[|es| - 1];
      if e.value.Num? then r.Put(e.date, e.value.value) else r
  }

  function DatesOf(es: seq<Entry>): (ds: seq<string>)
    ensures |ds| == |es| && forall k :: 0 <= k < |es| ==> ds[k] == es[k].date
  {
    seq(|es|, k requires 0 <= k < |es| => es[k].date)
  }

  predicate NoNaN(es: seq<Entry>)
  {
    forall k :: 0 <= k < |es| ==> es[k].value.Num?
  }

  function FirstIndex(xs: seq<string>, x: string): (i: nat)
    requires x in xs
    ensures i < |xs| && xs[i] == x && forall k :: 0 <= k < i ==> xs[k] != x
  {
    if xs[0] == x then 0 else 1 + FirstIndex(xs[1..], x)
  }

  function LastIndex(xs: seq<string>, x: string): (i: nat)
    requires x in xs
    ensures i < |xs| && xs[i] == x && forall k :: i < k < |xs| ==> xs[k] != x
  {
    if xs[|xs| - 1] == x then |xs| - 1 else LastIndex(xs[..|xs| - 1], x)
  }

  lemma FirstIndexOfPrefix(xs: seq<string>, y: string, d: string)
    requires d in xs
    ensures FirstIndex(xs + [y], d) == FirstIndex(xs, d)
  {
    var i, i' := FirstIndex(xs, d), FirstIndex(xs + [y], d);
    assert (xs + [y])[i] == d;
  }

  lemma LastIndexOfPrefix(xs: seq<string>, y: string, d: string)
    requires d in xs && d != y
    ensures LastIndex(xs + [y], d) == LastIndex(xs, d)
  {
    var i, i' := LastIndex(xs, d), LastIndex(xs + [y], d);
    assert (xs + [y])[i] == d;
    assert i' < |xs|;
    assert xs[i'] == d;
  }

  /** The writes in the order performed: the ones before the last, and the last. */
  lemma AssignStep(es: seq<Entry>)
    requires es != [] && es[|es| - 1].value.Num?
    ensures DatesOf(es) == DatesOf(es[..|es| - 1]) + [es[|es| - 1].date]
    ensures Assign(es) == Assign(es[..|es| - 1]).Put(es[|es| - 1].date, es[|es| - 1].value.value)
  {
    DatesOfSnoc(es);
  }

  lemma DatesOfSnoc(es: seq<Entry>)
    requires es != []
    ensures DatesOf(es) == DatesOf(es[..|es| - 1]) + [es[|es| - 1].date]
  {
    var pre, last := es[..|es| - 1], es[|es| - 1];
    forall k | 0 <= k < |es|
      ensures DatesOf(es)[k] == (DatesOf(pre) + [last.date])[k]
    {
      if k < |pre| {
        assert pre[k] == es[k];
      }
    }
  }

  lemma AssignPrefixStep(es: seq<Entry>, i: nat)
    requires i < |es|
    ensures Assign(es[..i + 1]) ==
      if es[i].value.Num? then Assign(es[..i]).Put(es[i].date, es[i].value.value) else Assign(es[..i])
  {
    assert es[..i + 1][..i] == es[..i];
  }

  /** Every date written is a key, and nothing else is. */
  lemma {:induction false} AssignKeys(es: seq<Entry>)
    requires NoNaN(es)
    ensures forall d :: d in Assign(es).values <==> d in DatesOf(es)
  {
    if es != [] {
      assert NoNaN(es[..|es| - 1]);
      AssignKeys(es[..|es| - 1]);
      AssignStep(es);
    }
  }

  /**
   * Appending the write of `y` to the dates `xs` keeps the first-write order of
   * keys that were already there, and a new key `y` comes after all of them.
   */
  lemma FirstOrderExtends(xs: seq<string>, y: string, keys: seq<string>, keys': seq<string>)
    requires forall k :: 0 <= k < |keys| ==> keys[k] in xs
    requires forall i, j :: 0 <= i < j < |keys| ==> FirstIndex(xs, keys[i]) < FirstIndex(xs, keys[j])
    requires keys' == keys || (y !in xs && keys' == keys + [y])
    ensures forall i, j :: 0 <= i < j < |keys'| ==>
      FirstIndex(xs + [y], keys'[i]) < FirstIndex(xs + [y], keys'[j])
  {
    forall i, j | 0 <= i < j < |keys'|
      ensures FirstIndex(xs + [y], keys'[i]) < FirstIndex(xs + [y], keys'[j])
    {
      assert keys'[i] == keys[i];
      FirstIndexOfPrefix(xs, y, keys[i]);
      if j < |keys| {
        assert keys'[j] == keys[j];
        FirstIndexOfPrefix(xs, y, keys[j]);
      } else {
        assert keys'[j] == y && (xs + [y])[|xs|] == y;
      }
    }
  }

  /** Keys are ordered by the first write of each. */
  lemma {:induction false} AssignOrder(es: seq<Entry>)
    requires NoNaN(es)
    ensures forall i, j :: 0 <= i < j < |Assign(es).keys| ==>
      FirstIndex(DatesOf(es), Assign(es).keys[i]) < FirstIndex(DatesOf(es), Assign(es).keys[j])
  {
    if es != [] {
      var pre, e := es[..|es| - 1], es[|es| - 1];
      assert NoNaN(pre);
      AssignOrder(pre);
      AssignKeys(pre);
      AssignStep(es);
      var r := Assign(pre);
      assert forall k :: 0 <= k < |r.keys| ==> r.keys[k] in DatesOf(pre);
      FirstOrderExtends(DatesOf(pre), e.date, r.keys, Assign(es).keys);
    }
  }

  /** Each key holds the value of its last write. */
  lemma {:induction false} AssignValues(es: seq<Entry>)
    requires NoNaN(es)
    ensures forall d :: d in Assign(es).values ==> d in DatesOf(es)
    ensures forall d :: d in Assign(es).values ==>
      Assign(es).values[d] == es[LastIndex(DatesOf(es), d)].value.value
  {
    if es != [] {
      var pre, e := es[..|es| - 1], es[|es| - 1];
      assert NoNaN(pre);
      AssignValues(pre);
      AssignStep(es);
      var xs, xs' := DatesOf(pre), DatesOf(es);
      forall d | d in Assign(es).values
        ensures d in xs'
        ensures Assign(es).values[d] == es[LastIndex(xs', d)].value.value
      {
        if d == e.date {
          assert LastIndex(xs', d) == |es| - 1;
        } else {
          LastIndexOfPrefix(xs, e.date, d);
        }
      }
    }
  }

  // ---------------------------------------------------------------------------
  // The amount of each token

  /**
   * The value of one segment: the first match of the amount pattern converted as the
   * source does, or 0 when the segment has no digit at all.
   */
  function SegmentAmount(segment: string): (v: JsNumber)
    ensures v.Num? && v.value >= 0.0
    ensures (forall k :: 0 <= k < |segment| ==> !IsDigit(segment[k])) ==> v == Num(0.0)
    ensures FirstDigitFrom(segment, 0) < |segment| ==>
      v == Num(AmountValue(segment, FirstDigitFrom(segment, 0)))
  {
    match FirstAmount(segment)
    case None => Num(0.0)
    case Some(valorStr) =>
      var p := FirstDigitFrom(segment, 0);
      AmountParses(segment, p);
      ParseFloat(Cleaned(valorStr))
  }

  /** The segment of token `k`, trimmed. */
  function Segment(content: string, ds: seq<DateMatch>, k: nat): (r: string)
    requires k < |ds|
    ensures IsTrimmed(r)
    ensures ds[k].index + |ds[k].date| <= NextStart(content, ds, k) <= |content| ==>
      r == Trim(content[ds[k].index + |ds[k].date|..NextStart(content, ds, k)])
  {
    Trim(Substring(content, ds[k].index + |ds[k].date|, NextStart(content, ds, k)))
  }

  /** The writes the loop performs for the tokens `ds` of `content`. */
  function EntriesOf(content: string, ds: seq<DateMatch>): (es: seq<Entry>)
    ensures |es| == |ds|
  {
    seq(|ds|, k requires 0 <= k < |ds| => Entry(ds[k].date, SegmentAmount(Segment(content, ds, k))))
  }

  function Entries(content: string): (es: seq<Entry>)
    ensures |es| == |Periods(content)|
  {
    EntriesOf(content, Periods(content))
  }

  /** One pass of the loop: the write for token `k` applied to the object of the earlier ones. */
  lemma WriteStep(content: string, ds: seq<DateMatch>, k: nat, value: JsNumber)
    requires k < |ds| && value == SegmentAmount(Segment(content, ds, k))
    ensures value.Num?
    ensures Assign(EntriesOf(content, ds)[..k + 1]) == Assign(EntriesOf(content, ds)[..k]).Put(ds[k].date, value.value)
  {
    var es := EntriesOf(content, ds);
    assert es[k] == Entry(ds[k].date, value);
    AssignPrefixStep(es, k);
  }

  /** The object `extractMonthlyRevenues(content)` returns. */
  function RevenuesOf(content: string): (r: Revenues)
    ensures r.Valid()
    ensures forall d :: d in r.values ==> d in DatesOf(Entries(content))
  {
    Assign(Entries(content))
  }

  /**
   * The segment of a token is the text strictly between the end of that token and
   * the start of the next one (or the end of the section), trimmed.
   */
  lemma SegmentIsBetweenTokens(content: string, k: nat)
    requires k < |Periods(content)|
    ensures var ds := Periods(content);
      ds[k].index + PeriodLength <= NextStart(content, ds, k) <= |content|
      && Segment(content, ds, k) == Trim(content[ds[k].index + PeriodLength..NextStart(content, ds, k)])
  {
    var ds := Periods(content);
    assert IsPeriodAt(content, ds[k].index) && |ds[k].date| == PeriodLength;
    if k + 1 < |ds| {
      assert IsPeriodAt(content, ds[k + 1].index);
    }
  }

  /**
   * Every token of the section is a key, and nothing else is; the `isNaN` guard never
   * drops a token; keys are in order of first appearance; each key holds the amount
   * of its last occurrence.
   */
  lemma RevenuesAreLastWriteWins(content: string)
    ensures RevenuesOf(content).Valid()
    ensures forall d :: d in RevenuesOf(content).values <==> d in DatesOf(Entries(content))
    ensures forall i, j :: 0 <= i < j < |RevenuesOf(content).keys| ==>
      FirstIndex(DatesOf(Entries(content)), RevenuesOf(content).keys[i])
      < FirstIndex(DatesOf(Entries(content)), RevenuesOf(content).keys[j])
    ensures forall d :: d in RevenuesOf(content).values ==>
      RevenuesOf(content).values[d]
      == SegmentAmount(Segment(content, Periods(content), LastIndex(DatesOf(Entries(content)), d))).value
  {
    AssignKeys(Entries(content));
    AssignOrder(Entries(content));
    AssignValues(Entries(content));
  }

  /** A period is a key of the result exactly when it is one of the section's tokens. */
  lemma KeyIffToken(content: string, date: string)
    ensures date in RevenuesOf(content).keys
        <==> exists k :: 0 <= k < |Periods(content)| && Periods(content)[k].date == date
  {
    RevenuesAreLastWriteWins(content);
    var ds := DatesOf(Entries(content));
    if date in ds {
      var k :| 0 <= k < |ds| && ds[k] == date;
      assert Periods(content)[k].date == date;
    }
    if exists k :: 0 <= k < |Periods(content)| && Periods(content)[k].date == date {
      var k :| 0 <= k < |Periods(content)| && Periods(content)[k].date == date;
      assert ds[k] == date;
    }
  }

  /** The dates written are the text of the tokens, in text order. */
  lemma EntriesAreTokens(content: string)
    ensures forall k :: 0 <= k < |Entries(content)| ==>
      var i := Periods(content)[k].index;
      IsPeriodAt(content, i) && Entries(content)[k].date == content[i..i + PeriodLength]
  {
    PeriodsFromIsScan(content, 0);
  }

  /** No token, no revenue: in particular the empty section gives an empty object. */
  lemma NoTokenNoRevenues(content: string)
    requires forall p :: 0 <= p ==> !IsPeriodAt(content, p)
    ensures RevenuesOf(content) == NoRevenues
  {
    NoTokenNoPeriods(content);
  }

  // ---------------------------------------------------------------------------
  // The source's loops

  /** A successful `exec` from `from` appends its token, and the scan goes on after it. */
  lemma CollectStep(s: string, dates: seq<DateMatch>, from: nat, i: nat)
    requires from <= |s| && dates + PeriodsFrom(s, from) == Periods(s)
    requires ExecPeriod(s, from) == Some(i)
    ensures i + PeriodLength <= |s|
    ensures (dates + [DateMatch(s[i..i + PeriodLength], i)]) + PeriodsFrom(s, i + PeriodLength) == Periods(s)
  {
    var m, rest := DateMatch(s[i..i + PeriodLength], i), PeriodsFrom(s, i + PeriodLength);
    assert PeriodsFrom(s, from) == [m] + rest;
    assert (dates + [m]) + rest == dates + ([m] + rest);
  }

  /** A failed `exec` ends the scan: nothing is left to append. */
  lemma CollectEnd(s: string, dates: seq<DateMatch>, from: nat)
    requires from <= |s| && dates + PeriodsFrom(s, from) == Periods(s)
    requires ExecPeriod(s, from).None?
    ensures dates == Periods(s)
  {
    assert PeriodsFrom(s, from) == [];
    assert dates + [] == dates;
  }

  /** The exec loop of `extractMonthlyRevenues`: collects every token with its index. */
  method CollectPeriods(content: string) returns (dates: seq<DateMatch>)
    ensures dates == Periods(content)
  {
    dates := [];
    var lastIndex: nat := 0;
    while true
      invariant lastIndex <= |content|
      invariant dates + PeriodsFrom(content, lastIndex) == Periods(content)
      decreases |content| - lastIndex
    {
      var dateMatch := ExecPeriod(content, lastIndex);
      if dateMatch.None? {
        CollectEnd(content, dates, lastIndex);
        break;
      }
      var index := dateMatch.value;
      CollectStep(content, dates, lastIndex, index);
      dates := dates + [DateMatch(content[index..index + PeriodLength], index)];
      lastIndex := index + PeriodLength;
    }
  }

  /** The trimmed text between token `i` and the next token, or the end of `content`. */
  method SegmentText(content: string, dates: seq<DateMatch>, i: nat) returns (segment: string)
    requires i < |dates|
    ensures segment == Segment(content, dates, i)
  {
    var startIndex := dates[i].index + |dates[i].date|;
    var endIndex := if i + 1 < |dates| then dates[i + 1].index else |content|;
    assert endIndex == NextStart(content, dates, i);
    segment := Trim(Substring(content, startIndex, endIndex));
  }

  /**
   * The value the loop body reads from one segment: the first amount, cleaned and
   * parsed, or 0 when there is none.
   */
  method SegmentValue(segment: string) returns (value: JsNumber)
    ensures value == SegmentAmount(segment)
  {
    var valueMatch := FirstAmount(segment);
    value := Num(0.0);
    if valueMatch.Some? {
      AmountParses(segment, FirstDigitFrom(segment, 0));
      value := ParseFloat(Cleaned(valueMatch.value));
    }
  }

  /** The second loop of `extractMonthlyRevenues`: one write per token, with its segment's amount. */
  method WriteRevenues(content: string, dates: seq<DateMatch>) returns (revenues: Revenues)
    ensures revenues == Assign(EntriesOf(content, dates))
  {
    revenues := NoRevenues;
    ghost var es := EntriesOf(content, dates);
    var i := 0;
    while i < |dates|
      invariant i <= |dates|
      invariant revenues == Assign(es[..i])
    {
      var currentMonthYear := dates[i].date;
      var segment := SegmentText(content, dates, i);
      var value := SegmentValue(segment);
      WriteStep(content, dates, i, value);
      if value.Num? {
        revenues := revenues.Put(currentMonthYear, value.value);
      }
      i := i + 1;
    }
    assert es[..i] == es;
  }

  /** `extractMonthlyRevenues(content)`. */
  method ExtractMonthlyRevenues(content: string) returns (revenues: Revenues)
    ensures revenues == RevenuesOf(content)
    ensures revenues.Valid()
  {
    var dates := CollectPeriods(content);
    // `dates.sort(...)` by index: the scan is already strictly increasing (PeriodsAreSorted).
    revenues := WriteRevenues(content, dates);
  }
}
