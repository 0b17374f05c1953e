/**
 * Brazilian-formatted amounts ("32.326,75"): the value pattern
 * `\d{1,3}(?:\.\d{3})*(?:,\d{1,2})?` as a hand-written leftmost, greedy scanner,
 * the `replace(/\./g, '').replace(',', '.')` clean-up and `parseFloat` on the result.
 */
module BrNumber {
  import opened Wrappers
  import opened JsText

  /** A JavaScript number as the parser can produce one: NaN, or an exact decimal. */
  datatype JsNumber = NaN | Num(value: real)

  /** The characters of `[0-9.,]`. */
  predicate IsNumberChar(c: char)
  {
    IsDigit(c) || c == '.' || c == ','
  }

  predicate AllNumberChars(s: string)
  {
    forall k :: 0 <= k < |s| ==> IsNumberChar(s[k])
  }

  function DigitValue(c: char): nat
    requires IsDigit(c)
  {
    c as int - '0' as int
  }

  function Pow10(n: nat): (p: nat)
    ensures p >= 1
  {
    if n == 0 then 1 else 10 * Pow10(n - 1)
  }

  /** The natural number a string of decimal digits denotes. */
  function DigitsValue(ds: string): nat
    requires AllDigits(ds)
  {
    if ds == [] then 0 else DigitsValue(ds[..|ds| - 1]) * 10 + DigitValue(ds[|ds| - 1])
  }

  /** The value of the digits after a decimal point. */
  function FractionValue(ds: string): real
    requires AllDigits(ds)
  {
    DigitsValue(ds) as real / Pow10(|ds|) as real
  }

  /** Digits appended to digits shift the first part left by the length of the second. */
  lemma {:induction false} DigitsValueAppend(a: string, b: string)
    requires AllDigits(a) && AllDigits(b)
    ensures AllDigits(a + b)
    ensures DigitsValue(a + b) == DigitsValue(a) * Pow10(|b|) + DigitsValue(b)
  {
    if b == [] {
      assert a + b == a;
    } else {
      var b' := b[..|b| - 1];
      var ab := a + b;
      assert ab[..|ab| - 1] == a + b';
      assert ab[|ab| - 1] == b[|b| - 1];
      DigitsValueAppend(a, b');
      ShiftByDigit(DigitsValue(a), Pow10(|b'|), DigitsValue(b'), DigitValue(b[|b| - 1]));
    }
  }

  lemma ShiftByDigit(x: int, p: int, y: int, d: int)
    ensures (x * p + y) * 10 + d == x * (10 * p) + (y * 10 + d)
  {
  }

  // ---------------------------------------------------------------------------
  // The clean-up before parseFloat

  /** `s.replace(/\./g, '')`. */
  function RemoveDots(s: string): (r: string)
    ensures |r| <= |s|
    ensures forall k :: 0 <= k < |r| ==> r[k] != '.'
  {
    if s == [] then []
    else (if s[0] == '.' then [] else [s[0]]) + RemoveDots(s[1..])
  }

  lemma {:induction false} RemoveDotsAppend(a: string, b: string)
    ensures RemoveDots(a + b) == RemoveDots(a) + RemoveDots(b)
  {
    if a != [] {
      assert (a + b)[0] == a[0];
      assert (a + b)[1..] == a[1..] + b;
      RemoveDotsAppend(a[1..], b);
    } else {
      assert a + b == b;
    }
  }

  lemma {:induction false} RemoveDotsKeepsDotless(s: string)
    requires forall k :: 0 <= k < |s| ==> s[k] != '.'
    ensures RemoveDots(s) == s
  {
    if s != [] {
      RemoveDotsKeepsDotless(s[1..]);
    }
  }

  /** `s.replace(',', '.')`: a string pattern, so only the first comma. */
  function ReplaceFirstComma(s: string): (r: string)
    ensures |r| == |s|
  {
    if s == [] then []
    else if s[0] == ',' then ['.'] + s[1..]
    else [s[0]] + ReplaceFirstComma(s[1..])
  }

  /** The first comma becomes a point and the text after it is kept as it is. */
  lemma ReplaceFirstCommaAtComma(t: string)
    ensures ReplaceFirstComma([','] + t) == ['.'] + t
  {
    assert ([','] + t)[1..] == t;
  }

  lemma {:induction false} ReplaceFirstCommaSkips(a: string, b: string)
    requires forall k :: 0 <= k < |a| ==> a[k] != ','
    ensures ReplaceFirstComma(a + b) == a + ReplaceFirstComma(b)
  {
    if a != [] {
      assert (a + b)[0] == a[0];
      assert (a + b)[1..] == a[1..] + b;
      ReplaceFirstCommaSkips(a[1..], b);
    } else {
      assert a + b == b;
    }
  }

  /**
   * `s.replace(/\./g, '').replace(',', '.')`: thousands dots dropped, the decimal comma
   * made a point. It never lengthens the text, keeps a `[0-9.,]` capture within
   * `[0-9.,]` (where `ParseFloat` is defined), and leaves text without dots and commas alone.
   */
  function Cleaned(s: string): (r: string)
    ensures |r| <= |s|
    ensures AllNumberChars(s) ==> AllNumberChars(r)
    ensures (forall k :: 0 <= k < |s| ==> s[k] != '.' && s[k] != ',') ==> r == s
  {
    var d := RemoveDots(s);
    assert AllNumberChars(s) ==> AllNumberChars(ReplaceFirstComma(d)) by {
      if AllNumberChars(s) {
        RemoveDotsKeepsNumberChars(s);
        ReplaceFirstCommaKeepsNumberChars(d);
      }
    }
    assert (forall k :: 0 <= k < |s| ==> s[k] != '.' && s[k] != ',') ==> ReplaceFirstComma(d) == s by {
      if forall k :: 0 <= k < |s| ==> s[k] != '.' && s[k] != ',' {
        RemoveDotsKeepsDotless(s);
        ReplaceFirstCommaSkips(s, []);
        assert s + [] == s;
      }
    }
    ReplaceFirstComma(d)
  }

  lemma {:induction false} RemoveDotsKeepsNumberChars(s: string)
    requires AllNumberChars(s)
    ensures AllNumberChars(RemoveDots(s))
  {
    if s != [] {
      assert AllNumberChars(s[1..]) by {
        assert forall k :: 0 <= k < |s| - 1 ==> s[1..][k] == s[k + 1];
      }
      RemoveDotsKeepsNumberChars(s[1..]);
    }
  }

  lemma {:induction false} ReplaceFirstCommaKeepsNumberChars(s: string)
    requires AllNumberChars(s)
    ensures AllNumberChars(ReplaceFirstComma(s))
  {
    if s != [] && s[0] != ',' {
      assert AllNumberChars(s[1..]) by {
        assert forall k :: 0 <= k < |s| - 1 ==> s[1..][k] == s[k + 1];
      }
      ReplaceFirstCommaKeepsNumberChars(s[1..]);
    }
  }

  // ---------------------------------------------------------------------------
  // parseFloat

  /**
   * `parseFloat` on a string over `[0-9.,]`: the longest prefix that is a decimal
   * literal (digits, then optionally a point and more digits) gives the value; a
   * prefix without any digit gives NaN.
   */
  function ParseFloat(t: string): (r: JsNumber)
    requires AllNumberChars(t)
    ensures r.Num? ==> r.value >= 0.0
    ensures r.NaN? <==> !(|t| > 0 && IsDigit(t[0])) && !(|t| > 1 && t[0] == '.' && IsDigit(t[1]))
  {
    var a := RunEnd(t, 0, IsDigit);
    if a < |t| && t[a] == '.' then
      var b := RunEnd(t, a + 1, IsDigit);
      if a == 0 && b == 1 then NaN
      else Num(DigitsValue(t[..a]) as real + FractionValue(t[a + 1..b]))
    else if a == 0 then NaN
    else Num(DigitsValue(t[..a]) as real)
  }

  /** A digit string parses to the integer it denotes. */
  lemma ParseFloatInteger(ds: string)
    requires ds != [] && AllDigits(ds)
    ensures ParseFloat(ds) == Num(DigitsValue(ds) as real)
  {
    var a := RunEnd(ds, 0, IsDigit);
    assert a == |ds|;
    assert ds[..|ds|] == ds;
  }

  /** Digits, a point and digits parse to the integer part plus the fraction. */
  lemma ParseFloatDecimal(ds: string, fs: string)
    requires ds != [] && AllDigits(ds) && AllDigits(fs)
    ensures ParseFloat(ds + ['.'] + fs) == Num(DigitsValue(ds) as real + FractionValue(fs))
  {
    var t := ds + ['.'] + fs;
    var n := |ds|;
    assert forall k :: 0 <= k < n ==> t[k] == ds[k];
    assert forall k :: n < k < |t| ==> t[k] == fs[k - n - 1];
    assert t[n] == '.';
    var a := RunEnd(t, 0, IsDigit);
    assert a == n;
    var b := RunEnd(t, n + 1, IsDigit);
    assert b == |t|;
    assert t[..a] == ds;
    assert t[a + 1..b] == fs;
  }

  /**
   * Digits, an optional point with digits, then text that does not go on with a
   * digit: only the decimal literal in front counts, and whatever follows it is
   * ignored.
   */
  lemma ParseFloatOfPrefix(ds: string, fs: string, rest: string)
    requires AllDigits(ds) && AllDigits(fs) && ds + fs != []
    requires AllNumberChars(rest) && (rest == [] || !IsDigit(rest[0]))
    ensures AllNumberChars(ds + ['.'] + fs + rest)
    ensures ParseFloat(ds + ['.'] + fs + rest) == Num(DigitsValue(ds) as real + FractionValue(fs))
  {
    var t := ds + ['.'] + fs + rest;
    var n := |ds|;
    var m := n + 1 + |fs|;
    assert t[..n] == ds;
    assert t[n] == '.';
    assert t[n + 1..m] == fs;
    assert t[m..] == rest;
    RunEndAt(t, 0, n, IsDigit);
    RunEndAt(t, n + 1, m, IsDigit);
  }

  /** Digits followed by a comma: the number stops at the comma. */
  lemma ParseFloatOfIntegerPrefix(ds: string, rest: string)
    requires ds != [] && AllDigits(ds)
    requires AllNumberChars(rest) && (rest == [] || rest[0] == ',')
    ensures AllNumberChars(ds + rest)
    ensures ParseFloat(ds + rest) == Num(DigitsValue(ds) as real)
  {
    var t := ds + rest;
    var n := |ds|;
    assert forall k :: 0 <= k < n ==> t[k] == ds[k];
    assert forall k :: n <= k < |t| ==> t[k] == rest[k - n];
    assert n < |t| ==> t[n] == ',';
    var a := RunEnd(t, 0, IsDigit);
    assert a == n;
    assert t[..a] == ds;
  }

  // ---------------------------------------------------------------------------
  // The value pattern \d{1,3}(?:\.\d{3})*(?:,\d{1,2})?

  /** `\d{1,3}`, greedy, from a digit at `i`. */
  function LeadEnd(s: string, i: nat): (j: nat)
    requires i < |s| && IsDigit(s[i])
    ensures i < j <= i + 3 && j <= |s|
    ensures forall k :: i <= k < j ==> IsDigit(s[k])
    ensures j < i + 3 && j < |s| ==> !IsDigit(s[j])
  {
    if i + 1 < |s| && IsDigit(s[i + 1]) then
      if i + 2 < |s| && IsDigit(s[i + 2]) then i + 3 else i + 2
    else i + 1
  }

  /** One `\.\d{3}` group starts at `j`. */
  predicate IsGroupAt(s: string, j: nat)
  {
    j + 4 <= |s| && s[j] == '.' && IsDigit(s[j + 1]) && IsDigit(s[j + 2]) && IsDigit(s[j + 3])
  }

  /** `(?:\.\d{3})*`, greedy: as many whole groups as follow `j`. */
  function GroupsEnd(s: string, j: nat): (g: nat)
    requires j <= |s|
    ensures j <= g <= |s|
    ensures (g - j) % 4 == 0
    ensures forall k :: j <= k < g && (k - j) % 4 == 0 ==> IsGroupAt(s, k)
    ensures !IsGroupAt(s, g)
    decreases |s| - j
  {
    if IsGroupAt(s, j) then GroupsEnd(s, j + 4) else j
  }

  /** `(?:,\d{1,2})?`, greedy: a comma and two digits if there are two, else one, else nothing. */
  function DecimalEnd(s: string, g: nat): (e: nat)
    requires g <= |s|
    ensures e == g || (g + 2 <= e <= g + 3 && e <= |s| && s[g] == ','
                       && forall k :: g < k < e ==> IsDigit(s[k]))
    ensures e == g ==> !(g + 1 < |s| && s[g] == ',' && IsDigit(s[g + 1]))
    ensures e == g + 2 ==> !(g + 2 < |s| && IsDigit(s[g + 2]))
  {
    if g + 1 < |s| && s[g] == ',' && IsDigit(s[g + 1]) then
      if g + 2 < |s| && IsDigit(s[g + 2]) then g + 3 else g + 2
    else g
  }

  /** End of the match of the whole value pattern that starts at the digit `i`. */
  function AmountEnd(s: string, i: nat): nat
    requires i < |s| && IsDigit(s[i])
    ensures i < AmountEnd(s, i) <= |s|
  {
    DecimalEnd(s, GroupsEnd(s, LeadEnd(s, i)))
  }

  /** The first digit at or after `i`, or |s|. */
  function FirstDigitFrom(s: string, i: nat): (p: nat)
    requires i <= |s|
    ensures i <= p <= |s|
    ensures forall k :: i <= k < p ==> !IsDigit(s[k])
    ensures p < |s| ==> IsDigit(s[p])
    decreases |s| - i
  {
    if i == |s| || IsDigit(s[i]) then i else FirstDigitFrom(s, i + 1)
  }

  /**
   * `s.match(valuePattern)[1]`. The pattern needs a digit to start and can then
   * always match, so the leftmost match starts at the first digit.
   */
  function FirstAmount(s: string): (r: Option<string>)
    ensures r.None? <==> forall k :: 0 <= k < |s| ==> !IsDigit(s[k])
  {
    var p := FirstDigitFrom(s, 0);
    if p == |s| then None else Some(s[p..AmountEnd(s, p)])
  }

  // ---------------------------------------------------------------------------
  // What a matched amount is worth

  /** Thousands groups from `j` on, each shifting the value so far by 1000. */
  function GroupsValue(s: string, j: nat, acc: nat): nat
    requires j <= |s|
    decreases |s| - j
  {
    if IsGroupAt(s, j) then GroupsValue(s, j + 4, acc * 1000 + DigitsValue(s[j + 1..j + 4]))
    else acc
  }

  /**
   * The amount that a match starting at the digit `i` denotes in Brazilian notation:
   * the leading digits and the thousands groups make the integer part, the one or
   * two digits after the comma the fraction.
   */
  function AmountValue(s: string, i: nat): real
    requires i < |s| && IsDigit(s[i])
  {
    var l := LeadEnd(s, i);
    var g := GroupsEnd(s, l);
    var e := DecimalEnd(s, g);
    GroupsValue(s, l, DigitsValue(s[i..l])) as real + (if e == g then 0.0 else FractionValue(s[g + 1..e]))
  }

  lemma GroupDropsDot(s: string, j: nat)
    requires IsGroupAt(s, j)
    ensures RemoveDots(s[j..j + 4]) == s[j + 1..j + 4]
    ensures AllDigits(s[j + 1..j + 4])
  {
    var w, d := s[j..j + 4], s[j + 1..j + 4];
    assert w[0] == '.' && w[1..] == d;
    assert d[0] == s[j + 1] && d[1] == s[j + 2] && d[2] == s[j + 3];
    assert AllDigits(d);
    RemoveDotsKeepsDotless(d);
    assert RemoveDots(w) == [] + RemoveDots(w[1..]);
  }

  /** Dropping the dots of the thousands groups leaves digits worth the grouped value. */
  lemma {:induction false} GroupsDropDots(s: string, j: nat, prefix: string)
    requires j <= |s| && AllDigits(prefix)
    ensures AllDigits(prefix + RemoveDots(s[j..GroupsEnd(s, j)]))
    ensures DigitsValue(prefix + RemoveDots(s[j..GroupsEnd(s, j)])) == GroupsValue(s, j, DigitsValue(prefix))
    decreases |s| - j
  {
    var g := GroupsEnd(s, j);
    if IsGroupAt(s, j) {
      var group := s[j + 1..j + 4];
      var rest := s[j + 4..g];
      assert s[j..g] == s[j..j + 4] + rest;
      RemoveDotsAppend(s[j..j + 4], rest);
      GroupDropsDot(s, j);
      assert RemoveDots(s[j..g]) == group + RemoveDots(rest);
      DigitsValueAppend(prefix, group);
      assert Pow10(|group|) == 1000 by {
        assert Pow10(1) == 10;
        assert Pow10(2) == 100;
      }
      assert DigitsValue(prefix + group) == DigitsValue(prefix) * 1000 + DigitsValue(group);
      GroupsDropDots(s, j + 4, prefix + group);
      assert prefix + RemoveDots(s[j..g]) == (prefix + group) + RemoveDots(rest);
    } else {
      assert s[j..g] == [];
      assert prefix + RemoveDots(s[j..g]) == prefix;
    }
  }

  /** The dots of a match sit only in its thousands groups. */
  lemma RemoveDotsOfAmount(s: string, i: nat, l: nat, g: nat, e: nat)
    requires i < |s| && IsDigit(s[i])
    requires l == LeadEnd(s, i) && g == GroupsEnd(s, l) && e == DecimalEnd(s, g)
    ensures RemoveDots(s[i..e]) == s[i..l] + RemoveDots(s[l..g]) + s[g..e]
  {
    var lead, groups, tail := s[i..l], s[l..g], s[g..e];
    assert s[i..e] == (lead + groups) + tail;
    RemoveDotsAppend(lead + groups, tail);
    RemoveDotsAppend(lead, groups);
    assert forall k :: 0 <= k < |lead| ==> lead[k] != '.';
    RemoveDotsKeepsDotless(lead);
    assert forall k :: 0 <= k < |tail| ==> tail[k] != '.';
    RemoveDotsKeepsDotless(tail);
  }

  /** The text of the match of the value pattern that starts at the digit `i`. */
  function AmountAt(s: string, i: nat): string
    requires i < |s| && IsDigit(s[i])
  {
    s[i..AmountEnd(s, i)]
  }

  /** Digits followed by a decimal comma and digits: the comma becomes the point `parseFloat` reads. */
  lemma CommaDecimalParses(ds: string, tail: string)
    requires ds != [] && AllDigits(ds)
    requires |tail| >= 2 && tail[0] == ',' && AllDigits(tail[1..])
    ensures AllNumberChars(ds + ReplaceFirstComma(tail))
    ensures ParseFloat(ds + ReplaceFirstComma(tail)) == Num(DigitsValue(ds) as real + FractionValue(tail[1..]))
  {
    var fs := tail[1..];
    assert tail == [','] + fs;
    assert ReplaceFirstComma(tail) == ['.'] + fs;
    var t := ds + ['.'] + fs;
    assert ds + ReplaceFirstComma(tail) == t;
    assert AllNumberChars(t) by {
      forall k | 0 <= k < |t|
        ensures IsNumberChar(t[k])
      {
        if k < |ds| { assert t[k] == ds[k]; } else if k > |ds| { assert t[k] == fs[k - |ds| - 1]; }
      }
    }
    ParseFloatDecimal(ds, fs);
  }

  /** Cleaning a match leaves its integer digits, then its decimal part with the comma made a point. */
  lemma CleanedAmount(s: string, i: nat, l: nat, g: nat, e: nat)
    requires i < |s| && IsDigit(s[i])
    requires l == LeadEnd(s, i) && g == GroupsEnd(s, l) && e == DecimalEnd(s, g)
    ensures var ds := s[i..l] + RemoveDots(s[l..g]);
            ds != [] && AllDigits(ds) && DigitsValue(ds) == GroupsValue(s, l, DigitsValue(s[i..l]))
            && Cleaned(s[i..e]) == ds + ReplaceFirstComma(s[g..e])
            && AmountAt(s, i) == s[i..e]
            && AmountValue(s, i) == DigitsValue(ds) as real + (if e == g then 0.0 else FractionValue(s[g + 1..e]))
  {
    RemoveDotsOfAmount(s, i, l, g, e);
    GroupsDropDots(s, l, s[i..l]);
    var ds := s[i..l] + RemoveDots(s[l..g]);
    assert forall k :: 0 <= k < |ds| ==> ds[k] != ',';
    ReplaceFirstCommaSkips(ds, s[g..e]);
  }

  /**
   * The source's conversion of a matched amount never yields NaN: it gives exactly
   * the Brazilian reading of the match, so "32.326,75" is 32326.75.
   */
  lemma AmountParses(s: string, i: nat)
    requires i < |s| && IsDigit(s[i])
    ensures AllNumberChars(Cleaned(AmountAt(s, i)))
    ensures ParseFloat(Cleaned(AmountAt(s, i))) == Num(AmountValue(s, i))
  {
    var l := LeadEnd(s, i);
    var g := GroupsEnd(s, l);
    var e := DecimalEnd(s, g);
    CleanedAmount(s, i, l, g, e);
    var ds := s[i..l] + RemoveDots(s[l..g]);
    var tail := s[g..e];
    if e == g {
      assert tail == [];
      assert Cleaned(s[i..e]) == ds;
      ParseFloatInteger(ds);
    } else {
      assert AllDigits(tail[1..]) by {
        assert forall k :: 0 <= k < |tail| - 1 ==> tail[1..][k] == s[g + 1 + k];
      }
      assert tail[1..] == s[g + 1..e];
      CommaDecimalParses(ds, tail);
    }
  }

  /** "1234,56" is not in thousands notation: the greedy pattern stops after three digits. */
  lemma FirstAmountIsGreedyFromTheLeft()
    ensures FirstAmount("1234,56") == Some("123")
    ensures FirstAmount("R$ 900 / 12") == Some("900")
    ensures FirstAmount("sem valor") == None
  {
    var s := "1234,56";
    assert FirstDigitFrom(s, 0) == 0;
    assert LeadEnd(s, 0) == 3;
    assert DecimalEnd(s, GroupsEnd(s, 3)) == 3;
    assert s[0..3] == "123";
    var t := "R$ 900 / 12";
    assert FirstDigitFrom(t, 0) == 3;
    assert LeadEnd(t, 3) == 6;
    assert DecimalEnd(t, GroupsEnd(t, 6)) == 6;
    assert t[3..6] == "900";
    var u := "sem valor";
    assert forall k :: 0 <= k < |u| ==> !IsDigit(u[k]);
  }

  lemma ThousandsAmountValue()
    ensures AmountAt("32.326,75", 0) == "32.326,75"
    ensures AmountValue("32.326,75", 0) == 32326.75
  {
    var s := "32.326,75";
    assert LeadEnd(s, 0) == 2;
    assert IsGroupAt(s, 2) && !IsGroupAt(s, 6);
    assert GroupsEnd(s, 6) == 6;
    assert GroupsEnd(s, 2) == 6;
    assert DecimalEnd(s, 6) == 9;
    assert s[0..2] == "32" && s[3..6] == "326" && s[7..9] == "75";
    assert DigitsValue("3") == 3 && DigitsValue("7") == 7;
    assert "32"[..1] == "3" && "326"[..2] == "32" && "75"[..1] == "7";
    assert DigitsValue("32") == 32 && DigitsValue("326") == 326 && DigitsValue("75") == 75;
    assert GroupsValue(s, 6, 32326) == 32326;
    assert GroupsValue(s, 2, 32) == 32326;
  }

  /** The conversion examples of the source's own comments: "32.326,75", "0,00" and "900". */
  lemma ThousandsAmountExample()
    ensures AllNumberChars(Cleaned("32.326,75")) && ParseFloat(Cleaned("32.326,75")) == Num(32326.75)
  {
    ThousandsAmountValue();
    AmountParses("32.326,75", 0);
  }

  lemma ZeroAmountValue()
    ensures AmountAt("0,00", 0) == "0,00"
    ensures AmountValue("0,00", 0) == 0.0
  {
    var z := "0,00";
    assert LeadEnd(z, 0) == 1 && GroupsEnd(z, 1) == 1 && DecimalEnd(z, 1) == 4;
    assert z[0..1] == "0" && z[2..4] == "00";
    assert DigitsValue("0") == 0 && DigitsValue("00") == 0;
  }

  lemma ZeroAmountExample()
    ensures AllNumberChars(Cleaned("0,00")) && ParseFloat(Cleaned("0,00")) == Num(0.0)
  {
    ZeroAmountValue();
    AmountParses("0,00", 0);
  }

  lemma IntegerAmountExample()
    ensures AllNumberChars(Cleaned("900")) && ParseFloat(Cleaned("900")) == Num(900.0)
  {
    var n := "900";
    assert LeadEnd(n, 0) == 3 && GroupsEnd(n, 3) == 3 && DecimalEnd(n, 3) == 3;
    assert AmountAt(n, 0) == n;
    assert n[0..3] == "900";
    assert DigitsValue("9") == 9 && DigitsValue("90") == 90 && DigitsValue("900") == 900;
    AmountParses(n, 0);
  }
}
