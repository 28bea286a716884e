/** Decimal strings of modules/brc20_index/brc20_index.py: the amounts in an
    inscription are parsed to integers with 18 implied decimals, and printed back
    with the ticker's own number of decimals into the event strings. */
module Numbers {
  import opened Wrappers
  import opened Arithmetic

  predicate IsDigit(c: char) {
    '0' <= c <= '9'
  }

  predicate AllDigits(s: string) {
    forall i | 0 <= i < |s| :: IsDigit(s[i])
  }

  /** `is_positive_number` */
  predicate IsPositiveNumber(s: string) {
    s != "" && AllDigits(s)
  }

  /** The position of the first '.', or the length of the string. */
  function DotIndex(s: string): (i: nat)
    ensures i <= |s| && '.' !in s[..i] && (i < |s| ==> s[i] == '.')
  {
    if s == "" || s[0] == '.' then 0
    else
      var i := 1 + DotIndex(s[1..]);
      assert s[..i] == [s[0]] + s[1..][..i - 1];
      i
  }

  /** `is_positive_number_with_dot`: digits with at most one dot, which is neither
      first nor last. */
  predicate IsPositiveNumberWithDot(s: string) {
    var d := DotIndex(s);
    && s != "" && AllDigits(s[..d])
    && (d < |s| ==> 0 < d < |s| - 1 && AllDigits(s[d + 1..]))
  }

  function Pow10(n: nat): (p: nat)
    ensures p > 0
  {
    if n == 0 then 1 else 10 * Pow10(n - 1)
  }

  /** `int(s)` on a string of digits. */
  function ParseInt(s: string): nat
    requires AllDigits(s)
  {
    if s == "" then 0 else ParseInt(s[..|s| - 1]) * 10 + (s[|s| - 1] as int - '0' as int)
  }

  /** `str(n)` */
  function Dec(n: nat): (s: string)
    ensures s != "" && AllDigits(s)
  {
    var digit := [('0' as int + n % 10) as char];
    if n < 10 then digit else Dec(n / 10) + digit
  }

  function Zeros(n: nat): (s: string)
    ensures |s| == n && AllDigits(s)
  {
    seq(n, _ => '0')
  }

  /** The fraction is filled up to 18 digits, and the whole read as one number. */
  function ParsePadded18(whole: string, fraction: string): nat
    requires AllDigits(whole) && AllDigits(fraction) && |fraction| <= 18
  {
    ParseInt(whole + (fraction + Zeros(18 - |fraction|)))
  }

  /** `get_number_extended_to_18_decimals` */
  function Extended(s: string, decimals: nat): Option<nat>
    requires IsPositiveNumberWithDot(s) && decimals <= 18
  {
    var d := DotIndex(s);
    if d < |s| then
      var fraction := s[d + 1..];
      if |fraction| > decimals || |fraction| == 0 then None
      else Some(ParsePadded18(s[..d], fraction))
    else Some(ParseUnits(s[..d]))
  }

  /** A number without a fraction, in units of ten to the minus eighteenth. */
  function ParseUnits(whole: string): nat
    requires AllDigits(whole)
  {
    ParseInt(whole) * Pow10(18)
  }

  /** A number string with the dot before its last 18 digits, padded as needed. */
  function Dotted(numStr: string): (s: string)
    ensures |s| >= 20
  {
    if |numStr| <= 18 then "0." + (Zeros(18 - |numStr|) + numStr)
    else numStr[..|numStr| - 18] + "." + numStr[|numStr| - 18..]
  }

  /** `fix_numstr_decimals` */
  function Fixed(numStr: string, decimals: nat): string
    requires decimals <= 18
  {
    var dotted := Dotted(numStr);
    var cut := if decimals < 18 then dotted[..|dotted| - (18 - decimals)] else dotted;
    if cut[|cut| - 1] == '.' then cut[..|cut| - 1] else cut
  }

  // ---- digits

  lemma {:induction false} ParseDec(n: nat)
    ensures ParseInt(Dec(n)) == n
  {
    if n >= 10 {
      ParseDec(n / 10);
      assert Dec(n)[..|Dec(n)| - 1] == Dec(n / 10);
    } else {
      assert Dec(n)[..0] == "";
    }
  }

  lemma {:induction false} Pow10Sum(a: nat, b: nat)
    ensures Pow10(a + b) == Pow10(a) * Pow10(b)
  {
    if b > 0 {
      Pow10Sum(a, b - 1);
      assert 10 * (Pow10(a) * Pow10(b - 1)) == Pow10(a) * (10 * Pow10(b - 1));
    }
  }

  /** A digit string reads as its head shifted by its tail, plus its tail. */
  lemma {:induction false} ParseConcat(a: string, b: string)
    requires AllDigits(a) && AllDigits(b)
    ensures ParseInt(a + b) == ParseInt(a) * Pow10(|b|) + ParseInt(b)
    decreases |b|
  {
    if b == "" {
      assert a + b == a;
    } else {
      var b0 := b[..|b| - 1];
      assert (a + b)[..|a + b| - 1] == a + b0;
      ParseConcat(a, b0);
      assert 10 * (ParseInt(a) * Pow10(|b0|)) == ParseInt(a) * (10 * Pow10(|b0|));
    }
  }

  lemma {:induction false} ParseZeros(n: nat)
    ensures ParseInt(Zeros(n)) == 0
  {
    if n > 0 {
      ParseZeros(n - 1);
      assert Zeros(n)[..n - 1] == Zeros(n - 1);
    }
  }

  lemma {:induction false} ParseBound(s: string)
    requires AllDigits(s)
    ensures ParseInt(s) < Pow10(|s|)
  {
    if s != "" {
      ParseBound(s[..|s| - 1]);
    }
  }

  // ---- round trip

  /** The digits of `n`, padded so that at least one stands before the last 18. */
  function Padded(n: nat): (s: string)
    ensures |s| >= 19 && AllDigits(s)
  {
    if |Dec(n)| <= 18 then "0" + (Zeros(18 - |Dec(n)|) + Dec(n)) else Dec(n)
  }

  lemma ParsePadded(n: nat)
    ensures ParseInt(Padded(n)) == n
  {
    ParseDec(n);
    if |Dec(n)| <= 18 {
      var zeros := Zeros(19 - |Dec(n)|);
      assert Padded(n) == zeros + Dec(n);
      ParseConcat(zeros, Dec(n));
      ParseZeros(19 - |Dec(n)|);
      assert 0 * Pow10(|Dec(n)|) == 0;
    }
  }

  lemma DottedForm(n: nat)
    ensures var p := Padded(n); Dotted(Dec(n)) == p[..|p| - 18] + "." + p[|p| - 18..]
  {
    hide Dec;
    if |Dec(n)| <= 18 {
      assert Padded(n)[..|Padded(n)| - 18] == "0";
    }
  }

  lemma CutForm(whole: string, last: string, decimals: nat)
    requires |last| == 18 && AllDigits(last) && decimals <= 18
    ensures var dotted := whole + "." + last;
            var cut := if decimals < 18 then dotted[..|dotted| - (18 - decimals)] else dotted;
            && cut == whole + "." + last[..decimals]
            && (cut[|cut| - 1] == '.' <==> decimals == 0)
            && (decimals == 0 ==> cut[..|cut| - 1] == whole)
  {
    var dotted := whole + "." + last;
    var cut := if decimals < 18 then dotted[..|dotted| - (18 - decimals)] else dotted;
    assert cut == whole + "." + last[..decimals];
    if decimals > 0 {
      assert cut[|cut| - 1] == last[decimals - 1];
    }
  }

  /** The printed form: the padded digits up to the wanted decimals, with a dot before
      them unless there are none. */
  lemma {:induction false} FixedForm(n: nat, decimals: nat)
    requires decimals <= 18
    ensures var p := Padded(n);
            var whole := p[..|p| - 18];
            Fixed(Dec(n), decimals) ==
            if decimals == 0 then whole else whole + "." + p[|p| - 18..|p| - 18 + decimals]
  {
    hide Dec, Dotted, Padded;
    var p := Padded(n);
    DottedForm(n);
    CutForm(p[..|p| - 18], p[|p| - 18..], decimals);
    assert p[|p| - 18..][..decimals] == p[|p| - 18..|p| - 18 + decimals];
  }

  lemma {:induction false} DotIs(s: string, d: nat)
    requires d <= |s| && AllDigits(s[..d]) && (d < |s| ==> s[d] == '.')
    ensures DotIndex(s) == d
  {
    if d > 0 {
      assert IsDigit(s[..d][0]);
      assert s[1..][..d - 1] == s[..d][1..];
      DotIs(s[1..], d - 1);
    }
  }

  lemma {:induction false} DropDigits(whole: string, rest: string)
    requires AllDigits(whole) && AllDigits(rest)
    ensures ParseInt(whole + Zeros(|rest|)) == RoundDown(ParseInt(whole + rest), Pow10(|rest|))
  {
    hide Pow10, ParseInt, RoundDown;
    ParseConcat(whole, rest);
    ParseConcat(whole, Zeros(|rest|));
    ParseZeros(|rest|);
    ParseBound(rest);
    RoundDownIs(ParseInt(whole), Pow10(|rest|), ParseInt(rest));
  }

  /** Printing an amount with a ticker's decimals and parsing it back rounds it down to
      what those decimals can express, and loses nothing else. */
  lemma {:induction false} PrintThenParse(n: nat, decimals: nat)
    requires decimals <= 18
    ensures IsPositiveNumberWithDot(Fixed(Dec(n), decimals))
    ensures Extended(Fixed(Dec(n), decimals), decimals) == Some(RoundDown(n, Pow10(18 - decimals)))
  {
    hide Padded, Fixed, Extended, Pow10, ParseInt, Dec, RoundDown, IsPositiveNumberWithDot;
    var p := Padded(n);
    var whole := p[..|p| - 18];
    FixedForm(n, decimals);
    ParsePadded(n);
    if decimals == 0 {
      ParseWhole(whole, p[|p| - 18..]);
      assert whole + p[|p| - 18..] == p;
    } else {
      ParseDotted(whole, p[|p| - 18..|p| - 18 + decimals], p[|p| - 18 + decimals..]);
      assert whole + p[|p| - 18..|p| - 18 + decimals] + p[|p| - 18 + decimals..] == p;
    }
  }

  lemma {:induction false} ParseWhole(whole: string, rest: string)
    requires whole != "" && AllDigits(whole) && AllDigits(rest) && |rest| == 18
    ensures IsPositiveNumberWithDot(whole)
    ensures Extended(whole, 0) == Some(RoundDown(ParseInt(whole + rest), Pow10(18)))
  {
    hide ParseInt, RoundDown, DotIndex;
    DotIs(whole, |whole|);
    assert whole[..|whole|] == whole;
    DropDigits(whole, rest);
    ParseConcat(whole, Zeros(18));
    ParseZeros(18);
  }

  lemma {:induction false} ParseDotted(whole: string, fraction: string, rest: string)
    requires whole != "" && fraction != "" && |fraction| + |rest| == 18
    requires AllDigits(whole) && AllDigits(fraction) && AllDigits(rest)
    ensures IsPositiveNumberWithDot(whole + "." + fraction)
    ensures Extended(whole + "." + fraction, |fraction|) ==
            Some(RoundDown(ParseInt(whole + fraction + rest), Pow10(|rest|)))
  {
    hide Pow10, ParseInt, RoundDown, DotIndex;
    var s := whole + "." + fraction;
    assert s[..|whole|] == whole && s[|whole| + 1..] == fraction;
    DotIs(s, |whole|);
    DropDigits(whole + fraction, rest);
    assert whole + (fraction + Zeros(|rest|)) == (whole + fraction) + Zeros(|rest|);
  }

  // ---- what an amount means

  /** A number with a dot: digits on both sides of it. */
  predicate DotAt(s: string, d: nat) {
    0 < d < |s| - 1 && s[d] == '.' && AllDigits(s[..d]) && AllDigits(s[d + 1..])
  }

  /** Accepted are exactly the digit strings, and two of them around a dot. */
  lemma {:induction false} AcceptedNumbers(s: string)
    ensures IsPositiveNumberWithDot(s) <==> (s != "" && AllDigits(s)) || exists d :: DotAt(s, d)
  {
    hide DotIndex;
    var d := DotIndex(s);
    if IsPositiveNumberWithDot(s) {
      if d < |s| {
        assert DotAt(s, d);
      } else {
        assert s[..d] == s;
      }
    }
    if s != "" && AllDigits(s) {
      assert s[..|s|] == s;
      DotIs(s, |s|);
    }
    forall e | DotAt(s, e)
      ensures IsPositiveNumberWithDot(s)
    {
      DotIs(s, e);
    }
  }

  /** A number without a dot counts whole units, whatever the decimals. */
  lemma {:induction false} WholeNumberIs(whole: string, decimals: nat)
    requires whole != "" && AllDigits(whole) && decimals <= 18
    ensures IsPositiveNumberWithDot(whole)
    ensures Extended(whole, decimals) == Some(ParseInt(whole) * Pow10(18))
  {
    hide ParseInt, Pow10, DotIndex;
    DotIs(whole, |whole|);
    assert whole[..|whole|] == whole;
  }

  /** A number with a dot is refused exactly when it has more digits behind it than the ticker has decimals.
      Otherwise the dot moves eighteen places: shifted by its own digits, the result is the number read without
      the dot. */
  lemma {:induction false} DottedNumberIs(whole: string, fraction: string, decimals: nat)
    requires whole != "" && fraction != "" && AllDigits(whole) && AllDigits(fraction) && decimals <= 18
    ensures IsPositiveNumberWithDot(whole + "." + fraction)
    ensures var n := Extended(whole + "." + fraction, decimals);
            && (n.None? <==> |fraction| > decimals)
            && (n.Some? ==> n.value * Pow10(|fraction|) == ParseInt(whole + fraction) * Pow10(18))
  {
    hide ParseInt, Pow10, DotIndex;
    var s := whole + "." + fraction;
    assert s[..|whole|] == whole && s[|whole| + 1..] == fraction;
    DotIs(s, |whole|);
    if |fraction| <= decimals {
      ShiftedDigits(whole + fraction, |fraction|);
      assert whole + (fraction + Zeros(18 - |fraction|)) == (whole + fraction) + Zeros(18 - |fraction|);
    }
  }

  lemma {:induction false} ShiftedDigits(digits: string, places: nat)
    requires AllDigits(digits) && places <= 18
    ensures ParseInt(digits + Zeros(18 - places)) * Pow10(places) == ParseInt(digits) * Pow10(18)
  {
    hide ParseInt, Pow10;
    var rest := 18 - places;
    ParseConcat(digits, Zeros(rest));
    ParseZeros(rest);
    Pow10Sum(rest, places);
    assert (ParseInt(digits) * Pow10(rest)) * Pow10(places) == ParseInt(digits) * (Pow10(rest) * Pow10(places));
  }

  /** The whole units of an amount and its eighteen further digits, as they are printed. */
  predicate PrintedWith(n: nat, decimals: nat, units: nat, fraction: string) {
    && |fraction| == 18 && AllDigits(fraction) && decimals <= 18
    && n == units * Pow10(18) + ParseInt(fraction)
    && Fixed(Dec(n), decimals) == Dec(units) + if decimals == 0 then "" else "." + fraction[..decimals]
  }

  /** A printed amount is its whole units without leading zeros, and its first decimals behind a dot. */
  lemma {:induction false} PrintedNumberIs(n: nat, decimals: nat) returns (units: nat, fraction: string)
    requires decimals <= 18
    ensures PrintedWith(n, decimals, units, fraction)
  {
    hide Dec, Fixed, Padded, ParseInt, Pow10;
    var p := Padded(n);
    var whole := p[..|p| - 18];
    fraction := p[|p| - 18..];
    units := ParseInt(whole);
    FixedForm(n, decimals);
    ParsePadded(n);
    assert p == whole + fraction;
    ParseConcat(whole, fraction);
    PaddedWhole(n);
    assert fraction[..decimals] == p[|p| - 18..|p| - 18 + decimals];
  }

  /** The first digits of a printed number are a printed number. */
  lemma {:induction false} PrefixIsPrinted(n: nat, k: nat)
    requires 0 < k <= |Dec(n)|
    ensures Dec(n)[..k] == Dec(ParseInt(Dec(n)[..k]))
  {
    if k == |Dec(n)| {
      assert Dec(n)[..k] == Dec(n);
      ParseDec(n);
    } else {
      assert Dec(n)[..|Dec(n)| - 1] == Dec(n / 10);
      PrefixIsPrinted(n / 10, k);
      assert Dec(n)[..k] == Dec(n / 10)[..k];
    }
  }

  lemma {:induction false} PaddedWhole(n: nat)
    ensures var whole := Padded(n)[..|Padded(n)| - 18]; whole == Dec(ParseInt(whole))
  {
    var whole := Padded(n)[..|Padded(n)| - 18];
    if |Dec(n)| <= 18 {
      assert whole == "0" && whole[..0] == "";
      assert ParseInt("0") == 0 && Dec(0) == "0";
    } else {
      PrefixIsPrinted(n, |Dec(n)| - 18);
    }
  }

  // ---- expressible amounts

  predicate IsMultiple(n: int, k: int, u: nat) {
    n == k * u
  }

  ghost predicate MultipleOf(n: int, u: nat) {
    exists k: int :: IsMultiple(n, k, u)
  }

  /** An amount that a ticker with `decimals` decimals can express. */
  ghost predicate Granular(n: int, decimals: nat)
    requires decimals <= 18
  {
    MultipleOf(n, Pow10(18 - decimals))
  }

  /** Whatever the parser accepts is expressible with the ticker's decimals. */
  lemma ParsedIsGranular(s: string, decimals: nat)
    requires IsPositiveNumberWithDot(s) && decimals <= 18
    ensures Extended(s, decimals).Some? ==> Granular(Extended(s, decimals).value, decimals)
  {
    hide ParseInt, Pow10, Granular, IsPositiveNumberWithDot;
    var d := DotIndex(s);
    DotParts(s);
    if Extended(s, decimals).Some? {
      if d < |s| {
        var fraction := s[d + 1..];
        var shift := 18 - |fraction|;
        assert s[..d] + (fraction + Zeros(shift)) == (s[..d] + fraction) + Zeros(shift);
        ParseConcat(s[..d] + fraction, Zeros(shift));
        ParseZeros(shift);
        ShiftedIsGranular(ParseInt(s[..d] + fraction), shift, decimals);
      } else {
        ShiftedIsGranular(ParseInt(s[..d]), 18, decimals);
      }
    }
  }

  lemma DotParts(s: string)
    requires IsPositiveNumberWithDot(s)
    ensures AllDigits(s[..DotIndex(s)])
    ensures DotIndex(s) < |s| ==> AllDigits(s[DotIndex(s) + 1..])
  {
  }

  lemma ShiftedIsGranular(head: nat, shift: nat, decimals: nat)
    requires 18 - decimals <= shift && decimals <= 18
    ensures Granular(head * Pow10(shift), decimals)
  {
    hide Pow10;
    var more := shift - (18 - decimals);
    Pow10Sum(more, 18 - decimals);
    assert head * (Pow10(more) * Pow10(18 - decimals)) == (head * Pow10(more)) * Pow10(18 - decimals);
    assert IsMultiple(head * Pow10(shift), head * Pow10(more), Pow10(18 - decimals));
  }

  lemma GranularArithmetic(a: int, b: int, decimals: nat)
    requires decimals <= 18 && Granular(a, decimals) && Granular(b, decimals)
    ensures Granular(a + b, decimals) && Granular(a - b, decimals)
  {
    var u := Pow10(18 - decimals);
    var x :| IsMultiple(a, x, u);
    var y :| IsMultiple(b, y, u);
    assert IsMultiple(a + b, x + y, u);
    assert IsMultiple(a - b, x - y, u);
  }

  /** A printed event string loses nothing of an expressible amount. */
  lemma {:induction false} EventAmountRoundTrip(n: nat, decimals: nat)
    requires decimals <= 18 && Granular(n, decimals)
    ensures IsPositiveNumberWithDot(Fixed(Dec(n), decimals))
    ensures Extended(Fixed(Dec(n), decimals), decimals) == Some(n)
  {
    hide Fixed, Extended, Pow10, Dec, RoundDown, IsPositiveNumberWithDot;
    PrintThenParse(n, decimals);
    var u := Pow10(18 - decimals);
    var k :| IsMultiple(n, k, u);
    NonNegativeFactor(k, u);
    RoundDownIs(k, u, 0);
  }

  lemma NonNegativeFactor(k: int, u: nat)
    requires k * u >= 0 && u > 0
    ensures k >= 0
  {
  }
}
