/** What parsing makes of every string. */
module FixedParse {
  import opened Arithmetic
  import opened GoInt
  import opened Options
  import opened FixedNum
  import opened FixedText

  // ---------------------------------------------------------------- the parts of a string

  /** The digits at the beginning of s. */
  function Lead(s: string): (r: string)
    ensures |r| <= |s| && s[..|r|] == r && AllDigits(r) && (|r| < |s| ==> !IsDigit(s[|r|]))
  {
    if s == [] || !IsDigit(s[0]) then ""
    else
      var r := Lead(s[1..]);
      assert s[..|r| + 1] == [s[0]] + s[1..][..|r|];
      [s[0]] + r
  }

  predicate HasDot(s: string) {
    |Lead(s)| < |s| && s[|Lead(s)|] == '.'
  }

  /** The digits behind the first dot, if only digits are before it. */
  function Decimals(s: string): (r: string)
    ensures AllDigits(r)
  {
    if HasDot(s) then Lead(s[|Lead(s)| + 1..]) else ""
  }

  /** How many decimals are read before the scan stops: one even if none is wanted. */
  function Wanted(decimal: int): nat
    requires decimal >= 0
  {
    if decimal == 0 then 1 else decimal
  }

  /** The decimals that are read. */
  function Kept(s: string, decimal: int): (r: string)
    ensures AllDigits(r)
  {
    var d := Decimals(s);
    if decimal >= 0 && |d| > Wanted(decimal) then d[..Wanted(decimal)] else d
  }

  /** What is left when the digits have been read; nothing, if the wanted decimals were found. */
  function Unread(s: string, decimal: int): string {
    if !HasDot(s) then s[|Lead(s)|..]
    else if decimal >= 0 && |Decimals(s)| >= Wanted(decimal) then ""
    else s[|Lead(s)| + 1 + |Decimals(s)|..]
  }

  /** The number n / 10^k as a fixed-point number; decimal < 0 leaves it as it is. */
  function Rescaled(n: nat, k: nat, decimal: int): Parsed {
    var v := if decimal < 0 then n else if decimal >= k then n * Pow10(decimal - k) else n / Pow10(k - decimal);
    if !IsInt64(v) then Err(Overflow) else Ok(Fixed(v, if decimal < 0 then k else decimal))
  }

  /** What a string without a sign stands for. */
  function Meaning(s: string, decimal: int): Parsed {
    var digits := Lead(s) + Kept(s, decimal);
    if Number(digits) > MAX_INT64 then Err(Overflow)
    else if Unread(s, decimal) == "" then Rescaled(Number(digits), |Kept(s, decimal)|, decimal)
    else if Unread(s, decimal)[0] == '.' then Err(DoubleDot)
    else Err(AbnormalChar)
  }

  // ---------------------------------------------------------------- the scan

  /** Digits whose number is too large. */
  lemma {:induction false} ScanOverflows(s: string, rest: string, decimal: int, value: int64, decimals: nat, dot: bool)
    requires AllDigits(s) && value >= 0 && value * Pow10(|s|) + Number(s) > MAX_INT64
    requires dot && decimal >= 0 ==> decimals + |s| <= Wanted(decimal)
    ensures Scan(s + rest, decimal, value, decimals, dot) == Err(Overflow)
    decreases |s|
  {
    hide Number, Pow10, Scan;
    NoDigits(s, value);
    var next := value * 10 + Digit(s[0]);
    FirstDigit(s, value);
    assert (s + rest)[1..] == s[1..] + rest;
    if next > MAX_INT64 {
      DigitOverflows(s + rest, decimal, value, decimals, dot);
    } else {
      NoDigits(s[1..], next);
      ScanDigit(s + rest, decimal, value, decimals, dot);
      ScanOverflows(s[1..], rest, decimal, next, if dot then decimals + 1 else decimals, dot);
    }
  }

  lemma NoDigits(s: string, value: int)
    requires AllDigits(s)
    ensures s == "" ==> value * Pow10(|s|) + Number(s) == value
  {
  }

  lemma DigitOverflows(s: string, decimal: int, value: int64, decimals: nat, dot: bool)
    requires s != [] && IsDigit(s[0]) && value >= 0 && value * 10 + Digit(s[0]) > MAX_INT64
    ensures Scan(s, decimal, value, decimals, dot) == Err(Overflow)
  {
    MultiplyOverflowExact(value, 10);
  }

  /** Other characters. */
  lemma ScanOther(s: string, decimal: int, value: int64, decimals: nat, dot: bool)
    requires s != [] ==> !IsDigit(s[0])
    ensures Scan(s, decimal, value, decimals, dot) ==
            if s == [] then Ok(Fixed(value, decimals))
            else if s[0] != '.' then Err(AbnormalChar)
            else if dot then Err(DoubleDot) else Scan(s[1..], decimal, value, decimals, true)
  {
  }

  /** The decimals, from a number before the dot. */
  lemma ScanFraction(d: string, rest: string, decimal: int, value: int64)
    requires AllDigits(d) && value >= 0 && (rest != [] ==> !IsDigit(rest[0]))
    ensures var stops := decimal >= 0 && |d| >= Wanted(decimal);
            var k := if stops then Wanted(decimal) else |d|;
            var n := value * Pow10(k) + Number(d[..k]);
            Scan(d + rest, decimal, value, 0, true) ==
            if n > MAX_INT64 then Err(Overflow)
            else if stops || rest == "" then Ok(Fixed(n, k))
            else if rest[0] == '.' then Err(DoubleDot) else Err(AbnormalChar)
  {
    hide Scan, Number, Pow10;
    var stops := decimal >= 0 && |d| >= Wanted(decimal);
    var k := if stops then Wanted(decimal) else |d|;
    var a, b := d[..k], d[k..] + rest;
    assert d + rest == a + b;
    var n := value * Pow10(k) + Number(a);
    if n > MAX_INT64 {
      ScanOverflows(a, b, decimal, value, 0, true);
    } else if stops {
      ScaledSign(value, Pow10(k));
      ScanStops(a, b, decimal, value);
    } else {
      ScaledSign(value, Pow10(k));
      assert b == rest;
      if d == "" {
        NoDigits(a, value);
      } else {
        ScanDigits(a, b, decimal, value, 0, true);
      }
      ScanOther(rest, decimal, n, k, true);
    }
  }

  lemma ScanStops(s: string, rest: string, decimal: int, value: int64)
    requires decimal >= 0 && |s| == Wanted(decimal) && AllDigits(s) && value >= 0
    requires IsInt64(value * Pow10(|s|) + Number(s))
    ensures Scan(s + rest, decimal, value, 0, true) == Ok(Fixed(value * Pow10(|s|) + Number(s), |s|))
  {
    hide Scan;
    if decimal == 0 {
      SingleDigit(s[0]);
      assert s == [s[0]];
      ScanDigit(s + rest, decimal, value, 0, true);
    } else {
      ScanDecimals(s, rest, decimal, value, 0);
    }
  }

  /** The digits before the dot, and then the rest. */
  lemma ScanLead(s: string, decimal: int)
    ensures var w := Lead(s);
            Scan(s, decimal, 0, 0, false) ==
            if Number(w) > MAX_INT64 then Err(Overflow) else Scan(s[|w|..], decimal, Number(w), 0, false)
  {
    hide Scan, Number, Pow10;
    var w, rest := Lead(s), s[|Lead(s)|..];
    assert s == w + rest;
    assert 0 * Pow10(|w|) + Number(w) == Number(w);
    if Number(w) > MAX_INT64 {
      ScanOverflows(w, rest, decimal, 0, 0, false);
    } else {
      ScanDigits(w, rest, decimal, 0, 0, false);
    }
  }

  lemma TooLarge(w: string, d: string)
    requires AllDigits(w) && AllDigits(d) && Number(w) > MAX_INT64
    ensures Number(w + d) > MAX_INT64
  {
    NumberAppend(w, d);
    AtMost(Number(w), Pow10(|d|));
  }

  /** The dot and what follows it. */
  lemma ScanDotted(s: string, decimal: int)
    requires HasDot(s) && Number(Lead(s)) <= MAX_INT64
    ensures var w, kept := Lead(s), Kept(s, decimal);
            var n := Number(w + kept);
            Scan(s[|w|..], decimal, Number(w), 0, false) ==
            if n > MAX_INT64 then Err(Overflow)
            else if Unread(s, decimal) == "" then Ok(Fixed(n, |kept|))
            else if Unread(s, decimal)[0] == '.' then Err(DoubleDot) else Err(AbnormalChar)
  {
    hide Scan, Number, Pow10, Lead;
    var w := Lead(s);
    var tail, d := s[|w| + 1..], Decimals(s);
    var rest := tail[|d|..];
    assert s[|w|..][1..] == tail == d + rest && rest == s[|w| + 1 + |d|..];
    ScanOther(s[|w|..], decimal, Number(w), 0, false);
    ScanFraction(d, rest, decimal, Number(w));
    assert d[..|d|] == d;
    NumberAppend(w, Kept(s, decimal));
  }

  /** The scan of a whole string. */
  lemma ScanExact(s: string, decimal: int)
    ensures var digits := Lead(s) + Kept(s, decimal);
            Scan(s, decimal, 0, 0, false) ==
            if Number(digits) > MAX_INT64 then Err(Overflow)
            else if Unread(s, decimal) == "" then Ok(Fixed(Number(digits), |Kept(s, decimal)|))
            else if Unread(s, decimal)[0] == '.' then Err(DoubleDot) else Err(AbnormalChar)
  {
    hide Scan, Number, Lead, Pow10;
    var w := Lead(s);
    ScanLead(s, decimal);
    if Number(w) > MAX_INT64 {
      TooLarge(w, Kept(s, decimal));
    } else if HasDot(s) {
      hide Kept, Unread, HasDot;
      ScanDotted(s, decimal);
    } else {
      ScanOther(s[|w|..], decimal, Number(w), 0, false);
      assert w + Kept(s, decimal) == w;
    }
  }

  /** The rescaling that follows the scan. */
  lemma FinishExact(n: int64, k: nat, decimal: int)
    requires n >= 0
    ensures Finish(Ok(Fixed(n, k)), decimal) == Rescaled(n, k, decimal)
  {
    hide ChangeDecimal, Pow10, TruncDiv;
    if decimal >= 0 {
      ChangeDecimalExact(Fixed(n, k), decimal);
      if decimal < k {
        TruncDivPositive(n, Pow10(k - decimal));
      }
    }
  }

  /** Parsing reads every string as what it stands for, or reports the first thing that is wrong with it. */
  lemma ParseExact(s: string, decimal: int)
    ensures ParsePositive(s, decimal) == Meaning(s, decimal)
  {
    hide Scan, Number, Finish;
    ScanExact(s, decimal);
    var n := Number(Lead(s) + Kept(s, decimal));
    if n <= MAX_INT64 && Unread(s, decimal) == "" {
      FinishExact(n, |Kept(s, decimal)|, decimal);
    } else {
      NothingToFinish(Scan(s, decimal, 0, 0, false), decimal);
    }
  }

  lemma NothingToFinish(p: Parsed, decimal: int)
    requires p.Err?
    ensures Finish(p, decimal) == p
  {
  }

  // ---------------------------------------------------------------- signs

  /** How many minus signs are in front. */
  function Minuses(s: string): (m: nat)
    ensures m <= |s| && (m < |s| ==> s[m] != '-')
  {
    if s == [] || s[0] != '-' then 0 else 1 + Minuses(s[1..])
  }

  function Signed(p: Parsed, m: nat): Parsed {
    if p.Err? || m % 2 == 0 || p.fixed.value == MIN_INT64 then p else Ok(Fixed(-p.fixed.value, p.fixed.decimal))
  }

  lemma MeaningIsPositive(s: string, decimal: int)
    ensures Meaning(s, decimal).Ok? ==> Meaning(s, decimal).fixed.value >= 0
  {
    hide Number;
    if decimal >= 0 {
      var k := |Kept(s, decimal)|;
      var n := Number(Lead(s) + Kept(s, decimal));
      if decimal >= k {
        ScaledSign(n, Pow10(decimal - k));
      } else {
        DivSign(n, Pow10(k - decimal));
      }
    }
  }

  /** Every minus sign in front turns the sign around; what follows must begin neither with a dot nor be missing. */
  lemma {:induction false} NewFixedExact(s: string, decimal: int)
    ensures var t := s[Minuses(s)..];
            NewFixed(s, decimal) ==
            if t == "" || t[0] == '.' then Err(AmountFormat) else Signed(Meaning(t, decimal), Minuses(s))
    ensures NewFixed(s, decimal).Ok? ==> NewFixed(s, decimal).fixed.value > MIN_INT64
    decreases |s|
  {
    hide Meaning, ParsePositive;
    if s != [] && s[0] == '-' {
      NewFixedExact(s[1..], decimal);
      assert s[1..][Minuses(s[1..])..] == s[Minuses(s)..];
      if NewFixed(s[1..], decimal).Ok? {
        NegExact(NewFixed(s[1..], decimal).fixed);
      }
    } else {
      ParseExact(s, decimal);
      MeaningIsPositive(s, decimal);
    }
  }

  // ---------------------------------------------------------------- truncation

  lemma LeadIs(s: string, rest: string)
    requires AllDigits(s) && (rest != "" ==> !IsDigit(rest[0]))
    ensures Lead(s + rest) == s
  {
    assert (s + rest)[..|s|] == s;
  }

  /** Digits alone are their number, or too large. */
  lemma PlainDigits(s: string)
    requires AllDigits(s) && s != ""
    ensures NewFixed(s, 0) == if Number(s) > MAX_INT64 then Err(Overflow) else Ok(Fixed(Number(s), 0))
  {
    hide Number, Lead;
    assert s + "" == s;
    LeadIs(s, "");
    ParseExact(s, 0);
    assert s + Kept(s, 0) == s;
    PowZero();
  }

  lemma PowZero()
    ensures Pow10(0) == 1 && Pow10(1) == 10
  {
  }

  /** A decimal that is not wanted is read all the same, and only then dropped: it must not overflow either. */
  lemma DroppedDecimal(s: string, c: char)
    requires AllDigits(s) && s != "" && IsDigit(c)
    ensures NewFixed(s + ['.', c], 0) ==
            if 10 * Number(s) + Digit(c) > MAX_INT64 then Err(Overflow) else Ok(Fixed(Number(s), 0))
  {
    hide Number, Lead;
    var t := s + ['.', c];
    LeadIs(s, ['.', c]);
    assert t[|s| + 1..] == [c] + "" == [c];
    LeadIs([c], "");
    assert Decimals(t) == Kept(t, 0) == [c];
    ParseExact(t, 0);
    SingleDigit(c);
    NumberAppend(s, [c]);
    PowZero();
    assert Number(s + [c]) == 10 * Number(s) + Digit(c);
    assert (10 * Number(s) + Digit(c)) / 10 == Number(s);
  }

  /** For example, the nineteen digits of 10^18 are parsed, but not if they are followed by ".0". */
  lemma TruncatedOverflows()
    ensures var s := Digits(1_000_000_000_000_000_000, 1);
            NewFixed(s, 0) == Ok(Fixed(1_000_000_000_000_000_000, 0)) && NewFixed(s + ".0", 0) == Err(Overflow)
  {
    hide Number, Digits, NewFixed;
    var s := Digits(1_000_000_000_000_000_000, 1);
    DigitsNumber(1_000_000_000_000_000_000, 1);
    PlainDigits(s);
    DroppedDecimal(s, '0');
  }
}
