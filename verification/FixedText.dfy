/** Printing and parsing of fixed-point numbers, and exactly when parsing undoes printing. */
module FixedText {
  import opened Arithmetic
  import opened GoInt
  import opened Options
  import opened FixedNum

  // ---------------------------------------------------------------- digits

  predicate IsDigit(c: char) {
    '0' <= c <= '9'
  }

  predicate AllDigits(s: string) {
    forall i :: 0 <= i < |s| ==> IsDigit(s[i])
  }

  function DigitOf(n: nat): (c: char)
    requires n < 10
    ensures IsDigit(c) && Digit(c) == n
  {
    '0' + n as char
  }

  function Digit(c: char): (n: nat)
    requires IsDigit(c)
    ensures n < 10
  {
    (c - '0') as int
  }

  /** The number that digits denote. */
  function Number(s: string): nat
    requires AllDigits(s)
  {
    if s == [] then 0 else 10 * Number(s[..|s| - 1]) + Digit(s[|s| - 1])
  }

  lemma {:induction false} NumberAppend(a: string, b: string)
    requires AllDigits(a) && AllDigits(b)
    ensures AllDigits(a + b) && Number(a + b) == Number(a) * Pow10(|b|) + Number(b)
  {
    if b == [] {
      assert a + b == a;
    } else {
      var c := b[..|b| - 1];
      assert (a + b)[..|a + b| - 1] == a + c;
      NumberAppend(a, c);
      Associate(Number(a), Pow10(|c|), 10);
    }
  }

  // ---------------------------------------------------------------- parsing

  datatype ParseError = Overflow | AbnormalChar | AmountFormat | DoubleDot

  datatype Parsed = Ok(fixed: Fixed) | Err(error: ParseError)

  /** The loop of parsePositiveFixed: value and decimals so far, and whether the dot has been seen. */
  function Scan(s: string, decimal: int, value: int64, decimals: nat, dot: bool): Parsed
    decreases |s|
  {
    if s == [] then Ok(Fixed(value, decimals))
    else if IsDigit(s[0]) then
      if MultiplyOverflow(value, 10) then Err(Overflow)
      else
        var next := Wrap64(Wrap64(value * 10) + Digit(s[0]));
        if next < 0 then Err(Overflow)
        else if dot && decimal >= 0 && decimals + 1 >= decimal then Ok(Fixed(next, decimals + 1))
        else Scan(s[1..], decimal, next, if dot then decimals + 1 else decimals, dot)
    else if s[0] == '.' then
      if dot then Err(DoubleDot) else Scan(s[1..], decimal, value, decimals, true)
    else Err(AbnormalChar)
  }

  function ParsePositive(s: string, decimal: int): Parsed {
    Finish(Scan(s, decimal, 0, 0, false), decimal)
  }

  function Finish(p: Parsed, decimal: int): Parsed {
    if p.Err? || decimal < 0 then p
    else
      match ChangeDecimal(p.fixed, decimal)
      case None => Err(Overflow)
      case Some(f) => Ok(f)
  }

  method ParsePositiveFixed(amount: string, decimal: int) returns (r: Parsed)
    ensures r == ParsePositive(amount, decimal)
  {
    var value: int64, decimals: nat, dot := 0, 0, false;
    var i := 0;
    while i < |amount|
      invariant 0 <= i <= |amount|
      invariant Scan(amount[i..], decimal, value, decimals, dot) == Scan(amount, decimal, 0, 0, false)
    {
      assert amount[i..][0] == amount[i] && amount[i..][1..] == amount[i + 1..];
      if IsDigit(amount[i]) {
        if MultiplyOverflow(value, 10) {
          return Err(Overflow);
        }
        value := Wrap64(Wrap64(value * 10) + Digit(amount[i]));
        if value < 0 {
          return Err(Overflow);
        }
        if dot {
          decimals := decimals + 1;
          if decimal >= 0 && decimals >= decimal {
            return Finish(Ok(Fixed(value, decimals)), decimal);
          }
        }
      } else if amount[i] == '.' {
        if dot {
          return Err(DoubleDot);
        }
        dot := true;
      } else {
        return Err(AbnormalChar);
      }
      i := i + 1;
    }
    r := Finish(Ok(Fixed(value, decimals)), decimal);
  }

  function NewFixed(amount: string, decimal: int): Parsed
    decreases |amount|
  {
    if amount == [] || amount[0] == '.' then Err(AmountFormat)
    else if amount[0] == '-' then
      match NewFixed(amount[1..], decimal)
      case Err(e) => Err(e)
      case Ok(f) => (match Neg(f) case None => Err(Overflow) case Some(g) => Ok(g))
    else ParsePositive(amount, decimal)
  }

  /** One digit, which does not overflow. */
  lemma ScanDigit(s: string, decimal: int, value: int64, decimals: nat, dot: bool)
    requires s != [] && IsDigit(s[0]) && value >= 0 && IsInt64(value * 10 + Digit(s[0]))
    ensures var next := value * 10 + Digit(s[0]);
            Scan(s, decimal, value, decimals, dot) ==
            if dot && decimal >= 0 && decimals + 1 >= decimal then Ok(Fixed(next, decimals + 1))
            else Scan(s[1..], decimal, next, if dot then decimals + 1 else decimals, dot)
  {
    MultiplyOverflowExact(value, 10);
  }

  /** Digits are read as one number; none of the steps overflows if the result does not. */
  lemma {:induction false} ScanDigits(s: string, rest: string, decimal: int, value: int64, decimals: nat, dot: bool)
    requires AllDigits(s) && value >= 0 && IsInt64(value * Pow10(|s|) + Number(s))
    requires dot && decimal >= 0 ==> decimals + |s| < decimal
    ensures Scan(s + rest, decimal, value, decimals, dot) ==
            Scan(rest, decimal, value * Pow10(|s|) + Number(s), if dot then decimals + |s| else decimals, dot)
    decreases |s|
  {
    hide Scan;
    if s == [] {
      assert s + rest == rest;
      assert value * Pow10(|s|) + Number(s) == value;
    } else {
      var next := value * 10 + Digit(s[0]);
      FirstDigit(s, value);
      assert (s + rest)[1..] == s[1..] + rest;
      ScanDigit(s + rest, decimal, value, decimals, dot);
      ScanDigits(s[1..], rest, decimal, next, if dot then decimals + 1 else decimals, dot);
    }
  }

  /** Reading the first digit and then the others gives the number of all digits. */
  lemma FirstDigit(s: string, value: nat)
    requires s != [] && AllDigits(s)
    ensures AllDigits(s[1..])
    ensures var next := value * 10 + Digit(s[0]);
            next * Pow10(|s| - 1) + Number(s[1..]) == value * Pow10(|s|) + Number(s) &&
              next <= value * Pow10(|s|) + Number(s)
  {
    hide Number;
    var next := value * 10 + Digit(s[0]);
    NumberFirst(s);
    Associate(value, 10, Pow10(|s| - 1));
    Distributes(value * 10, Digit(s[0]), Pow10(|s| - 1));
    AtMost(next, Pow10(|s| - 1));
  }

  lemma AppendDigit(value: int, k: nat, num: int, digit: int)
    ensures (value * Pow10(k) + num) * 10 + digit == value * Pow10(k + 1) + (num * 10 + digit)
  {
    Associate(value, Pow10(k), 10);
    Distributes(value * Pow10(k), num, 10);
  }

  /** The digits that complete the wanted decimals end the scan. */
  lemma ScanDecimals(s: string, rest: string, decimal: int, value: int64, decimals: nat)
    requires AllDigits(s) && s != [] && value >= 0 && IsInt64(value * Pow10(|s|) + Number(s)) &&
             decimals + |s| == decimal
    ensures Scan(s + rest, decimal, value, decimals, true) == Ok(Fixed(value * Pow10(|s|) + Number(s), decimal))
  {
    hide Scan, Pow10;
    var n := |s| - 1;
    var front, c := s[..n], s[n];
    assert Number(s) == Number(front) * 10 + Digit(c);
    AppendDigit(value, n, Number(front), Digit(c));
    var v := value * Pow10(n) + Number(front);
    assert s + rest == front + ([c] + rest);
    ScaledSign(value, Pow10(n));
    ScanDigits(front, [c] + rest, decimal, value, decimals, true);
    ScanDigit([c] + rest, decimal, v, decimals + n, true);
  }

  lemma SingleDigit(c: char)
    requires IsDigit(c)
    ensures Number([c]) == Digit(c) && Pow10(1) == 10
  {
    assert [c][..0] == "";
  }

  lemma AtMost(x: nat, m: nat)
    requires m >= 1
    ensures x <= x * m
  {
    MulMono(1, m, x);
    assert m * x == x * m;
  }

  lemma Distributes(a: int, b: int, m: int)
    ensures (a + b) * m == a * m + b * m
  {
  }

  lemma NumberFirst(s: string)
    requires s != [] && AllDigits(s)
    ensures AllDigits(s[1..]) && Number(s) == Digit(s[0]) * Pow10(|s| - 1) + Number(s[1..])
  {
    hide Number, Pow10;
    assert s == [s[0]] + s[1..];
    SingleDigit(s[0]);
    NumberAppend([s[0]], s[1..]);
  }

  // ---------------------------------------------------------------- printing

  /** The digits of v, at least n of them. */
  function Digits(v: nat, n: nat): (s: string)
    ensures AllDigits(s) && |s| >= n
    decreases v + n
  {
    if v == 0 && n == 0 then "" else Digits(v / 10, if n > 0 then n - 1 else 0) + [DigitOf(v % 10)]
  }

  lemma {:induction false} DigitsNumber(v: nat, n: nat)
    ensures Number(Digits(v, n)) == v
    decreases v + n
  {
    if v != 0 || n != 0 {
      var s := Digits(v / 10, if n > 0 then n - 1 else 0);
      DigitsNumber(v / 10, if n > 0 then n - 1 else 0);
      assert Digits(v, n)[..|s|] == s;
    }
  }

  /** Digits with a dot before the last d of them. */
  function Dotted(s: string, d: nat): string
    requires |s| >= d
  {
    if d == 0 then s else s[..|s| - d] + "." + s[|s| - d..]
  }

  function StripZeros(s: string): (r: string)
    ensures |r| <= |s| && s[..|r|] == r && (r == [] || r[|r| - 1] != '0')
    ensures forall i :: |r| <= i < |s| ==> s[i] == '0'
  {
    if s != [] && s[|s| - 1] == '0' then
      var r := StripZeros(s[..|s| - 1]);
      assert s[..|r|] == s[..|s| - 1][..|r|];
      r
    else s
  }

  function Trim(s: string): string {
    var r := StripZeros(s);
    if r != [] && r[|r| - 1] == '.' then r[..|r| - 1] else r
  }

  function ToStringWithDecimal(f: Fixed): string
    requires f.decimal >= 0
    decreases if f.value < 0 then 2 else 0
  {
    if f.value < 0 then
      NegExact(f);
      match Neg(f)
      case None => ""
      case Some(g) => "-" + ToString(g)
    else Dotted(Digits(f.value, f.decimal + 1), f.decimal)
  }

  function ToString(f: Fixed): string
    requires f.decimal >= 0
    decreases if f.value < 0 then 3 else 1
  {
    var s := ToStringWithDecimal(f);
    if s == "" || f.decimal == 0 then s else Trim(s)
  }

  ghost predicate Mirrors(str: string, s: string) {
    |str| == |s| && forall i :: 0 <= i < |s| ==> str[i] == s[|s| - 1 - i]
  }

  /** The first loop of ToStringWithDecimal: digits, the least significant one first. */
  method LowDigits(value: nat, decimal: nat) returns (str: string)
    ensures Mirrors(str, Digits(value, decimal + 1))
  {
    var val := value;
    str := "";
    ghost var done: string := "";
    while val > 0 || |str| <= decimal
      invariant Mirrors(str, done)
      invariant Digits(val, if |str| <= decimal then decimal + 1 - |str| else 0) + done == Digits(value, decimal + 1)
      decreases val, decimal + 1 - |str|
    {
      ghost var n := if |str| <= decimal then decimal + 1 - |str| else 0;
      assert Digits(val, n) + done == Digits(val / 10, if n > 0 then n - 1 else 0) + ([DigitOf(val % 10)] + done);
      done := [DigitOf(val % 10)] + done;
      str := str + [DigitOf(val % 10)];
      val := val / 10;
    }
    assert "" + done == done;
  }

  /** The second loop: the most significant digit first, with the dot. */
  method Arrange(str: string, decimal: nat, ghost digits: string) returns (s: string)
    requires Mirrors(str, digits) && |digits| >= decimal
    ensures s == Dotted(digits, decimal)
  {
    s := "";
    ghost var n := |digits|;
    for i := |str| downto 0
      invariant i >= decimal ==> s == digits[..n - i]
      invariant i < decimal ==> s == digits[..n - decimal] + "." + digits[n - decimal..n - i]
    {
      assert str[i] == digits[n - 1 - i];
      if i + 1 == decimal {
        s := s + ".";
        assert digits[n - decimal..n - i] == [str[i]];
      } else if i < decimal {
        assert digits[n - decimal..n - i] == digits[n - decimal..n - i - 1] + [str[i]];
      }
      s := s + [str[i]];
    }
  }

  /** ToStringWithDecimal for a number that is not negative. */
  method PrintPositive(f: Fixed) returns (s: string)
    requires f.decimal >= 0 && f.value >= 0
    ensures s == ToStringWithDecimal(f)
  {
    var str := LowDigits(f.value, f.decimal);
    s := Arrange(str, f.decimal, Digits(f.value, f.decimal + 1));
  }

  method PrintWithDecimal(f: Fixed) returns (s: string)
    requires f.decimal >= 0
    ensures s == ToStringWithDecimal(f)
    decreases if f.value < 0 then 2 else 0
  {
    if f.value < 0 {
      NegExact(f);
      var g := Neg(f);
      if g.None? {
        return "";
      }
      s := Print(g.value);
      s := "-" + s;
    } else {
      s := PrintPositive(f);
    }
  }

  method Print(f: Fixed) returns (s: string)
    requires f.decimal >= 0
    ensures s == ToString(f)
    decreases if f.value < 0 then 3 else 1
  {
    s := PrintWithDecimal(f);
    if s == "" || f.decimal == 0 {
      return;
    }
    ghost var all := s;
    while s != "" && s[|s| - 1] == '0'
      invariant StripZeros(s) == StripZeros(all)
      decreases |s|
    {
      s := s[..|s| - 1];
    }
    if s != "" && s[|s| - 1] == '.' {
      s := s[..|s| - 1];
    }
  }

  // ---------------------------------------------------------------- the round trip

  /** The whole part and the decimals of a printed number. */
  lemma Parts(v: nat, d: nat) returns (whole: string, frac: string)
    ensures AllDigits(whole) && AllDigits(frac) && whole != "" && |frac| == d
    ensures Digits(v, d + 1) == whole + frac && v == Number(whole) * Pow10(d) + Number(frac)
    ensures Dotted(Digits(v, d + 1), d) == if d == 0 then whole else whole + "." + frac
  {
    var s := Digits(v, d + 1);
    whole, frac := s[..|s| - d], s[|s| - d..];
    assert s == whole + frac;
    DigitsNumber(v, d + 1);
    NumberAppend(whole, frac);
  }

  lemma {:induction false} NumberOfZeros(s: string)
    requires forall i :: 0 <= i < |s| ==> s[i] == '0'
    ensures AllDigits(s) && Number(s) == 0
  {
    if s != [] {
      NumberOfZeros(s[..|s| - 1]);
    }
  }

  lemma StrippedNumber(s: string)
    requires AllDigits(s)
    ensures var r := StripZeros(s); AllDigits(r) && Number(s) == Number(r) * Pow10(|s| - |r|)
  {
    var r := StripZeros(s);
    assert s == r + s[|r|..];
    NumberOfZeros(s[|r|..]);
    NumberAppend(r, s[|r|..]);
  }

  lemma LastDigit(s: string)
    requires AllDigits(s) && s != ""
    ensures Number(s) % 10 == Digit(s[|s| - 1])
  {
  }

  lemma GrowsByTens(n: nat, k: nat)
    requires n > 0 && k > 0
    ensures n < n * Pow10(k)
  {
    AtMost(n, Pow10(k - 1));
    Associate(n, Pow10(k - 1), 10);
  }

  /** Stripping changes digits exactly if the last one is 0, that is, if 10 divides the number. */
  lemma StripsTens(s: string)
    requires AllDigits(s) && s != "" && Number(s) > 0
    ensures var r := StripZeros(s);
            && AllDigits(r) && r != "" && Number(r) <= Number(s)
            && (Number(s) % 10 == 0 <==> Number(r) < Number(s)) && (Number(s) % 10 != 0 ==> r == s)
  {
    hide Number;
    LastDigit(s);
    StrippedNumber(s);
    var r := StripZeros(s);
    ScaledSign(Number(r), Pow10(|s| - |r|));
    if |r| < |s| {
      GrowsByTens(Number(r), |s| - |r|);
    } else {
      assert r == s[..|s|] == s;
    }
    EmptyNumber();
  }

  lemma EmptyNumber()
    ensures Number("") == 0
  {
  }

  /** Trailing zeros after the dot go, and so does the dot if nothing is left after it. */
  lemma TrimDotted(whole: string, frac: string)
    requires AllDigits(whole) && AllDigits(frac)
    ensures Trim(whole + "." + frac) == if StripZeros(frac) == "" then whole else whole + "." + StripZeros(frac)
  {
    var s := whole + "." + frac;
    StripAfter(whole + ".", frac);
    var r := StripZeros(s);
    if StripZeros(frac) == "" {
      assert whole + "." + "" == whole + ".";
      assert (whole + ".")[..|whole|] == whole;
    } else {
      assert r[|r| - 1] == StripZeros(frac)[|StripZeros(frac)| - 1];
      assert IsDigit(frac[|StripZeros(frac)| - 1]);
    }
  }

  lemma {:induction false} StripAfter(a: string, b: string)
    requires a != "" && a[|a| - 1] != '0'
    ensures StripZeros(a + b) == a + StripZeros(b)
  {
    if b == "" {
      assert a + b == a;
    } else {
      assert (a + b)[..|a + b| - 1] == a + b[..|b| - 1];
      assert (a + b)[|a + b| - 1] == b[|b| - 1];
      StripAfter(a, b[..|b| - 1]);
    }
  }

  lemma ScanWhole(whole: string, rest: string, decimal: int)
    requires AllDigits(whole) && IsInt64(Number(whole))
    ensures Scan(whole + rest, decimal, 0, 0, false) == Scan(rest, decimal, Number(whole), 0, false)
  {
    ScanDigits(whole, rest, decimal, 0, 0, false);
  }

  /** A whole number is parsed and rescaled. */
  lemma ParseWhole(whole: string, d: nat)
    requires AllDigits(whole) && whole != "" && IsInt64(Number(whole) * Pow10(d))
    ensures NewFixed(whole, d) == Ok(Fixed(Number(whole) * Pow10(d), d))
  {
    AtMost(Number(whole), Pow10(d));
    assert whole + "" == whole;
    ScanWhole(whole, "", d);
    ChangeDecimalExact(Fixed(Number(whole), 0), d);
    assert IsDigit(whole[0]);
  }

  lemma ScanDot(rest: string, decimal: int, value: int64)
    ensures Scan("." + rest, decimal, value, 0, false) == Scan(rest, decimal, value, 0, true)
  {
    assert ("." + rest)[1..] == rest;
  }

  /** A number with decimals is parsed, and missing decimals are filled up. */
  lemma ParseDotted(whole: string, frac: string, d: nat)
    requires AllDigits(whole) && whole != "" && AllDigits(frac) && 0 < |frac| <= d
    requires IsInt64((Number(whole) * Pow10(|frac|) + Number(frac)) * Pow10(d - |frac|))
    ensures NewFixed(whole + "." + frac, d) ==
            Ok(Fixed((Number(whole) * Pow10(|frac|) + Number(frac)) * Pow10(d - |frac|), d))
  {
    hide Scan;
    var v := Number(whole) * Pow10(|frac|) + Number(frac);
    AtMost(v, Pow10(d - |frac|));
    AtMost(Number(whole), Pow10(|frac|));
    var s := whole + "." + frac;
    assert s == whole + ("." + frac);
    ScanWhole(whole, "." + frac, d);
    ScanDot(frac, d, Number(whole));
    assert frac + "" == frac;
    if |frac| == d {
      ScanDecimals(frac, "", d, Number(whole), 0);
      assert Pow10(0) == 1;
    } else {
      ScanDigits(frac, "", d, Number(whole), 0, true);
      ScanEnd(d, v, |frac|);
    }
    ChangeDecimalExact(Fixed(v, |frac|), d);
    assert IsDigit(whole[0]) && s[0] == whole[0];
  }

  lemma ScanEnd(decimal: int, value: int64, decimals: nat)
    ensures Scan("", decimal, value, decimals, true) == Ok(Fixed(value, decimals))
  {
  }

  /** The printed form of a number that is not negative: its whole part, and the decimals r that are left. */
  lemma PrintedPositive(f: Fixed) returns (whole: string, r: string)
    requires f.decimal >= 0 && f.value >= 0
    ensures AllDigits(whole) && AllDigits(r) && whole != "" && |r| <= f.decimal && (r == "" || r[|r| - 1] != '0')
    ensures ToString(f) == if r == "" then whole else whole + "." + r
    ensures f.value == (Number(whole) * Pow10(|r|) + Number(r)) * Pow10(f.decimal - |r|)
  {
    hide Number, Digits, Dotted, ToString, ToStringWithDecimal, Trim, StripZeros, Pow10;
    var d := f.decimal;
    var frac;
    whole, frac := Parts(f.value, d);
    PrintsTrimmed(f, whole, frac);
    TrimDotted(whole, frac);
    StrippedNumber(frac);
    r := StripZeros(frac);
    FillUp(Number(whole), Number(r), |r|, d);
  }

  lemma PrintsTrimmed(f: Fixed, whole: string, frac: string)
    requires f.decimal >= 0 && f.value >= 0 && whole != "" && |frac| == f.decimal
    requires Dotted(Digits(f.value, f.decimal + 1), f.decimal) == if f.decimal == 0 then whole else whole + "." + frac
    ensures ToString(f) == if f.decimal == 0 then whole else Trim(whole + "." + frac)
  {
    hide Digits, Dotted, Trim;
  }

  lemma FillUp(w: int, x: int, k: nat, d: nat)
    requires k <= d
    ensures (w * Pow10(k) + x) * Pow10(d - k) == w * Pow10(d) + x * Pow10(d - k)
  {
    Pow10Add(k, d - k);
    Associate(w, Pow10(k), Pow10(d - k));
    Distributes(w * Pow10(k), x, Pow10(d - k));
  }

  lemma ParsePrinted(whole: string, r: string, d: nat)
    requires AllDigits(whole) && AllDigits(r) && whole != "" && |r| <= d
    requires IsInt64((Number(whole) * Pow10(|r|) + Number(r)) * Pow10(d - |r|))
    ensures NewFixed(if r == "" then whole else whole + "." + r, d) ==
            Ok(Fixed((Number(whole) * Pow10(|r|) + Number(r)) * Pow10(d - |r|), d))
  {
    hide NewFixed;
    if r == "" {
      EmptyNumber();
      assert (Number(whole) * Pow10(0) + 0) * Pow10(d) == Number(whole) * Pow10(d);
      ParseWhole(whole, d);
    } else {
      ParseDotted(whole, r, d);
    }
  }

  /** Parsing undoes printing of every number that is not negative. */
  lemma PositiveRoundTrip(f: Fixed)
    requires f.decimal >= 0 && f.value >= 0
    ensures NewFixed(ToString(f), f.decimal) == Ok(f)
  {
    hide Number, NewFixed, ToString;
    var whole, r := PrintedPositive(f);
    ParsePrinted(whole, r, f.decimal);
  }

  // ---------------------------------------------------------------- negative numbers

  lemma TrimNegativeWhole(whole: string)
    requires AllDigits(whole) && whole != "" && Number(whole) > 0
    ensures Trim("-" + whole) == "-" + StripZeros(whole)
  {
    hide Number;
    StripAfter("-", whole);
    StripsTens(whole);
    var r := StripZeros(whole);
    assert ("-" + r)[|r|] == r[|r| - 1] && IsDigit(r[|r| - 1]);
  }

  lemma TrimNegativeDotted(whole: string, r: string)
    requires AllDigits(r) && r != "" && r[|r| - 1] != '0'
    ensures Trim("-" + (whole + "." + r)) == "-" + (whole + "." + r)
  {
    var s := "-" + (whole + "." + r);
    assert s[|s| - 1] == r[|r| - 1] && IsDigit(r[|r| - 1]);
  }

  /** Trimming is done twice on a negative number: the second time it meets a whole part without a dot. */
  lemma PrintedNegative(f: Fixed) returns (whole: string, r: string)
    requires f.decimal > 0 && MIN_INT64 < f.value < 0
    ensures AllDigits(whole) && AllDigits(r) && whole != "" && |r| <= f.decimal && (r == "" ==> Number(whole) > 0)
    ensures (r == "" || r[|r| - 1] != '0')
    ensures ToString(f) == if r == "" then "-" + StripZeros(whole) else "-" + (whole + "." + r)
    ensures -f.value as int == (Number(whole) * Pow10(|r|) + Number(r)) * Pow10(f.decimal - |r|)
  {
    hide Number, StripZeros, Trim, ToString;
    var g := Fixed(-f.value, f.decimal);
    whole, r := PrintedPositive(g);
    PrintsNegated(f);
    if r == "" {
      EmptyNumber();
      WholeIsPositive(Number(whole), Number(r), f.decimal, g.value);
      TrimNegativeWhole(whole);
    } else {
      TrimNegativeDotted(whole, r);
    }
  }

  lemma PrintsNegated(f: Fixed)
    requires f.decimal > 0 && MIN_INT64 < f.value < 0
    ensures ToString(f) == Trim("-" + ToString(Fixed(-f.value, f.decimal)))
  {
    NegExact(f);
  }

  lemma WholeIsPositive(w: nat, x: nat, d: nat, v: int)
    requires v > 0 && v == (w * Pow10(0) + x) * Pow10(d) && x == 0
    ensures w > 0
  {
    ScaledSign(w, Pow10(d));
  }

  lemma NegatedParse(s: string, d: int, v: int64)
    requires s != "" && NewFixed(s, d) == Ok(Fixed(v, d)) && v > MIN_INT64
    ensures NewFixed("-" + s, d) == Ok(Fixed(-v, d))
  {
    NegExact(Fixed(v, d));
    assert ("-" + s)[1..] == s;
  }

  // ---------------------------------------------------------------- divisibility by powers of ten

  lemma TenDivides(x: nat, k: nat)
    ensures x * Pow10(k) % Pow10(k + 1) == 0 <==> x % 10 == 0
  {
    var q, s, p := x / 10, x % 10, Pow10(k);
    Distributes(q * 10, s, p);
    Associate(q, 10, p);
    MulMono(s, 9, p);
    ScaledSign(s, p);
    UniqueQuotient(x * p, 10 * p, q, s * p);
  }

  lemma DividesLess(m: nat, a: nat, b: nat)
    requires m % Pow10(a + b) == 0
    ensures m % Pow10(a) == 0
  {
    var q := m / Pow10(a + b);
    DivMod(m, Pow10(a + b));
    Pow10Add(b, a);
    Associate(q, Pow10(b), Pow10(a));
    ScaledSign(q, Pow10(b));
    UniqueQuotient(m, Pow10(a), q * Pow10(b), 0);
  }

  // ---------------------------------------------------------------- the exact condition

  /** A negative number with decimals whose whole part ends in 0 and whose decimals are all 0. */
  ghost predicate LosesZeros(f: Fixed)
    requires f.decimal >= 0
  {
    f.value < 0 && f.decimal > 0 && Abs(f.value) % Pow10(f.decimal + 1) == 0
  }

  lemma NegativeDotted(f: Fixed, whole: string, r: string)
    requires f.decimal > 0 && MIN_INT64 < f.value < 0
    requires AllDigits(whole) && AllDigits(r) && whole != "" && 0 < |r| <= f.decimal && r[|r| - 1] != '0'
    requires Abs(f.value) == (Number(whole) * Pow10(|r|) + Number(r)) * Pow10(f.decimal - |r|)
    ensures NewFixed("-" + (whole + "." + r), f.decimal) == Ok(f) && !LosesZeros(f)
  {
    hide NewFixed, Scan, Number;
    var d, e := f.decimal, f.decimal - |r|;
    ParsePrinted(whole, r, d);
    NegatedParse(whole + "." + r, d, -f.value);
    var x := Number(whole) * Pow10(|r|) + Number(r);
    EndsInDigit(Number(whole), r);
    TenDivides(x, e);
    if LosesZeros(f) {
      DividesLess(Abs(f.value), e + 1, |r|);
    }
  }

  lemma EndsInDigit(w: nat, r: string)
    requires AllDigits(r) && r != "" && r[|r| - 1] != '0'
    ensures (w * Pow10(|r|) + Number(r)) % 10 != 0
  {
    LastDigit(r);
    Associate(w, Pow10(|r| - 1), 10);
    TensAndRest(w * Pow10(|r| - 1), Number(r));
  }

  lemma TensAndRest(q: int, n: int)
    ensures (q * 10 + n) % 10 == n % 10
  {
  }

  lemma NegativeWhole(f: Fixed, whole: string)
    requires f.decimal > 0 && MIN_INT64 < f.value < 0 && AllDigits(whole) && whole != "" && Number(whole) > 0
    requires Abs(f.value) == Number(whole) * Pow10(f.decimal)
    ensures NewFixed("-" + StripZeros(whole), f.decimal) == Ok(f) <==> !LosesZeros(f)
  {
    hide NewFixed, Number;
    var d, s := f.decimal, StripZeros(whole);
    StripsTens(whole);
    TenDivides(Number(whole), d);
    MulMono(Number(s), Number(whole), Pow10(d));
    MulCancel(Number(s), Number(whole), Pow10(d));
    ParseWhole(s, d);
    NegatedParse(s, d, Number(s) * Pow10(d));
  }

  /**
   Parsing the printed form with the same decimals gives the number back exactly if it is not the
   smallest int64, which cannot be negated, and does not lose zeros of its whole part.
   */
  lemma RoundTripExact(f: Fixed)
    requires f.decimal >= 0
    ensures NewFixed(ToString(f), f.decimal) == Ok(f) <==> f.value != MIN_INT64 && !LosesZeros(f)
  {
    if f.value >= 0 {
      PositiveRoundTrip(f);
    } else if f.value == MIN_INT64 {
      NegExact(f);
    } else if f.decimal == 0 {
      NegExact(f);
      var g := Fixed(-f.value, 0);
      PositiveRoundTrip(g);
      var whole, r := PrintedPositive(g);
      NegatedParse(ToString(g), 0, -f.value);
    } else {
      NegativeRoundTrip(f);
    }
  }

  lemma NegativeRoundTrip(f: Fixed)
    requires f.decimal > 0 && MIN_INT64 < f.value < 0
    ensures NewFixed(ToString(f), f.decimal) == Ok(f) <==> !LosesZeros(f)
  {
    hide Number, NewFixed, ToString, LosesZeros, StripZeros;
    var whole, r := PrintedNegative(f);
    if r == "" {
      EmptyNumber();
      assert (Number(whole) * Pow10(0) + 0) * Pow10(f.decimal) == Number(whole) * Pow10(f.decimal);
      NegativeWhole(f, whole);
    } else {
      NegativeDotted(f, whole, r);
    }
  }

  /** For example, -100.0 prints as "-1". */
  lemma MinusHundredLosesZeros()
    ensures var f := Fixed(-1000, 1); LosesZeros(f) && NewFixed(ToString(f), 1) != Ok(f)
  {
    hide NewFixed, ToString;
    var f := Fixed(-1000, 1);
    assert Pow10(1) == 10 && Pow10(2) == 100;
    assert LosesZeros(f);
    RoundTripExact(f);
  }
}
