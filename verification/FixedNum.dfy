/** Fixed-point numbers on int64: overflow tests, rescaling, exact comparison, sums and products. */
module FixedNum {
  import opened Arithmetic
  import opened GoInt
  import opened Options

  /** The number value / 10^decimal. */
  datatype Fixed = Fixed(value: int64, decimal: int)

  function Pow10(k: nat): (r: nat)
    ensures r >= 1
  {
    if k == 0 then 1 else 10 * Pow10(k - 1)
  }

  // ---------------------------------------------------------------- arithmetic of int64

  /** x / a on int64; the smallest number divided by -1 wraps to itself. */
  function Quotient(x: int64, a: int64): int64
    requires a != 0
  {
    Wrap64(TruncDiv(x, a))
  }

  predicate MultiplyOverflow(a: int64, b: int64) {
    a != 0 && Quotient(Wrap64(a * b), a) != b
  }

  lemma MulSigns(a: int, b: int)
    ensures Abs(a) * Abs(b) == Abs(a * b)
    ensures a != 0 && b != 0 ==> (a * b > 0 <==> ((a > 0) == (b > 0)))
    ensures a * b == 0 <==> a == 0 || b == 0
  {
    if a > 0 && b > 0 {
    } else if a > 0 && b < 0 {
      assert a * b == -(a * -b);
    } else if a < 0 && b > 0 {
      assert a * b == -(-a * b);
    } else if a < 0 && b < 0 {
      assert a * b == -a * -b;
    }
  }

  lemma DivOfProduct(q: nat, m: nat)
    requires m > 0
    ensures q * m / m == q
  {
    var d, r := q * m / m, q * m % m;
    assert q * m == d * m + r;
    if d < q {
      MulMono(d + 1, q, m);
    } else if d > q {
      MulMono(q + 1, d, m);
    }
  }

  lemma TruncDivOfProduct(a: int, b: int)
    requires a != 0
    ensures TruncDiv(a * b, a) == b
  {
    MulSigns(a, b);
    DivOfProduct(Abs(b), Abs(a));
    assert Abs(b) * Abs(a) == Abs(a * b);
  }

  lemma DivMod(x: nat, m: nat)
    requires m > 0
    ensures x == x / m * m + x % m && x % m < m
  {
  }

  lemma NegMul(q: int, a: int)
    ensures -q * a == -(q * a) && q * -a == -(q * a)
  {
  }

  /** Truncating division leaves a remainder smaller than the divisor. */
  lemma TruncDivRemainder(x: int, a: int)
    requires a != 0
    ensures Abs(x - TruncDiv(x, a) * a) < Abs(a)
  {
    var q, s := Abs(x) / Abs(a), TruncDiv(x, a);
    DivMod(Abs(x), Abs(a));
    NegMul(q, a);
    SignedProduct(x, a, q, s);
  }

  lemma SignedProduct(x: int, a: int, q: int, s: int)
    requires a != 0 && s == if (x >= 0) == (a > 0) || x == 0 then q else -q
    requires x == 0 ==> q == 0
    ensures s * a == if x >= 0 then q * Abs(a) else -(q * Abs(a))
  {
    NegMul(q, a);
  }

  /** multiplyOverflow tells exactly whether the product leaves int64, with one exception. */
  lemma MultiplyOverflowExact(a: int64, b: int64)
    ensures MultiplyOverflow(a, b) <==> !IsInt64(a * b) && !(a == -1 && b == MIN_INT64)
  {
    if a != 0 {
      var x := Wrap64(a * b);
      if IsInt64(a * b) {
        TruncDivOfProduct(a, b);
      } else if a == -1 {
        NegMul(1, b);
      } else {
        OverflowIsSeen(a, b, x);
      }
    }
  }

  lemma OverflowIsSeen(a: int64, b: int64, x: int64)
    requires a != 0 && a != -1 && x == Wrap64(a * b) && !IsInt64(a * b)
    ensures Quotient(x, a) != b
  {
    TruncDivRemainder(x, a);
    QuotientFits(x, a);
    FarApart(a * b, x);
    assert b * a == a * b;
  }

  lemma FarApart(p: int, x: int64)
    requires x == Wrap64(p) && x != p
    ensures Abs(x - p) >= TWO_64
  {
  }

  lemma QuotientFits(x: int64, a: int64)
    requires a != 0 && a != -1
    ensures IsInt64(TruncDiv(x, a))
  {
    if a == 1 {
      DivOfProduct(Abs(x), 1);
    } else {
      Halved(Abs(x), Abs(a));
    }
  }

  lemma Halved(x: nat, m: nat)
    requires m >= 2
    ensures 2 * (x / m) <= x
  {
    DivMod(x, m);
    MulMono(2, m, x / m);
    assert x / m * m == m * (x / m);
  }

  // ---------------------------------------------------------------- ChangeDecimal and ShrinkDecimal

  /** The value with k more decimals, if it fits. */
  function ScaleUp(value: int64, k: nat): Option<int64>
    decreases k
  {
    if k == 0 then Some(value)
    else if MultiplyOverflow(value, 10) then None
    else ScaleUp(Wrap64(value * 10), k - 1)
  }

  lemma {:induction false} ScaleUpExact(value: int64, k: nat)
    ensures ScaleUp(value, k) == if IsInt64(value * Pow10(k)) then Some(value * Pow10(k)) else None
    decreases k
  {
    hide MultiplyOverflow, Wrap64;
    MultiplyOverflowExact(value, 10);
    if k > 0 {
      Associate(value, 10, Pow10(k - 1));
      if IsInt64(value * 10) {
        ScaleUpExact(value * 10, k - 1);
      } else {
        StaysOut(value * 10, Pow10(k - 1));
      }
    }
  }

  lemma Associate(a: int, b: int, c: int)
    ensures a * (b * c) == a * b * c
  {
  }

  lemma StaysOut(x: int, m: nat)
    requires !IsInt64(x) && m >= 1
    ensures !IsInt64(x * m)
  {
    if x > 0 {
      MulMono(1, m, x);
      assert m * x == x * m;
    } else {
      MulMono(1, m, -x);
      NegMul(x, m);
      assert m * -x == -x * m;
    }
  }

  function ScaleDown(value: int64, k: nat): int64
    decreases k
  {
    if k == 0 then value else ScaleDown(TruncDiv10(value), k - 1)
  }

  function TruncDiv10(value: int64): int64 {
    TruncDiv(value, 10)
  }

  /** Repeated truncation is one truncation. */
  lemma {:induction false} ScaleDownExact(value: int64, k: nat)
    ensures ScaleDown(value, k) == TruncDiv(value, Pow10(k))
    decreases k
  {
    hide TruncDiv;
    if k > 0 {
      ScaleDownExact(TruncDiv10(value), k - 1);
      TruncDivTwice(value, 10, Pow10(k - 1));
    } else {
      TruncDivPositive(value, 1);
    }
  }

  lemma TruncDivPositive(x: int, m: nat)
    requires m > 0
    ensures TruncDiv(x, m) == if x >= 0 then x / m else -(-x / m)
    ensures TruncDiv(x, 1) == x
  {
  }

  lemma TruncDivTwice(x: int, a: nat, b: nat)
    requires a > 0 && b > 0
    ensures a * b > 0 && TruncDiv(TruncDiv(x, a), b) == TruncDiv(x, a * b)
  {
    hide TruncDiv;
    DivDiv(Abs(x), a, b);
    TruncDivPositive(x, a);
    TruncDivPositive(TruncDiv(x, a), b);
    TruncDivPositive(x, a * b);
    DivSign(Abs(x), a);
  }

  lemma DivSign(x: nat, m: nat)
    requires m > 0
    ensures x / m >= 0
  {
  }

  lemma DivDiv(x: nat, a: nat, b: nat)
    requires a > 0 && b > 0
    ensures a * b > 0 && x / a / b == x / (a * b)
  {
    MulSigns(a, b);
    var q, r := x / a, x % a;
    var p, s := q / b, q % b;
    DivMod(x, a);
    DivMod(q, b);
    Nested(p, b, s, a);
    MulMono(s, b - 1, a);
    Nested(1, b, -1, a);
    UniqueQuotient(x, a * b, p, s * a + r);
  }

  lemma Nested(p: int, b: int, s: int, a: int)
    ensures (p * b + s) * a == p * (a * b) + s * a
  {
    Associate(p, b, a);
    assert b * a == a * b;
  }

  lemma UniqueQuotient(x: nat, m: nat, q: nat, r: nat)
    requires m > 0 && x == q * m + r && r < m
    ensures x / m == q && x % m == r
  {
    var d, s := x / m, x % m;
    assert x == d * m + s;
    if d < q {
      MulMono(d + 1, q, m);
    } else if d > q {
      MulMono(q + 1, d, m);
    }
  }

  /** ChangeDecimal, with None for an overflow. */
  function ChangeDecimal(f: Fixed, target: int): Option<Fixed> {
    if target >= f.decimal then
      match ScaleUp(f.value, target - f.decimal)
      case None => None
      case Some(v) => Some(Fixed(v, target))
    else Some(Fixed(ScaleDown(f.value, f.decimal - target), target))
  }

  /** The loops of ChangeDecimal. */
  method ChangeDecimalByLoops(f: Fixed, target: int) returns (r: Option<Fixed>)
    ensures r == ChangeDecimal(f, target)
  {
    var value: int64, decimal := f.value, f.decimal;
    while target > decimal
      invariant target >= f.decimal ==>
                decimal <= target && ScaleUp(value, target - decimal) == ScaleUp(f.value, target - f.decimal)
      invariant target < f.decimal ==> decimal == f.decimal && value == f.value
    {
      decimal := decimal + 1;
      if MultiplyOverflow(value, 10) {
        return None;
      }
      value := Wrap64(value * 10);
    }
    while target < decimal
      invariant target < f.decimal ==>
                decimal >= target && ScaleDown(value, decimal - target) == ScaleDown(f.value, f.decimal - target)
      invariant target >= f.decimal ==> decimal == target && ScaleUp(f.value, target - f.decimal) == Some(value)
    {
      decimal := decimal - 1;
      value := TruncDiv10(value);
    }
    r := Some(Fixed(value, decimal));
  }

  /** Rescaling is exact or reports an overflow; towards fewer decimals it truncates once. */
  lemma ChangeDecimalExact(f: Fixed, target: int)
    ensures target >= f.decimal ==>
              var v := f.value * Pow10(target - f.decimal);
              ChangeDecimal(f, target) == if IsInt64(v) then Some(Fixed(v, target)) else None
    ensures target < f.decimal ==>
              var v := TruncDiv(f.value, Pow10(f.decimal - target));
              IsInt64(v) && ChangeDecimal(f, target) == Some(Fixed(v, target))
  {
    if target >= f.decimal {
      ScaleUpExact(f.value, target - f.decimal);
    } else {
      ScaleDownExact(f.value, f.decimal - target);
    }
  }

  // ---------------------------------------------------------------- equality of the numbers

  lemma {:induction false} Pow10Add(a: nat, b: nat)
    ensures Pow10(a + b) == Pow10(a) * Pow10(b)
  {
    if a > 0 {
      Pow10Add(a - 1, b);
      Associate(10, Pow10(a - 1), Pow10(b));
    }
  }

  lemma MulCancel(a: int, b: int, m: nat)
    requires m > 0
    ensures a < b <==> a * m < b * m
    ensures a == b <==> a * m == b * m
  {
    if a < b {
      MulMono(a + 1, b, m);
    } else if b < a {
      MulMono(b + 1, a, m);
    }
  }

  /** Compares f and g as rational numbers, by cross-multiplication. */
  ghost predicate Below(f: Fixed, g: Fixed)
    requires f.decimal >= 0 && g.decimal >= 0
  {
    f.value * Pow10(g.decimal) < g.value * Pow10(f.decimal)
  }

  ghost predicate SameNumber(f: Fixed, g: Fixed)
    requires f.decimal >= 0 && g.decimal >= 0
  {
    f.value * Pow10(g.decimal) == g.value * Pow10(f.decimal)
  }

  /** With k more decimals on the left, the comparison needs to scale only the right side, and conversely. */
  lemma CrossMultiply(x: int, k: nat, d: nat, y: int)
    ensures x * Pow10(k) < y <==> x * Pow10(d + k) < y * Pow10(d)
    ensures x * Pow10(k) > y <==> x * Pow10(d + k) > y * Pow10(d)
    ensures x * Pow10(k) == y <==> x * Pow10(d + k) == y * Pow10(d)
  {
    Pow10Add(k, d);
    Associate(x, Pow10(k), Pow10(d));
    MulCancel(x * Pow10(k), y, Pow10(d));
    MulCancel(y, x * Pow10(k), Pow10(d));
  }

  /** The number is the same exactly if no digit other than zero is cut off. */
  lemma ChangeDecimalKeeps(f: Fixed, target: int)
    requires f.decimal >= 0 && target >= 0
    ensures var r := ChangeDecimal(f, target);
            r.Some? ==> r.value.decimal == target &&
                        (SameNumber(r.value, f) <==>
                         target >= f.decimal || Abs(f.value) % Pow10(f.decimal - target) == 0)
  {
    hide ChangeDecimal, TruncDiv;
    ChangeDecimalExact(f, target);
    if target >= f.decimal {
      var k := target - f.decimal;
      CrossMultiply(f.value, k, f.decimal, f.value * Pow10(k));
    } else {
      var k := f.decimal - target;
      CrossMultiply(TruncDiv(f.value, Pow10(k)), k, target, f.value);
      Divides(f.value, Pow10(k));
    }
  }

  lemma Divides(x: int, m: nat)
    requires m > 0
    ensures TruncDiv(x, m) * m == x <==> Abs(x) % m == 0
  {
    hide TruncDiv;
    TruncDivPositive(x, m);
    DivMod(Abs(x), m);
    NegMul(Abs(x) / m, m);
  }

  /** For example, 1.5 becomes 1. */
  lemma FewerDecimalsLose()
    ensures ChangeDecimal(Fixed(15, 1), 0) == Some(Fixed(1, 0)) && !SameNumber(Fixed(1, 0), Fixed(15, 1))
  {
    ChangeDecimalExact(Fixed(15, 1), 0);
    assert Pow10(1) == 10 && Pow10(0) == 1;
  }

  /** UnifyDecimal: the two values at the larger number of decimals. */
  function Unify(f: Fixed, g: Fixed): Option<(int64, int64)> {
    if f.decimal < g.decimal then
      match ChangeDecimal(f, g.decimal)
      case None => None
      case Some(a) => Some((a.value, g.value))
    else
      match ChangeDecimal(g, f.decimal)
      case None => None
      case Some(b) => Some((f.value, b.value))
  }

  predicate Equals(f: Fixed, g: Fixed) {
    var u := Unify(f, g);
    u.Some? && u.value.0 == u.value.1
  }

  predicate LessThan(f: Fixed, g: Fixed) {
    var u := Unify(f, g);
    if u.Some? then u.value.0 < u.value.1
    else if f.value < 0 then g.value >= 0 || f.decimal < g.decimal
    else if f.value == 0 then g.value > 0
    else g.value > 0 && f.decimal > g.decimal
  }

  lemma EqualsExact(f: Fixed, g: Fixed)
    requires f.decimal >= 0 && g.decimal >= 0
    ensures Equals(f, g) <==> SameNumber(f, g)
  {
    if f.decimal < g.decimal {
      ChangeDecimalExact(f, g.decimal);
      CrossMultiply(f.value, g.decimal - f.decimal, f.decimal, g.value);
    } else {
      ChangeDecimalExact(g, f.decimal);
      CrossMultiply(g.value, f.decimal - g.decimal, g.decimal, f.value);
    }
  }

  lemma ScaledSign(x: int, m: nat)
    requires m >= 1
    ensures x > 0 ==> x * m > 0
    ensures x < 0 ==> x * m < 0
    ensures x == 0 ==> x * m == 0
    ensures m == 1 ==> x * m == x
  {
    MulSigns(x, m);
  }

  /** LessThan is the order of the rational numbers, even where rescaling overflows. */
  lemma LessThanExact(f: Fixed, g: Fixed)
    requires f.decimal >= 0 && g.decimal >= 0
    ensures LessThan(f, g) <==> Below(f, g)
  {
    if f.decimal < g.decimal {
      var k := g.decimal - f.decimal;
      ChangeDecimalExact(f, g.decimal);
      CrossMultiply(f.value, k, f.decimal, g.value);
      ScaledSign(f.value, Pow10(k));
    } else {
      var k := f.decimal - g.decimal;
      ChangeDecimalExact(g, f.decimal);
      CrossMultiply(g.value, k, g.decimal, f.value);
      ScaledSign(g.value, Pow10(k));
      assert k == 0 ==> Pow10(k) == 1;
    }
  }

  /** Hence it is a strict weak order whose equivalence is Equals. */
  lemma LessThanIsWeakOrder(f: Fixed, g: Fixed, h: Fixed)
    requires f.decimal >= 0 && g.decimal >= 0 && h.decimal >= 0
    ensures !LessThan(f, f)
    ensures LessThan(f, g) && LessThan(g, h) ==> LessThan(f, h)
    ensures !LessThan(f, g) && !LessThan(g, f) <==> Equals(f, g)
    ensures Equals(f, g) && Equals(g, h) ==> Equals(f, h)
    ensures Equals(f, g) && LessThan(g, h) ==> LessThan(f, h)
  {
    LessThanExact(f, f);
    LessThanExact(f, g);
    LessThanExact(g, f);
    LessThanExact(g, h);
    LessThanExact(f, h);
    EqualsExact(f, g);
    EqualsExact(g, h);
    EqualsExact(f, h);
    CrossTransitive(f, g, h);
  }

  lemma CrossTransitive(f: Fixed, g: Fixed, h: Fixed)
    requires f.decimal >= 0 && g.decimal >= 0 && h.decimal >= 0
    ensures Below(f, g) && Below(g, h) ==> Below(f, h)
    ensures SameNumber(f, g) && SameNumber(g, h) ==> SameNumber(f, h)
    ensures SameNumber(f, g) && Below(g, h) ==> Below(f, h)
  {
    var a, b, c := Pow10(f.decimal), Pow10(g.decimal), Pow10(h.decimal);
    MulCancel(f.value * b, g.value * a, c);
    MulCancel(g.value * c, h.value * b, a);
    MulCancel(f.value * c, h.value * a, b);
    Rotate(f.value, b, c);
    Rotate(g.value, a, c);
    Rotate(h.value, b, a);
  }

  lemma Rotate(x: int, b: int, c: int)
    ensures x * b * c == x * c * b
  {
    Associate(x, b, c);
    Associate(x, c, b);
    assert b * c == c * b;
  }

  // ---------------------------------------------------------------- the canonical form

  /** ShrinkDecimal */
  function Shrunk(f: Fixed): Fixed
    decreases if f.decimal > 0 then f.decimal else 0
  {
    if f.value % 10 == 0 && f.decimal > 0 then Shrunk(Fixed(TruncDiv10(f.value), f.decimal - 1)) else f
  }

  method ShrinkDecimal(f: Fixed) returns (r: Fixed)
    ensures r == Shrunk(f)
  {
    var value: int64, decimal := f.value, f.decimal;
    while TruncMod(value, 10) == 0 && decimal > 0
      invariant Shrunk(Fixed(value, decimal)) == Shrunk(f)
      decreases decimal
    {
      RemainderIsZero(value);
      value := TruncDiv10(value);
      decimal := decimal - 1;
    }
    RemainderIsZero(value);
    r := Fixed(value, decimal);
  }

  lemma RemainderIsZero(x: int)
    ensures TruncMod(x, 10) == 0 <==> x % 10 == 0
    ensures x % 10 == 0 ==> TruncDiv(x, 10) * 10 == x
  {
  }

  ghost predicate Canonical(f: Fixed) {
    f.decimal <= 0 || f.value % 10 != 0
  }

  /** The canonical form of a number stands for the same number. */
  lemma {:induction false} ShrunkIsSame(f: Fixed)
    requires f.decimal >= 0
    ensures 0 <= Shrunk(f).decimal <= f.decimal && Canonical(Shrunk(f)) && SameNumber(Shrunk(f), f)
    ensures f.value == Shrunk(f).value * Pow10(f.decimal - Shrunk(f).decimal)
    decreases f.decimal
  {
    if f.value % 10 == 0 && f.decimal > 0 {
      var g := Fixed(TruncDiv10(f.value), f.decimal - 1);
      RemainderIsZero(f.value);
      ShrunkIsSame(g);
      var s := Shrunk(f);
      Associate(s.value, Pow10(g.decimal - s.decimal), 10);
      Associate(f.value, 1, 1);
      Scaled(s, f);
    }
  }

  lemma Scaled(s: Fixed, f: Fixed)
    requires 0 <= s.decimal <= f.decimal && f.value == s.value * Pow10(f.decimal - s.decimal)
    ensures SameNumber(s, f)
  {
    CrossMultiply(s.value, f.decimal - s.decimal, s.decimal, f.value);
  }

  /** Equal numbers have the same canonical form. */
  lemma CanonicalIsUnique(f: Fixed, g: Fixed)
    requires f.decimal >= 0 && g.decimal >= 0
    ensures SameNumber(f, g) <==> Shrunk(f) == Shrunk(g)
  {
    ShrunkIsSame(f);
    ShrunkIsSame(g);
    var a, b := Shrunk(f), Shrunk(g);
    CrossTransitive(a, f, g);
    CrossTransitive(a, g, b);
    CrossTransitive(f, a, g);
    if SameNumber(f, g) {
      if a.decimal <= b.decimal {
        OneCanonical(a, b);
      } else {
        OneCanonical(b, a);
      }
    }
  }

  lemma NotCanonical(b: Fixed, y: int)
    requires b.decimal > 0 && b.value == y * 10
    ensures !Canonical(b)
  {
  }

  lemma OneCanonical(a: Fixed, b: Fixed)
    requires 0 <= a.decimal <= b.decimal && Canonical(b) && SameNumber(a, b)
    ensures a == b
  {
    var k := b.decimal - a.decimal;
    CrossMultiply(a.value, k, a.decimal, b.value);
    if k > 0 {
      Associate(a.value, 10, Pow10(k - 1));
      Rotate(a.value, 10, Pow10(k - 1));
      NotCanonical(b, a.value * Pow10(k - 1));
    }
  }

  // ---------------------------------------------------------------- Add and Multiply

  function Neg(f: Fixed): Option<Fixed> {
    if MultiplyOverflow(f.value, -1) then None else Some(Fixed(Wrap64(-f.value), f.decimal))
  }

  lemma NegExact(f: Fixed)
    ensures Neg(f) == if f.value == MIN_INT64 then None else Some(Fixed(-f.value, f.decimal))
  {
    MultiplyOverflowExact(f.value, -1);
    NegMul(1, f.value);
  }

  function Add(f: Fixed, g: Fixed): Option<Fixed> {
    match Unify(f, g)
    case None => None
    case Some((a, b)) =>
      var r := Wrap64(a + b);
      if a > 0 && b > 0 && r < 0 then None
      else if a < 0 && b < 0 && r > 0 then None
      else Some(Fixed(r, Larger(f.decimal, g.decimal)))
  }

  function Larger(a: int, b: int): int {
    if a < b then b else a
  }

  /** r is the sum of f and g, which all have the decimals of r or fewer. */
  ghost predicate IsSum(r: Fixed, f: Fixed, g: Fixed) {
    && f.decimal <= r.decimal && g.decimal <= r.decimal
    && r.value == f.value * Pow10(r.decimal - f.decimal) + g.value * Pow10(r.decimal - g.decimal)
  }

  /** The one pair of summands whose overflow goes unnoticed. */
  predicate BothSmallest(f: Fixed, g: Fixed) {
    f.value == g.value == MIN_INT64 && f.decimal == g.decimal
  }

  /** The smallest number is not a multiple of ten. */
  lemma SmallestIsUnscaled(value: int, k: nat)
    requires value * Pow10(k) == MIN_INT64
    ensures k == 0 && value == MIN_INT64
  {
    if k > 0 {
      Associate(value, 10, Pow10(k - 1));
      Rotate(value, 10, Pow10(k - 1));
      NotTens(value * Pow10(k - 1));
    }
  }

  lemma NotTens(x: int)
    ensures x * 10 != MIN_INT64
  {
  }

  /** A sum that Add returns is right exactly if the summands are not both the smallest number. */
  lemma AddExact(f: Fixed, g: Fixed)
    ensures Add(f, g).Some? ==> (IsSum(Add(f, g).value, f, g) <==> !BothSmallest(f, g))
    ensures Unify(f, g).Some? ==>
            (Add(f, g).None? <==> !IsInt64(Unify(f, g).value.0 + Unify(f, g).value.1) && !BothSmallest(f, g))
  {
    var u := Unify(f, g);
    UnifyExact(f, g);
    if u.Some? {
      WrappedSum(u.value.0, u.value.1);
      var d := Larger(f.decimal, g.decimal);
      if u.value == (MIN_INT64, MIN_INT64) {
        SmallestIsUnscaled(f.value, d - f.decimal);
        SmallestIsUnscaled(g.value, d - g.decimal);
      }
    }
  }

  /** For example, the smallest number added to itself gives zero. */
  lemma SmallestTwiceIsZero()
    ensures var f := Fixed(MIN_INT64, 0); Add(f, f) == Some(Fixed(0, 0)) && !IsSum(Fixed(0, 0), f, f)
  {
    var f := Fixed(MIN_INT64, 0);
    UnifyExact(f, f);
    assert Pow10(0) == 1;
  }

  lemma UnifyExact(f: Fixed, g: Fixed)
    ensures var d := Larger(f.decimal, g.decimal);
            var a, b := f.value * Pow10(d - f.decimal), g.value * Pow10(d - g.decimal);
            Unify(f, g) == if IsInt64(a) && IsInt64(b) then Some((a, b)) else None
  {
    if f.decimal < g.decimal {
      ChangeDecimalExact(f, g.decimal);
    } else {
      ChangeDecimalExact(g, f.decimal);
    }
  }

  lemma WrappedSum(a: int64, b: int64)
    ensures var r := Wrap64(a + b);
            && (IsInt64(a + b) <==> r == a + b)
            && (!IsInt64(a + b) && a > 0 ==> b > 0 && r < 0)
            && (!IsInt64(a + b) && a <= 0 ==> a < 0 && b < 0 && r >= 0 && (r == 0 <==> a == b == MIN_INT64))
  {
  }

  function Multiply(f: Fixed, g: Fixed): Option<Fixed> {
    var a, b := Shrunk(f), Shrunk(g);
    if MultiplyOverflow(a.value, b.value) then None
    else Some(Fixed(Wrap64(a.value * b.value), a.decimal + b.decimal))
  }

  ghost predicate IsProduct(r: Fixed, f: Fixed, g: Fixed)
    requires r.decimal >= 0 && f.decimal >= 0 && g.decimal >= 0
  {
    r.value * Pow10(f.decimal + g.decimal) == f.value * g.value * Pow10(r.decimal)
  }

  /** The factors, in canonical form, whose overflow goes unnoticed. */
  ghost predicate MinusOneTimesSmallest(f: Fixed, g: Fixed) {
    Shrunk(f).value == -1 && g.value == MIN_INT64
  }

  /** A product that Multiply returns is right exactly if it is not -1 times the smallest number, in this order. */
  lemma MultiplyExact(f: Fixed, g: Fixed)
    requires f.decimal >= 0 && g.decimal >= 0
    ensures Multiply(f, g).Some? ==> Multiply(f, g).value.decimal >= 0
    ensures Multiply(f, g).Some? ==> (IsProduct(Multiply(f, g).value, f, g) <==> !MinusOneTimesSmallest(f, g))
    ensures Multiply(f, g).None? <==> !IsInt64(Shrunk(f).value * Shrunk(g).value) && !MinusOneTimesSmallest(f, g)
  {
    var a, b := Shrunk(f), Shrunk(g);
    ShrunkIsSame(f);
    ShrunkIsSame(g);
    MultiplyOverflowExact(a.value, b.value);
    NegMul(1, b.value);
    SmallestIsCanonical(g);
    if Multiply(f, g).Some? {
      ProductOfShrunk(a, b, f, g, Multiply(f, g).value.value);
    }
  }

  lemma SmallestIsCanonical(g: Fixed)
    requires g.decimal >= 0
    ensures Shrunk(g).value == MIN_INT64 <==> g.value == MIN_INT64
  {
    hide Pow10, Shrunk;
    ShrunkIsSame(g);
    var k := g.decimal - Shrunk(g).decimal;
    if g.value == MIN_INT64 {
      SmallestIsUnscaled(Shrunk(g).value, k);
    }
    if Shrunk(g).value == MIN_INT64 {
      SmallestScaled(Pow10(k));
    }
  }

  lemma SmallestScaled(m: nat)
    requires m >= 1 && IsInt64(MIN_INT64 * m)
    ensures MIN_INT64 * m == MIN_INT64
  {
  }

  /** For example, -1 times the smallest number gives the smallest number. */
  lemma MinusOneTimesSmallestIsWrong()
    ensures !MultiplyOverflow(-1, MIN_INT64)
    ensures var f, g := Fixed(-1, 0), Fixed(MIN_INT64, 0); Multiply(f, g) == Some(g) && !IsProduct(g, f, g)
  {
    var f, g := Fixed(-1, 0), Fixed(MIN_INT64, 0);
    MultiplyOverflowExact(-1, MIN_INT64);
    assert Shrunk(f) == f && Shrunk(g) == g && Pow10(0) == 1;
  }

  lemma ProductOfShrunk(a: Fixed, b: Fixed, f: Fixed, g: Fixed, v: int64)
    requires 0 <= a.decimal <= f.decimal && 0 <= b.decimal <= g.decimal
    requires f.value == a.value * Pow10(f.decimal - a.decimal) && g.value == b.value * Pow10(g.decimal - b.decimal)
    ensures IsProduct(Fixed(v, a.decimal + b.decimal), f, g) <==> v == a.value * b.value
  {
    var k, l := f.decimal - a.decimal, g.decimal - b.decimal;
    Pow10Add(k, l);
    Interchange(a.value, Pow10(k), b.value, Pow10(l));
    assert f.value * g.value == a.value * b.value * Pow10(k + l);
    var d := a.decimal + b.decimal;
    Pow10Add(k + l, d);
    assert Pow10(f.decimal + g.decimal) == Pow10(k + l) * Pow10(d);
    Associate(v, Pow10(k + l), Pow10(d));
    MulCancel(v * Pow10(k + l), a.value * b.value * Pow10(k + l), Pow10(d));
    MulCancel(v, a.value * b.value, Pow10(k + l));
  }

  lemma Interchange(a: int, k: int, b: int, l: int)
    ensures a * k * (b * l) == a * b * (k * l)
  {
    Associate(a * k, b, l);
    Rotate(a, k, b);
    Associate(a * b, k, l);
  }
}
