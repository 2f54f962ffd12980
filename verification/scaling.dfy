/** `human_bytes` and `human_age`: counts and durations for people. */
module Scaling {
  import opened Common
  import Decimal
  import Text

  // ---- `n as f64` ----

  const TWO_53: nat := 0x20_0000_0000_0000

  /** The spacing of doubles at `n`. */
  function Ulp(n: nat): (q: nat)
    ensures q > 0
  {
    if n < TWO_53 then 1 else 2 * Ulp(n / 2)
  }

  /** The multiple of `q` nearest to `n`, the even one of two. */
  function NearestMultiple(n: nat, q: nat): nat
    requires q > 0
  {
    var k, r := n / q, n % q;
    if 2 * r < q || (2 * r == q && k % 2 == 0) then k * q else (k + 1) * q
  }

  /** The double that `n` converts to. */
  function ToF64(n: nat): nat {
    NearestMultiple(n, Ulp(n))
  }

  /** Doubles are dense enough for 53 bits. */
  lemma {:induction false} UlpBounds(n: nat)
    ensures n < TWO_53 * Ulp(n)
    ensures n >= TWO_53 ==> n >= TWO_53 / 2 * Ulp(n)
  {
    if n >= TWO_53 {
      UlpBounds(n / 2);
    }
  }

  lemma {:induction false} UlpMonotone(n: nat, m: nat)
    requires n <= m
    ensures Ulp(n) == Ulp(m) || 2 * Ulp(n) <= Ulp(m)
  {
    if n >= TWO_53 {
      UlpMonotone(n / 2, m / 2);
    }
  }

  lemma MulMonotone(a: nat, b: nat, q: nat)
    requires a <= b
    ensures a * q <= b * q
  {}

  /** Rounding to a multiple moves `n` by at most half of it, not across any. */
  lemma NearestBounds(n: nat, q: nat)
    requires q > 0
    ensures n / q * q <= NearestMultiple(n, q) <= n / q * q + q
    ensures 2 * NearestMultiple(n, q) <= 2 * n + q && 2 * n <= 2 * NearestMultiple(n, q) + q
  {
    var k := n / q;
    assert (k + 1) * q == k * q + q;
    assert n == k * q + n % q;
  }

  /** Of two multiples that are equally near it goes to the even one. */
  lemma NearestTies(n: nat, q: nat) returns (j: nat)
    requires q > 0 && 2 * (n % q) == q
    ensures NearestMultiple(n, q) == 2 * j * q
  {
    var k := n / q;
    j := if k % 2 == 0 then k / 2 else (k + 1) / 2;
  }

  lemma DivMonotone(n: nat, m: nat, q: nat)
    requires q > 0 && n <= m
    ensures n / q <= m / q
  {
    var j := m / q;
    assert m == j * q + m % q;
    assert (j + 1) * q == j * q + q;
    Quotient(n, q, 0, j + 1);
  }

  lemma RemainderMonotone(n: nat, m: nat, q: nat)
    requires q > 0 && n <= m && n / q == m / q
    ensures n % q <= m % q
  {
    var k := n / q;
    assert n == k * q + n % q && m == k * q + m % q;
  }

  lemma NearestMonotone(n: nat, m: nat, q: nat)
    requires q > 0 && n <= m
    ensures NearestMultiple(n, q) <= NearestMultiple(m, q)
  {
    DivMonotone(n, m, q);
    if n / q < m / q {
      NearestApart(n, m, q);
    } else {
      RemainderMonotone(n, m, q);
      MulMonotone(n / q, n / q + 1, q);
    }
  }

  lemma NearestApart(n: nat, m: nat, q: nat)
    requires q > 0 && n / q < m / q
    ensures NearestMultiple(n, q) <= NearestMultiple(m, q)
  {
    hide NearestMultiple;
    NearestBounds(n, q);
    NearestBounds(m, q);
    MultiplesApart(n / q, m / q, q, NearestMultiple(n, q), NearestMultiple(m, q));
  }

  lemma MultiplesApart(k: nat, j: nat, q: nat, a: nat, b: nat)
    requires k < j && a <= k * q + q && j * q <= b
    ensures a <= b
  {
    MulMonotone(k + 1, j, q);
  }

  /** The conversion is exact up to 2^53, then off by half a spacing at most. */
  lemma ToF64Close(n: nat)
    ensures n < TWO_53 ==> ToF64(n) == n
    ensures n >= TWO_53 ==> ToF64(n) >= TWO_53
    ensures 2 * ToF64(n) <= 2 * n + Ulp(n) && 2 * n <= 2 * ToF64(n) + Ulp(n)
  {
    NearestBounds(n, Ulp(n));
    if n >= TWO_53 {
      UlpBounds(n);
      BigF64(n);
    }
  }

  /** It is exact up to 2^53 = 9007199254740992, and the next two odd numbers
      round to even multiples. */
  lemma LastExact(n: nat)
    ensures n <= 9007199254740992 ==> ToF64(n) == n
    ensures ToF64(9007199254740993) == 9007199254740992 && ToF64(9007199254740995) == 9007199254740996
  {
    ToF64Close(n);
    assert Ulp(9007199254740992) == Ulp(9007199254740993) == Ulp(9007199254740995) == 2;
  }

  lemma BigF64(n: nat)
    requires n >= TWO_53
    ensures TWO_53 / 2 * Ulp(n) <= ToF64(n) <= TWO_53 * Ulp(n)
    ensures TWO_53 <= ToF64(n)
  {
    var q := Ulp(n);
    assert q >= 2;
    UlpBounds(n);
    NearestBounds(n, q);
    Quotient(n, q, TWO_53 / 2, TWO_53);
    hide Ulp, NearestMultiple;
    MultiplesWithin(n / q, q, NearestMultiple(n, q), TWO_53 / 2, TWO_53);
  }

  lemma MultiplesWithin(k: nat, q: nat, x: nat, a: nat, b: nat)
    requires a <= k < b && k * q <= x <= k * q + q
    ensures a * q <= x <= b * q
  {
    MulMonotone(a, k, q);
    MulMonotone(k + 1, b, q);
  }

  lemma Quotient(n: nat, q: nat, a: nat, b: nat)
    requires q > 0 && a * q <= n < b * q
    ensures a <= n / q < b
  {
    var k := n / q;
    assert n == k * q + n % q;
    assert (k + 1) * q == k * q + q;
    if k < a { MulMonotone(k + 1, a, q); }
    if k >= b { MulMonotone(b, k, q); }
  }

  lemma ToF64Monotone(n: nat, m: nat)
    requires n <= m
    ensures ToF64(n) <= ToF64(m)
  {
    UlpMonotone(n, m);
    if Ulp(n) == Ulp(m) {
      NearestMonotone(n, m, Ulp(n));
    } else {
      ToF64Close(n);
      ToF64Close(m);
      BigF64(m);
      if n >= TWO_53 { BigF64(n); }
    }
  }

  // ---- `human_bytes` ----

  const UNITS: string := "BKMGT"

  function Scale(unit: nat): (s: nat)
    ensures s > 0
  {
    if unit == 0 then 1 else 1024 * Scale(unit - 1)
  }

  lemma Scales()
    ensures Scale(0) == 1 && Scale(1) == 1024 && Scale(2) == 1024 * 1024
    ensures Scale(3) == 1024 * 1024 * 1024 && Scale(4) == 1024 * 1024 * 1024 * 1024
    ensures Scale(5) == 1024 * Scale(4)
  {}

  /** Where the scaling loop stops from `value` in unit `unit`. */
  function UnitFrom(value: real, unit: nat): (u: nat)
    requires unit <= 4
    ensures unit <= u <= 4
    decreases 4 - unit
  {
    if value >= 1024.0 && unit < 4 then UnitFrom(value / 1024.0, unit + 1) else unit
  }

  function Scaled(value: real, unit: nat): real
    requires unit <= 4
    decreases 4 - unit
  {
    if value >= 1024.0 && unit < 4 then Scaled(value / 1024.0, unit + 1) else value
  }

  /** The tenths that one decimal of `value` shows: the nearest, the even ones
      of two. */
  function Tenths(value: real): (t: nat)
    requires value >= 0.0
  {
    var x := 10.0 * value;
    var k := x.Floor;
    var r := x - k as real;
    if r < 0.5 || (r == 0.5 && k % 2 == 0) then k else k + 1
  }

  /** `format!("{value:.1}")`. */
  function OneDecimal(value: real): string
    requires value >= 0.0
  {
    Decimal.Show(Tenths(value) / 10) + "." + [Decimal.Digit(Tenths(value) % 10)]
  }

  function UnitOf(n: nat): (u: nat)
    ensures u <= 4
  {
    UnitFrom(ToF64(n) as real, 0)
  }

  function ValueOf(n: nat): real {
    Scaled(ToF64(n) as real, 0)
  }

  lemma {:induction false} ScaledBounds(value: real, unit: nat)
    requires unit <= 4 && value >= 0.0
    ensures 0.0 <= Scaled(value, unit)
    ensures Scaled(value, unit) < 1024.0 || UnitFrom(value, unit) == 4
    ensures UnitFrom(value, unit) > unit ==> Scaled(value, unit) >= 1.0
    decreases 4 - unit
  {
    if value >= 1024.0 && unit < 4 { ScaledBounds(value / 1024.0, unit + 1); }
  }

  /** What scaling divides by is the unit that it ends at. */
  lemma {:induction false} ScaledTimesScale(value: real, unit: nat)
    requires unit <= 4 && value >= 0.0
    ensures Scaled(value, unit) * Scale(UnitFrom(value, unit)) as real == value * Scale(unit) as real
    decreases 4 - unit
  {
    if value >= 1024.0 && unit < 4 {
      assert Scale(unit + 1) == 1024 * Scale(unit);
      ScaledTimesScale(value / 1024.0, unit + 1);
      hide *;
      DownAndUp(value, Scale(unit) as real);
    }
  }

  lemma DownAndUp(value: real, scale: real)
    ensures value / 1024.0 * (1024.0 * scale) == value * scale
  {
    assert value / 1024.0 * 1024.0 == value;
  }

  method HumanBytes(n: nat) returns (s: string)
    ensures s == Human(n)
  {
    var value := ToF64(n) as real;
    var unit := 0;
    while value >= 1024.0 && unit < 4
      invariant unit <= 4 && value >= 0.0
      invariant UnitFrom(value, unit) == UnitOf(n) && Scaled(value, unit) == ValueOf(n)
      decreases 4 - unit
    {
      value := value / 1024.0;
      unit := unit + 1;
    }
    if unit == 0 {
      s := Decimal.Show(n) + "B";
    } else {
      s := OneDecimal(value) + [UNITS[unit]];
    }
  }

  function Human(n: nat): string {
    ScaledNonNegative(n);
    if UnitOf(n) == 0 then Decimal.Show(n) + "B" else OneDecimal(ValueOf(n)) + [UNITS[UnitOf(n)]]
  }

  lemma ScaledNonNegative(n: nat)
    ensures ValueOf(n) >= 0.0
  {
    ScaledBounds(ToF64(n) as real, 0);
  }

  lemma RealMulMonotone(a: real, b: real, c: real)
    requires a <= b && c >= 0.0
    ensures a * c <= b * c
  {}

  /** The unit is the largest that `n` fills, up to the last. */
  lemma UnitFits(n: nat)
    ensures var u := UnitOf(n);
            && (u > 0 ==> Scale(u) <= n)
            && (u < 4 ==> n < Scale(u + 1))
            && ValueOf(n) * Scale(u) as real == ToF64(n) as real
            && (u > 0 ==> ValueOf(n) >= 1.0)
            && (u < 4 ==> ValueOf(n) < 1024.0)
  {
    hide *;
    ValueScaled(n);
    ScaleBounds(UnitOf(n));
    DoubleIsLarge(n);
    if UnitOf(n) > 0 { FillsUnit(n, ToF64(n), ValueOf(n), Scale(UnitOf(n))); }
    if UnitOf(n) < 4 { FitsUnit(n, ToF64(n), ValueOf(n), Scale(UnitOf(n))); }
  }

  lemma ValueScaled(n: nat)
    ensures var u, v := UnitOf(n), ValueOf(n);
            && u <= 4 && v * Scale(u) as real == ToF64(n) as real
            && (u > 0 ==> v >= 1.0) && (u < 4 ==> v < 1024.0)
  {
    ScaledBounds(ToF64(n) as real, 0);
    ScaledTimesScale(ToF64(n) as real, 0);
    assert Scale(0) == 1;
    hide ToF64, UnitFrom, Scaled, Scale;
  }

  lemma ScaleBounds(u: nat)
    requires u <= 4
    ensures Scale(u) < TWO_53 && (u < 4 ==> Scale(u + 1) == 1024 * Scale(u) < TWO_53)
  {
    Scales();
  }

  lemma DoubleIsLarge(n: nat)
    ensures if n < TWO_53 then ToF64(n) == n else ToF64(n) >= TWO_53
  {
    hide ToF64, Ulp;
    ToF64Close(n);
  }

  lemma FillsUnit(n: nat, f: nat, v: real, scale: nat)
    requires v >= 1.0 && v * scale as real == f as real
    requires scale < TWO_53 && (n < TWO_53 ==> f == n)
    ensures scale <= n
  {
    RealMulMonotone(1.0, v, scale as real);
  }

  lemma FitsUnit(n: nat, f: nat, v: real, scale: nat)
    requires scale > 0 && v < 1024.0 && v * scale as real == f as real
    requires 1024 * scale < TWO_53 && (n < TWO_53 ==> f == n) && (n >= TWO_53 ==> f >= TWO_53)
    ensures n < 1024 * scale
  {
    StrictlyBelow(v, 1024.0, scale as real);
  }

  lemma StrictlyBelow(a: real, b: real, c: real)
    requires a < b && c > 0.0
    ensures a * c < b * c
  {}

  // ---- what the text says ----

  /** The bytes a text of `Human` denotes, in tenths. */
  function Denoted(text: string): Option<nat> {
    var (whole, rest) := Decimal.ReadNumber(text);
    if rest == "B" then Some(10 * whole)
    else if |rest| == 3 && rest[0] == '.' && Decimal.IsDigit(rest[1]) && UnitIndex(rest[2]) > 0 then
      Some((10 * whole + (rest[1] as int - 48)) * Scale(UnitIndex(rest[2])))
    else None
  }

  function UnitIndex(c: char): nat {
    if c == 'K' then 1 else if c == 'M' then 2 else if c == 'G' then 3 else if c == 'T' then 4 else 0
  }

  /** Tenths of a byte that are printed for `n`. */
  function Printed(n: nat): nat {
    ScaledNonNegative(n);
    if UnitOf(n) == 0 then 10 * n else Tenths(ValueOf(n)) * Scale(UnitOf(n))
  }

  lemma UnitLetters(u: nat)
    requires 0 < u <= 4
    ensures UnitIndex(UNITS[u]) == u
  {
    assert UNITS[1] == 'K' && UNITS[2] == 'M' && UNITS[3] == 'G' && UNITS[4] == 'T';
  }

  lemma OneDecimalDenotes(value: real, u: nat)
    requires value >= 0.0 && 0 < u <= 4
    ensures Denoted(OneDecimal(value) + [UNITS[u]]) == Some(Tenths(value) * Scale(u))
  {
    UnitLetters(u);
    var t := Tenths(value);
    var letter := UNITS[u];
    var rest := "." + [Decimal.Digit(t % 10)] + [letter];
    hide Tenths, Scale, UnitIndex, Decimal.Show;
    assert OneDecimal(value) + [letter] == Decimal.Show(t / 10) + rest;
    Decimal.ReadShow(t / 10, rest);
    assert 10 * (t / 10) + t % 10 == t;
  }

  /** Reading the text gives the number that was rounded to, and it ends in the
      letter of its unit. */
  lemma HumanDenotes(n: nat)
    ensures Denoted(Human(n)) == Some(Printed(n))
    ensures Text.EndsSolid(Human(n))
  {
    ScaledNonNegative(n);
    if UnitOf(n) == 0 {
      Decimal.ReadShow(n, "B");
    } else {
      OneDecimalDenotes(ValueOf(n), UnitOf(n));
    }
  }

  lemma TenthsClose(value: real)
    requires value >= 0.0
    ensures -0.5 <= Tenths(value) as real - 10.0 * value <= 0.5
    ensures Tenths(value) as real - 10.0 * value in {-0.5, 0.5} ==> Tenths(value) % 2 == 0
  {}

  lemma TenthsMonotone(v: real, w: real)
    requires 0.0 <= v <= w
    ensures Tenths(v) <= Tenths(w)
  {}

  /** If `t` is ten times `v` up to a half, then in a unit of `scale` it is so up
      to half a unit. */
  lemma MulClose(t: nat, v: real, scale: nat, f: nat)
    requires -0.5 <= t as real - 10.0 * v <= 0.5 && v * scale as real == f as real
    ensures var off: int := scale; -off <= 2 * (t * scale - 10 * f) <= off
  {
    RealProduct(t, scale);
    assert 10.0 * v * scale as real == 10.0 * (v * scale as real);
    Spread(t as real, 10.0 * v, scale, t * scale, 10 * f);
  }

  lemma RealProduct(a: nat, b: nat)
    ensures a as real * b as real == (a * b) as real
  {}

  lemma Spread(x: real, y: real, scale: nat, p: int, q: int)
    requires -0.5 <= x - y <= 0.5
    requires x * scale as real == p as real && y * scale as real == q as real
    ensures var off: int := scale; -off <= 2 * (p - q) <= off
  {
    HalfAbove(x, y, scale, p, q);
    HalfAbove(y, x, scale, q, p);
  }

  lemma HalfAbove(x: real, y: real, scale: nat, p: int, q: int)
    requires x - y <= 0.5
    requires x * scale as real == p as real && y * scale as real == q as real
    ensures 2 * (p - q) <= scale
  {
    RealMulMonotone(x, y + 0.5, scale as real);
    assert (y + 0.5) * scale as real == q as real + 0.5 * scale as real;
  }

  lemma PrintedNearDouble(n: nat)
    requires UnitOf(n) > 0
    ensures var off: int := Scale(UnitOf(n)); -off <= 2 * (Printed(n) - 10 * ToF64(n)) <= off
  {
    UnitFits(n);
    hide ValueOf, UnitOf, Scale, ToF64;
    TenthsClose(ValueOf(n));
    hide Tenths;
    MulClose(Tenths(ValueOf(n)), ValueOf(n), Scale(UnitOf(n)), ToF64(n));
  }

  /** Below 2^53 the printed value is within a twentieth of the unit, and exact
      in bytes; from there on the conversion adds half a spacing of doubles. */
  lemma PrintedClose(n: nat)
    ensures UnitOf(n) == 0 ==> Printed(n) == 10 * n
    ensures var off := Scale(UnitOf(n)) + if n < TWO_53 then 0 else 10 * Ulp(n);
            -off <= 2 * (Printed(n) - 10 * n) <= off
  {
    ToF64Close(n);
    if UnitOf(n) > 0 {
      PrintedNearDouble(n);
    }
    hide ToF64, Scale, ValueOf, UnitOf, Ulp;
  }

  // ---- monotone ----

  lemma {:induction false} ScaleMonotone(u: nat, v: nat)
    requires u <= v
    ensures Scale(u) <= Scale(v)
  {
    if u < v { ScaleMonotone(u, v - 1); }
  }

  lemma UnitMonotone(n: nat, m: nat)
    requires n <= m
    ensures UnitOf(n) <= UnitOf(m)
  {
    UnitFits(n);
    UnitFits(m);
    if UnitOf(m) < UnitOf(n) {
      ScaleMonotone(UnitOf(m) + 1, UnitOf(n));
      assert false;
    }
  }

  /** In unit `u > 0` at least one and at most 1024 units are printed. */
  lemma PrintedWithin(n: nat)
    ensures var u := UnitOf(n);
            && (u > 0 ==> 10 * Scale(u) <= Printed(n))
            && (u < 4 ==> Printed(n) <= 10 * Scale(u + 1))
  {
    var u, v := UnitOf(n), ValueOf(n);
    UnitFits(n);
    if u > 0 {
      TenthsMonotone(1.0, v);
      assert Tenths(1.0) == 10 && Tenths(1024.0) == 10240;
      MulMonotone(10, Tenths(v), Scale(u));
      if u < 4 {
        TenthsMonotone(v, 1024.0);
        MulMonotone(Tenths(v), 10240, Scale(u));
        assert Scale(u + 1) == 1024 * Scale(u);
      }
    }
  }

  lemma ValueMonotone(n: nat, m: nat)
    requires n <= m && UnitOf(n) == UnitOf(m)
    ensures ValueOf(n) <= ValueOf(m)
  {
    ToF64Monotone(n, m);
    UnitFits(n);
    UnitFits(m);
    QuotientMonotone(ValueOf(n), ValueOf(m), Scale(UnitOf(n)) as real);
  }

  lemma QuotientMonotone(v: real, w: real, c: real)
    requires c > 0.0 && v * c <= w * c
    ensures v <= w
  {
    assert v == v * c / c && w == w * c / c;
  }

  /** More bytes never print as fewer, not even from `1024.0K` to `1.0M`. */
  lemma PrintedMonotone(n: nat, m: nat)
    requires n <= m
    ensures Printed(n) <= Printed(m)
  {
    UnitMonotone(n, m);
    var u, v := UnitOf(n), UnitOf(m);
    if u < v {
      PrintedWithin(n);
      PrintedWithin(m);
      ScaleMonotone(u + 1, v);
    } else if u > 0 {
      ValueMonotone(n, m);
      ScaledNonNegative(n);
      TenthsMonotone(ValueOf(n), ValueOf(m));
      MulMonotone(Tenths(ValueOf(n)), Tenths(ValueOf(m)), Scale(u));
    }
  }

  /** The boundary: one byte apart, and both print 2^20 bytes. */
  lemma BoundaryTexts()
    ensures Human(0x10_0000 - 1) == "1024.0K" && Human(0x10_0000) == "1.0M"
  {
    LastOfKibi();
    FirstOfMebi();
    hide OneDecimal;
  }

  lemma LastOfKibi()
    ensures UnitOf(0x10_0000 - 1) == 1 && OneDecimal(ValueOf(0x10_0000 - 1)) == "1024.0"
  {
    var a: real := 1048575.0 / 1024.0;
    assert UnitFrom(1048575.0, 0) == 1 && Scaled(1048575.0, 0) == a;
    assert Tenths(a) == 10240;
    assert Decimal.Show(1024) == "1024";
    hide UnitFrom, Scaled, Tenths, Decimal.Show;
  }

  lemma FirstOfMebi()
    ensures UnitOf(0x10_0000) == 2 && OneDecimal(ValueOf(0x10_0000)) == "1.0"
  {
    assert UnitFrom(1048576.0, 0) == 2 && Scaled(1048576.0, 0) == 1.0;
    assert Tenths(1.0) == 10;
    hide UnitFrom, Scaled, Tenths;
  }

  // ---- `human_age` ----

  function Age(secs: nat): string {
    if secs < 60 then Decimal.Show(secs) + "s"
    else if secs < 3600 then Decimal.Show(secs / 60) + "m" + Decimal.Show(secs % 60) + "s"
    else Decimal.Show(secs / 3600) + "h" + Decimal.Show(secs % 3600 / 60) + "m"
  }

  /** The seconds that a text of numbers with units adds up to. */
  function Seconds(text: string): nat
    decreases |text|
  {
    var (v, rest) := Decimal.ReadNumber(text);
    if rest == [] then 0
    else v * (if rest[0] == 'h' then 3600 else if rest[0] == 'm' then 60 else 1) + Seconds(rest[1..])
  }

  lemma SecondsOf(v: nat, unit: char, later: string)
    requires unit in "hms"
    ensures Seconds(Decimal.Show(v) + [unit] + later)
         == v * (if unit == 'h' then 3600 else if unit == 'm' then 60 else 1) + Seconds(later)
  {
    assert Decimal.Show(v) + [unit] + later == Decimal.Show(v) + ([unit] + later);
    Decimal.ReadShow(v, [unit] + later);
    assert ([unit] + later)[1..] == later;
  }

  lemma SecondsOfLast(v: nat, unit: char)
    requires unit in "ms"
    ensures Seconds(Decimal.Show(v) + [unit]) == v * if unit == 'm' then 60 else 1
  {
    SecondsOf(v, unit, "");
    assert Decimal.Show(v) + [unit] + "" == Decimal.Show(v) + [unit];
    assert Seconds("") == 0;
  }

  lemma WholeMinutes(secs: nat)
    ensures secs / 60 * 60 + secs % 60 == secs
    ensures secs / 3600 * 3600 + secs % 3600 / 60 * 60 == secs / 60 * 60
  {}

  lemma SecondsOfTwo(a: nat, unit: char, b: nat, last: char)
    requires unit in "hm" && last in "ms"
    ensures Seconds(Decimal.Show(a) + [unit] + (Decimal.Show(b) + [last]))
         == a * (if unit == 'h' then 3600 else 60) + b * if last == 'm' then 60 else 1
  {
    hide Seconds, Decimal.Show;
    SecondsOf(a, unit, Decimal.Show(b) + [last]);
    SecondsOfLast(b, last);
  }

  lemma AgeText(secs: nat)
    ensures Age(secs) ==
              if secs < 60 then Decimal.Show(secs) + ['s']
              else if secs < 3600 then Decimal.Show(secs / 60) + ['m'] + (Decimal.Show(secs % 60) + ['s'])
              else Decimal.Show(secs / 3600) + ['h'] + (Decimal.Show(secs % 3600 / 60) + ['m'])
  {
    hide Decimal.Show;
  }

  /** Ages are shown exactly below an hour, and in whole minutes from there. */
  lemma AgeDenotes(secs: nat)
    ensures Seconds(Age(secs)) == if secs < 3600 then secs else secs / 60 * 60
  {
    WholeMinutes(secs);
    AgeText(secs);
    hide *;
    if secs < 60 {
      SecondsOfLast(secs, 's');
    } else if secs < 3600 {
      SecondsOfTwo(secs / 60, 'm', secs % 60, 's');
    } else {
      SecondsOfTwo(secs / 3600, 'h', secs % 3600 / 60, 'm');
    }
  }

  /** Two numbers in two neighbouring units, the second below 60, once there is
      more than a minute. */
  lemma AgeParts(secs: nat)
    ensures var (a, later) := Decimal.ReadNumber(Age(secs));
            if secs < 60 then a == secs && later == "s"
            else
              && later != "" && later[0] == (if secs < 3600 then 'm' else 'h')
              && var (b, end) := Decimal.ReadNumber(later[1..]);
                 && b < 60
                 && if secs < 3600 then 60 * a + b == secs && end == "s"
                    else 3600 * a + 60 * b <= secs < 3600 * a + 60 * b + 60 && end == "m"
  {
    hide Decimal.Show, Decimal.ReadNumber;
    if secs < 60 {
      Decimal.ReadShow(secs, "s");
    } else {
      var hours := secs >= 3600;
      var a, b := if hours then secs / 3600 else secs / 60, if hours then secs % 3600 / 60 else secs % 60;
      var end := if hours then "m" else "s";
      var later := [if hours then 'h' else 'm'] + (Decimal.Show(b) + end);
      assert Age(secs) == Decimal.Show(a) + later;
      assert later[1..] == Decimal.Show(b) + end;
      Decimal.ReadShow(a, later);
      Decimal.ReadShow(b, end);
    }
  }
}
