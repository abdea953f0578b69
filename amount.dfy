/**
 * The monetary unit names of the `common` package.  An AmountUnit is the
 * decimal exponent of a unit relative to one coin; String names the six
 * recognised units and renders every other exponent N as "1eN Coin".
 * Beside it, the exact number of base units (Amounts, 1e-8 coin each) in
 * one unit.
 */
module Common {
  import opened Wrappers
  import opened Strconv

  /** Go's `int`, taken at 64 bits; `int64(u)` is then the identity. */
  type AmountUnit = x: int | -0x8000_0000_0000_0000 <= x < 0x8000_0000_0000_0000

  const AmountMegaCoin: AmountUnit := 6
  const AmountKiloCoin: AmountUnit := 3
  const AmountCoin: AmountUnit := 0
  const AmountMilliCoin: AmountUnit := -3
  const AmountMicroCoin: AmountUnit := -6
  const AmountCoinUnit: AmountUnit := -8

  /** The number of base units in one coin: an Amount is 1e-8 coin. */
  const BaseUnitsPerCoin: nat := 100_000_000

  predicate IsNamed(u: AmountUnit) {
    u == AmountMegaCoin || u == AmountKiloCoin || u == AmountCoin
    || u == AmountMilliCoin || u == AmountMicroCoin || u == AmountCoinUnit
  }

  /** The rendering of an exponent with no name of its own. */
  function DefaultUnitString(u: AmountUnit): string {
    "1e" + FormatInt(u) + " Coin"
  }

  /** AmountUnit.String(). */
  function UnitString(u: AmountUnit): (r: string)
    ensures |r| > 0
  {
    if u == AmountMegaCoin then "MCoin"
    else if u == AmountKiloCoin then "kCoin"
    else if u == AmountCoin then "Coin"
    else if u == AmountMilliCoin then "mCoin"
    else if u == AmountMicroCoin then "\U{03BC}Coin"
    else if u == AmountCoinUnit then "CoinUnit"
    else DefaultUnitString(u)
  }

  /** Reads a unit name back: the inverse of UnitString.  A "1eN Coin"
      string is accepted only for an N that has no name of its own. */
  function ParseUnitString(s: string): Option<AmountUnit> {
    if s == "MCoin" then Some(AmountMegaCoin)
    else if s == "kCoin" then Some(AmountKiloCoin)
    else if s == "Coin" then Some(AmountCoin)
    else if s == "mCoin" then Some(AmountMilliCoin)
    else if s == "\U{03BC}Coin" then Some(AmountMicroCoin)
    else if s == "CoinUnit" then Some(AmountCoinUnit)
    else if |s| >= 7 && s[..2] == "1e" && s[|s| - 5..] == " Coin" then
      match ParseInt(s[2..|s| - 5])
      case Some(n) =>
        if -0x8000_0000_0000_0000 <= n < 0x8000_0000_0000_0000 && !IsNamed(n) then Some(n) else None
      case None => None
    else None
  }

  /** Each recognised exponent has its fixed name. */
  lemma NamedUnitStrings()
    ensures UnitString(AmountMegaCoin) == "MCoin"
    ensures UnitString(AmountKiloCoin) == "kCoin"
    ensures UnitString(AmountCoin) == "Coin"
    ensures UnitString(AmountMilliCoin) == "mCoin"
    ensures UnitString(AmountMicroCoin) == "\U{03BC}Coin"
    ensures UnitString(AmountCoinUnit) == "CoinUnit"
    ensures AmountMegaCoin == 6 && AmountKiloCoin == 3 && AmountCoin == 0
    ensures AmountMilliCoin == -3 && AmountMicroCoin == -6 && AmountCoinUnit == -8
  {
  }

  /** Splits a default rendering into its prefix, decimal and suffix. */
  lemma DefaultUnitStringParts(u: AmountUnit)
    ensures var r := DefaultUnitString(u);
      |r| >= 8 && r[..2] == "1e" && r[|r| - 5..] == " Coin" && r[2..|r| - 5] == FormatInt(u)
  {
    var d := FormatInt(u);
    var r := DefaultUnitString(u);
    assert r == "1e" + d + " Coin";
    assert r[..2] == "1e";
    assert r[|r| - 5..] == " Coin";
    assert r[2..|r| - 5] == d;
  }

  /** Any unrecognised exponent N yields "1e", then a decimal that reads
      back as N, then " Coin". */
  lemma DefaultUnitShape(u: AmountUnit)
    requires !IsNamed(u)
    ensures var r := UnitString(u);
      |r| >= 8 && r[..2] == "1e" && r[|r| - 5..] == " Coin"
      && ParseInt(r[2..|r| - 5]) == Some(u as int)
      && (u < 0 <==> r[2] == '-')
  {
    DefaultUnitStringParts(u);
    FormatIntRoundTrip(u);
  }

  /** No default rendering coincides with the name of a recognised unit. */
  lemma DefaultDistinctFromNamed(u: AmountUnit, v: AmountUnit)
    requires !IsNamed(u) && IsNamed(v)
    ensures UnitString(u) != UnitString(v)
  {
    DefaultUnitStringParts(u);
    var r := UnitString(u);
    assert r[0] == '1';
  }

  /** Reading back the name of any unit gives that unit. */
  lemma UnitStringRoundTrip(u: AmountUnit)
    ensures ParseUnitString(UnitString(u)) == Some(u)
  {
    if !IsNamed(u) {
      var r := UnitString(u);
      DefaultUnitStringParts(u);
      FormatIntRoundTrip(u);
      assert r[0] == '1';
      assert r != "MCoin" && r != "kCoin" && r != "Coin" && r != "mCoin";
      assert r != "\U{03BC}Coin" && r != "CoinUnit";
    }
  }

  /** The default branch of ParseUnitString reads "1e", a canonical
      decimal and " Coin", and nothing else. */
  lemma ParseDefaultSound(s: string, u: AmountUnit)
    requires |s| >= 7 && s[..2] == "1e" && s[|s| - 5..] == " Coin"
    requires ParseInt(s[2..|s| - 5]) == Some(u as int) && !IsNamed(u)
    ensures UnitString(u) == s
  {
    var d := s[2..|s| - 5];
    ParseIntCanonical(d, u);
    calc {
      UnitString(u);
      "1e" + FormatInt(u) + " Coin";
      s[..2] + d + s[|s| - 5..];
      { assert forall i :: 0 <= i < |s| ==> s[i] == (s[..2] + d + s[|s| - 5..])[i]; }
      s;
    }
  }

  /** Every string ParseUnitString accepts is the name of what it reads. */
  lemma ParseUnitStringSound(s: string, u: AmountUnit)
    requires ParseUnitString(s) == Some(u)
    ensures UnitString(u) == s
  {
    if s in {"MCoin", "kCoin", "Coin", "mCoin", "\U{03BC}Coin", "CoinUnit"} {
      NamedUnitStrings();
    } else {
      assert |s| >= 7 && s[..2] == "1e" && s[|s| - 5..] == " Coin";
      var p := ParseInt(s[2..|s| - 5]);
      assert p.Some? && p.value == u as int && !IsNamed(u);
      ParseDefaultSound(s, u);
    }
  }

  /** Distinct units have distinct names. */
  lemma UnitStringInjective(u: AmountUnit, v: AmountUnit)
    requires UnitString(u) == UnitString(v)
    ensures u == v
  {
    UnitStringRoundTrip(u);
    UnitStringRoundTrip(v);
  }

  /** math.Pow10 for a non-negative exponent, exactly. */
  function Pow10(k: nat): (r: nat)
    ensures r >= 1
  {
    if k == 0 then 1 else 10 * Pow10(k - 1)
  }

  lemma {:induction false} Pow10Add(a: nat, b: nat)
    ensures Pow10(a + b) == Pow10(a) * Pow10(b)
    decreases a
  {
    if a > 0 {
      Pow10Add(a - 1, b);
    }
  }

  const MinInt64: int := -0x8000_0000_0000_0000
  const MaxInt64: int := 0x7FFF_FFFF_FFFF_FFFF

  /** Go's addition of two 64-bit integers, which wraps modulo 2^64. */
  function Int64Add(x: AmountUnit, y: AmountUnit): (r: AmountUnit)
    ensures MinInt64 <= x + y <= MaxInt64 ==> r == x + y
    ensures x + y > MaxInt64 ==> r == x + y - 0x1_0000_0000_0000_0000
    ensures x + y < MinInt64 ==> r == x + y + 0x1_0000_0000_0000_0000
  {
    (x + y - MinInt64) % 0x1_0000_0000_0000_0000 + MinInt64
  }

  /** The exponent `u+8` that Amount.ToUnit hands to math.Pow10, computed in
      the 64-bit AmountUnit. */
  function ScaleExponent(u: AmountUnit): AmountUnit {
    Int64Add(u, 8)
  }

  /** `u+8` is exact for every exponent up to 2^63-9; for the eight largest
      exponents it wraps to a negative exponent near -2^63. */
  lemma ScaleExponentWraps(u: AmountUnit)
    ensures u <= MaxInt64 - 8 ==> ScaleExponent(u) == u + 8
    ensures u > MaxInt64 - 8 ==> ScaleExponent(u) < MinInt64 + 8
    ensures ScaleExponent(0x7FFF_FFFF_FFFF_FFFF) == MinInt64 + 7
  {
  }

  /** Base units in one unit of exponent u: 10^(u+8), defined wherever this
      is a whole number of base units. */
  function BaseUnitsPerUnit(u: AmountUnit): (r: nat)
    requires u >= AmountCoinUnit
    ensures r >= 1
  {
    Pow10(u + 8)
  }

  /** The six scales, relative to the base unit and to the coin. */
  lemma NamedUnitScales()
    ensures BaseUnitsPerUnit(AmountCoinUnit) == 1
    ensures BaseUnitsPerUnit(AmountCoin) == BaseUnitsPerCoin
    ensures BaseUnitsPerUnit(AmountKiloCoin) == 1000 * BaseUnitsPerCoin
    ensures BaseUnitsPerUnit(AmountMegaCoin) == 1_000_000 * BaseUnitsPerCoin
    ensures BaseUnitsPerUnit(AmountMilliCoin) * 1000 == BaseUnitsPerCoin
    ensures BaseUnitsPerUnit(AmountMicroCoin) * 1_000_000 == BaseUnitsPerCoin
  {
    assert Pow10(2) == 100;
    assert Pow10(5) == 100_000;
    assert Pow10(8) == 100_000_000;
    assert Pow10(11) == 100_000_000_000;
    assert Pow10(14) == 100_000_000_000_000;
  }

  /** Every recognised unit is a whole number of base units, between one
      base unit and a million coins, and its `u+8` does not wrap. */
  lemma NamedUnitIsWhole(u: AmountUnit)
    requires IsNamed(u)
    ensures u >= AmountCoinUnit && ScaleExponent(u) == u + 8
    ensures 1 <= BaseUnitsPerUnit(u) <= 1_000_000 * BaseUnitsPerCoin
  {
    NamedUnitScales();
  }

  /** Raising the exponent by k multiplies the base units per unit by 10^k. */
  lemma BaseUnitsPerUnitShift(u: AmountUnit, k: nat)
    requires u >= AmountCoinUnit && u + k <= MaxInt64
    ensures BaseUnitsPerUnit(u + k) == BaseUnitsPerUnit(u) * Pow10(k)
  {
    Pow10Add(u + 8, k);
  }

  /** The Amount worth n whole units of exponent u. */
  function UnitsToAmount(n: int, u: AmountUnit): int
    requires u >= AmountCoinUnit
  {
    n * BaseUnitsPerUnit(u)
  }

  /** An amount counted in units, exactly: whole units and a remainder of
      base units smaller than one unit. */
  datatype UnitValue = UnitValue(whole: int, rest: nat)

  /** Amount.ToUnit without floating point: a / 10^e for the exponent e
      that the source computes, wrapped `u+8` included.  For e >= 0 the
      quotient has whole units and a remainder below 10^e; for e < 0 it is
      the whole number a * 10^-e. */
  function ToUnitExact(a: int, u: AmountUnit): (v: UnitValue)
    ensures var e: int := ScaleExponent(u);
      var up, down := if e >= 0 then e else 0, if e < 0 then -e else 0;
      a * Pow10(down) == v.whole * Pow10(up) + v.rest && v.rest < Pow10(up)
  {
    var e: int := ScaleExponent(u);
    if e >= 0 then UnitValue(a / Pow10(e), a % Pow10(e))
    else UnitValue(a * Pow10(-e), 0)
  }

  /** Amount.ToBTC: the amount counted in coins. */
  function ToCoinExact(a: int): (v: UnitValue)
    ensures a == v.whole * BaseUnitsPerCoin + v.rest
    ensures v.rest < BaseUnitsPerCoin
  {
    NamedUnitScales();
    ToUnitExact(a, AmountCoin)
  }

  lemma MulBounds(k: int, m: int)
    requires m > 0
    ensures k >= 1 ==> k * m >= m
    ensures k <= -1 ==> k * m <= -m
  {
    if k >= 1 {
      assert k * m == m + (k - 1) * m;
    } else if k <= -1 {
      assert k * m == -m + (k + 1) * m;
    }
  }

  /** Euclidean division undoes an exact multiplication. */
  lemma DivMulExact(n: int, m: int)
    requires m > 0
    ensures (n * m) / m == n && (n * m) % m == 0
  {
    var q, r := (n * m) / m, (n * m) % m;
    assert (n - q) * m == r by {
      assert n * m == q * m + r;
    }
    MulBounds(n - q, m);
  }

  /** Counting a whole number of units in those units gives that number back,
      with nothing left over, for every exponent whose `u+8` does not wrap. */
  lemma UnitsToAmountRoundTrip(n: int, u: AmountUnit)
    requires AmountCoinUnit <= u <= MaxInt64 - 8
    ensures ToUnitExact(UnitsToAmount(n, u), u) == UnitValue(n, 0)
  {
    ScaleExponentWraps(u);
    DivMulExact(n, BaseUnitsPerUnit(u));
  }

  /** Below the base unit a unit is a fraction of an Amount, so an amount
      is a whole number of such units: 10^-(u+8) of them per Amount. */
  lemma SubBaseUnitsExact(a: int, u: AmountUnit)
    requires u < AmountCoinUnit
    ensures ToUnitExact(a, u) == UnitValue(a * Pow10(-(u + 8)), 0)
  {
    ScaleExponentWraps(u);
  }
}
