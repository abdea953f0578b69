# Monetary unit names of the `common` package

This project models the monetary-unit part of the `common` package of the
internet-cash prototype (`common/amount.go`).

An `AmountUnit` is the decimal exponent of a unit relative to one coin.
Six exponents have constants and names: `AmountMegaCoin` (6, "MCoin"),
`AmountKiloCoin` (3, "kCoin"), `AmountCoin` (0, "Coin"), `AmountMilliCoin`
(-3, "mCoin"), `AmountMicroCoin` (-6, "μCoin") and `AmountCoinUnit`
(-8, "CoinUnit"). `AmountUnit.String()` returns the name of a named
exponent. For any other exponent N it returns `"1e"`, then N in base 10
as `strconv.FormatInt` writes it, then `" Coin"`.

The doc comment above `String()` says "Satoshi" and "1eN BTC". The code
returns "CoinUnit" and "1eN Coin". The model follows the code.

Files:

- `wrappers.dfy`: the `Option` type used by the parsers.
- `strconv.dfy` (module `Strconv`): `FormatInt`, the base-10 rendering of
  a signed integer. It writes an optional `-` and then the digits of |n|
  with no leading zeros. A strict parser, `ParseInt`, accepts exactly the
  strings `FormatInt` produces. The two are proved inverse in both
  directions.
- `amount.dfy` (module `Common`): the unit constants, `UnitString`
  (the model of `AmountUnit.String()`), its inverse `ParseUnitString`,
  and the exact integer scale of each unit. An `Amount` is 1e-8 coin, so
  one unit of exponent u is 10^(u+8) Amounts.

Strings are Dafny strings of Unicode characters, so "μCoin" is the five
characters U+03BC, 'C', 'o', 'i', 'n'. The model does not look at its
UTF-8 bytes. `AmountUnit` is Go's `int` taken at 64 bits, so the
conversion `int64(u)` at line 44 loses nothing.

## Model

| member | source | states |
|---|---|---|
| `Strconv.NatToDigits` | common/amount.go:44 | the decimal digits of a natural number form a canonical numeral: non-empty, only digits, and no leading zero unless the numeral is "0" |
| `Strconv.FormatInt` | common/amount.go:44 | the rendering of an exponent is never empty, and it starts with '-' exactly when the exponent is negative |
| `Strconv.DigitsRoundTrip` | common/amount.go:44 | reading back the digits of n gives n |
| `Strconv.DigitsCanonicalRoundTrip` | common/amount.go:44 | every canonical numeral is the rendering of its own value, so renderings have no leading zeros |
| `Strconv.FormatIntRoundTrip` | common/amount.go:44 | the strict parser reads every rendering back to the integer rendered, sign included |
| `Strconv.ParseIntCanonical` | common/amount.go:44 | every string the strict parser accepts is the rendering of the value it reads |
| `Strconv.FormatIntInjective` | common/amount.go:44 | distinct integers have distinct renderings |
| `Strconv.FormatIntAlphabet` | common/amount.go:44 | a rendering holds only decimal digits, except for a '-' in first place |
| `Common.UnitString` | common/amount.go:29-46 | String() is total and returns a non-empty string for every exponent |
| `Common.NamedUnitStrings` | common/amount.go:17-42 | the six constants are 6, 3, 0, -3, -6 and -8, and their names are "MCoin", "kCoin", "Coin", "mCoin", "μCoin" and "CoinUnit" |
| `Common.DefaultUnitStringParts` | common/amount.go:44 | a default rendering is "1e", then the FormatInt rendering of the exponent, then " Coin" |
| `Common.DefaultUnitShape` | common/amount.go:43-44 | for an exponent N with no name, String() starts with "1e" and ends with " Coin", the text between reads back as N, and it holds a '-' right after "1e" exactly when N is negative |
| `Common.DefaultDistinctFromNamed` | common/amount.go:30-44 | no default rendering equals the name of a named unit |
| `Common.UnitStringRoundTrip` | common/amount.go:29-46 | reading back the string of any exponent gives that exponent |
| `Common.ParseDefaultSound` | common/amount.go:43-44 | a string of the form "1e", a canonical decimal N of an unnamed exponent, " Coin" is exactly String() of N |
| `Common.ParseUnitStringSound` | common/amount.go:29-46 | every string the unit parser accepts is the String() of the exponent it reads |
| `Common.UnitStringInjective` | common/amount.go:29-46 | distinct exponents have distinct strings |
| `Common.Pow10` | common/amount.go:90 | math.Pow10(k) for k >= 0, taken exactly: a positive whole number |
| `Common.Pow10Add` | common/amount.go:90 | 10^(a+b) is 10^a times 10^b |
| `Common.Int64Add` | common/amount.go:90 | Go's 64-bit addition: the exact sum when it fits in int64, otherwise the sum minus or plus 2^64 |
| `Common.ScaleExponentWraps` | common/amount.go:90 | the exponent `u+8` that ToUnit computes is exact up to u = 2^63-9; for the eight largest u it wraps below -2^63+8, and for u = 2^63-1 it is -2^63+7 |
| `Common.BaseUnitsPerUnit` | common/amount.go:90 | one unit of exponent u >= -8 is a positive whole number of Amounts, 10^(u+8) |
| `Common.NamedUnitScales` | common/amount.go:17-24 | the named units are 1 Amount (CoinUnit), 1e8 Amounts (Coin), 1000 and 1e6 coins (kCoin, MCoin), and 1/1000 and 1/1e6 coin (mCoin, μCoin) |
| `Common.NamedUnitIsWhole` | common/amount.go:17-24 | every named exponent is at least -8, its `u+8` does not wrap, and it is between 1 Amount and a million coins |
| `Common.BaseUnitsPerUnitShift` | common/amount.go:90 | raising the exponent by k multiplies the Amounts per unit by 10^k |
| `Common.ToUnitExact` | common/amount.go:89-91 | for every exponent, the amount divided by 10^e for the exponent e the source computes (wrap included): whole units and a remainder below one unit when e >= 0, a whole number a * 10^-e when e < 0 |
| `Common.ToCoinExact` | common/amount.go:94-96 | the same split for the coin: whole coins and fewer than 1e8 Amounts left over |
| `Common.UnitsToAmountRoundTrip` | common/amount.go:89-91 | counting a whole number of units in those same units gives that number back with no remainder, for every exponent from -8 up to where `u+8` wraps |
| `Common.SubBaseUnitsExact` | common/amount.go:89-91 | below the base unit, an amount is a whole number of units: a * 10^-(u+8) of them |

`DefaultUnitString`, `UnitsToAmount`, `MulBounds` and `DivMulExact` are helpers. `IsDigit`, `DigitChar`, `DigitValue`, `IsCanonicalDigits`, `DigitsToNat`, `ParseInt`, `LeadingNonZeroPositive` and `ParseUnitString` are helpers too. They serve the lemmas above and model no line of their own.

## Left out

- `round` and `NewAmount` (common/amount.go:56-85) are left out. They are float64 arithmetic: NaN and infinity checks, and rounding by adding ±0.5 and then truncating.
- `UnitCoinPerCoin`, used at common/amount.go:84, is not part of this model.
- Common.ToUnitExact: models `ToUnit` as an exact quotient, not as the float64 division the source performs. Rounding of the float64 result is not modelled.
- Common.ToUnitExact: the float64 range of `math.Pow10` is not modelled. `math.Pow10(e)` is +Inf for e > 308 and 0 for e < -323. So for a wrapped exponent (u from 2^63-8 to 2^63-1) the source divides by 0 and returns +Inf, -Inf or NaN for a positive, negative or zero amount. The model returns the exact a * 10^-e there instead. `ScaleExponentWraps` states the wrap itself.
- Common.ToCoinExact: models `ToBTC` as the exact split by 1e8, for the same floating-point reason.
- The `Amount` argument of the exact conversions is an unbounded integer. The int64 range of `Amount` does not matter to an exact division.
- `AmountUnit` is modelled at 64 bits. On a 32-bit platform Go's `int` is narrower, and `int64(u)` still loses nothing.
- The `NetSync` struct (netsync/netsync.go:9-21) is left out. It has no methods. Its fields are concurrency plumbing: start and shutdown flags, a wait group and a quit channel. It also holds references to the `blockchain` and `peer` packages, which are not part of this model.
- The `NetSync` struct has no methods, so no sync-peer selection, orphan pool, request ledger or sync phase logic is modelled.
