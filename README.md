# Polynomials and fast exponentiation over the reals

A Dafny model of the two computational pieces of the `roots` crate:

- `power(x, n)` (src/main.rs): binary exponentiation with a `while` loop over the locals
  `result`, `y` and `count`. Module `Power` (power.dfy) keeps the loop as a method, proves it
  against the reference definition `Pow`, and counts its iterations in a ghost out-parameter.
- `Polynom` (src/polynomials.rs): a dense coefficient vector, where index `i` holds the
  coefficient of `X^i`. Module `Polynomials` (polynomials.dfy) models it as a datatype value:
  the updating operations (`trim`, `set_at`, `plus`, `by`, `+`, `*`) consume `self` and
  return a new value, and the queries (`degree`, `at`, `fmt`) only borrow `&self`.
  - The vector is the subset type `Coefficients`, which holds at least one coefficient.
    The source never builds an empty vector, and `degree()` relies on that.
  - Canonical form (`IsCanonical`) also asks for a non-zero highest coefficient when there
    are several.
  - The pure parts (`zero`, `single`, `initialize`, `degree`, `at` and the `+` operator)
    are functions.
  - The consuming updates (`trim`, `set_at`, `plus`, `by`, `*`) are methods that update an
    owned buffer in place, as the source does. `trim` pops the end of a sequence in a loop;
    the others write an array. Each is proved equal to a value function (`Trimmed`,
    `Updated`, `Shifted`, `Scaled`, `Product`), and the algebra is proved about those.
  - `by` and `+` do not trim, while `set_at`, `plus` and `*` do. The model keeps this
    inconsistency. `ScaledCanonicalIff` and `AddCancelsLeading` show where canonical form
    is lost.
- The `Display` implementation: module `PolynomialDisplay` (display.dfy).
  - `Fmt` walks the coefficients from the degree down to 0. `PushTerm` is one iteration of
    that loop: it pushes the sign, magnitude, `X` and exponent of one term.
  - Both are proved against the value function `Rendered`.
  - `f64::to_string` of a magnitude is the parameter `show`. `usize::to_string` of an
    exponent is `NatToString`, proved against its inverse `DecimalValue`.
- The unit tests of src/polynomials.rs: module `PolynomialTests` (polynomial_tests.dfy),
  stated as lemmas.

Coefficients and the base of `power` are `real`. The comparisons the code makes on
coefficients (`x != 0.0`, `x > 0.0`, `x < 0.0`, `x.abs() != 1.0`) are exact on `real`, as
they are on finite `f64` values; the rounding of `f64` arithmetic is not modelled.

The `set_at` test (src/polynomials.rs:185-189) rewrites indices `0..10` of `single(10)`, not
the leading one. `power` is not called by any polynomial operation.

## Model

| member | source | states |
|---|---|---|
| Power.Power | src/main.rs:1-13 | returns x^n as defined by repeated multiplication (so 1 for n = 0, whatever x is), after exactly BitLength(n) loop iterations |
| Power.AbsorbStep | src/main.rs:5-10 | one iteration (odd exponent moves a factor y to the result, y squared, exponent halved) keeps result * y^count unchanged and uses up one binary digit of the exponent |
| Power.PowHalve | src/main.rs:6-10 | for odd count exactly one factor y goes to the result; the rest is (y*y)^(count/2) |
| Power.PowSquare | src/main.rs:9 | squaring the base doubles the exponent: (x*x)^k == x^(2k) |
| Polynomials.Trimmed | src/polynomials.rs:55-60 | the result of trimming is a non-empty prefix of the input, drops only 0.0 entries, and is canonical |
| Polynomials.TrimmedUnique | src/polynomials.rs:55-60 | any canonical prefix that drops only zeros is the trimmed vector |
| Polynomials.TrimmedCanonical | src/polynomials.rs:55-60 | trimming leaves a canonical vector unchanged |
| Polynomials.TrimmedIdempotent | src/polynomials.rs:55-60 | trimming twice is trimming once |
| Polynomials.TrimmedAllZero | src/polynomials.rs:56-58 | a vector of zeros trims to the single coefficient 0.0 |
| Polynomials.Polynom.Trim | src/polynomials.rs:55-60 | the pop loop ends with exactly the trimmed vector |
| Polynomials.Polynom.Zero | src/polynomials.rs:9-13 | zero() is canonical, of degree 0, with coefficient 0.0 |
| Polynomials.Polynom.Single | src/polynomials.rs:15-19 | single(n) is canonical, of degree n, 1.0 at index n and 0.0 below |
| Polynomials.Polynom.Initialize | src/polynomials.rs:21-25 | a non-empty vector with non-zero last entry is stored unchanged and is canonical |
| Polynomials.Polynom.Degree | src/polynomials.rs:27-29 | the degree is the last index: every coefficient above it is zero, and for a canonical polynomial the coefficient at the degree is non-zero unless the degree is 0 |
| Polynomials.Polynom.At | src/polynomials.rs:31-33 | within the degree, at(i) is the coefficient of X^i |
| Polynomials.Polynom.Updated | src/polynomials.rs:35-39 | the value of set_at is canonical and never of higher degree |
| Polynomials.Polynom.SetAt | src/polynomials.rs:35-39 | writes slot i of the buffer and trims: the result is the trimmed vector with only index i changed |
| Polynomials.UpdatedBelowDegree | src/polynomials.rs:35-39 | below the degree of a canonical polynomial, set_at changes exactly index i and nothing is trimmed |
| Polynomials.UpdatedLeadingToZero | src/polynomials.rs:35-39 | setting the leading coefficient of a positive-degree polynomial to 0.0 lowers the degree |
| Polynomials.Polynom.Shifted | src/polynomials.rs:41-46 | the value of plus is canonical and never of higher degree |
| Polynomials.Polynom.Plus | src/polynomials.rs:41-46 | adds x to every slot of the buffer, then trims |
| Polynomials.ShiftedByZero | src/polynomials.rs:41-46 | plus(0.0) leaves a canonical polynomial unchanged |
| Polynomials.Polynom.By | src/polynomials.rs:48-53 | multiplies every slot of the buffer by x, keeps the length and does not trim |
| Polynomials.ScaledCanonicalIff | src/polynomials.rs:48-53 | by(x) keeps a canonical polynomial canonical if and only if x != 0.0 or the degree is 0 |
| Polynomials.Polynom.Add | src/polynomials.rs:94-115 | the sum has degree max(deg a, deg b), and its coefficient i is a_i + b_i, with a missing coefficient read as zero |
| Polynomials.AddCommutes | src/polynomials.rs:97-113 | a + b == b + a, although the source orders the operands by degree |
| Polynomials.AddZero | src/polynomials.rs:94-115 | zero() is neutral for + on both sides |
| Polynomials.AddSelf | src/polynomials.rs:94-115 | p + p == p.by(2.0) |
| Polynomials.AddCanonical | src/polynomials.rs:94-115 | the sum of canonical polynomials of different degrees is canonical |
| Polynomials.AddCancelsLeading | src/polynomials.rs:103-113 | + does not trim: X + (-X) is the non-canonical vector [0.0, 0.0] |
| Polynomials.Polynom.Product | src/polynomials.rs:117-131 | the value of * is canonical, of degree at most deg a + deg b |
| Polynomials.AccumulateRow | src/polynomials.rs:125-127 | the inner loop for row i adds a_i * b_(k-i) into every slot k it reaches, so slot k then holds the sum over rows 0..=i |
| Polynomials.Polynom.Mul | src/polynomials.rs:117-131 | the double loop leaves sum over i + j = k of a_i * b_j in slot k of the zeroed buffer of length deg a + deg b + 1; the result is that buffer trimmed |
| Polynomials.ProductWithZero | src/polynomials.rs:117-131 | zero() * p and p * zero() are both zero() after trimming |
| Polynomials.ProductOfMonomials | src/polynomials.rs:117-131 | single(m) * single(n) == single(m + n) |
| Polynomials.ProductByConstant | src/polynomials.rs:117-131 | for a canonical p and c != 0.0, p * [c] == p.by(c) |
| Polynomials.ProductDegree | src/polynomials.rs:121-129 | with non-zero leading coefficients, the degrees add and the leading coefficient is the product of the leading coefficients |
| Polynomials.ConvolutionCommutes | src/polynomials.rs:124-128 | the sum of a_i * b_j over i + j = k does not depend on the order of the operands |
| Polynomials.ProductCommutes | src/polynomials.rs:117-131 | a * b == b * a |
| Polynomials.RowSumConstant | src/polynomials.rs:124-128 | against a constant [c], only row k reaches slot k, contributing a_k * c |
| PolynomialDisplay.NatToString | src/polynomials.rs:83 | the exponent is written with decimal digits only, at least one, and no leading zero unless it is 0 |
| PolynomialDisplay.NatToStringRoundTrip | src/polynomials.rs:83 | reading the decimal text of n back gives n |
| PolynomialDisplay.PushTerm | src/polynomials.rs:68-85 | one loop iteration appends exactly the text of one term to the string |
| PolynomialDisplay.Fmt | src/polynomials.rs:63-91 | the text is every term from the degree down to 0, or "0" when nothing was written |
| PolynomialDisplay.TermSign | src/polynomials.rs:69-74 | a zero coefficient writes nothing; a non-zero term starts with '-' exactly when negative and with '+' exactly when positive and below the degree |
| PolynomialDisplay.TermsEmptyIff | src/polynomials.rs:67-86 | no text is written from index lo up if and only if every coefficient from lo up is zero |
| PolynomialDisplay.RenderedZeroIff | src/polynomials.rs:87-89 | the text falls back to "0" if and only if every coefficient is zero |
| PolynomialDisplay.TermsSkipZeros | src/polynomials.rs:69 | zero coefficients add nothing to the text |
| PolynomialDisplay.TermsStartWithLeading | src/polynomials.rs:67-74 | the text begins with the leading term once that term is written |
| PolynomialDisplay.CanonicalRenderedUnsigned | src/polynomials.rs:70-74 | a canonical polynomial's text never starts with '+' |
| PolynomialDisplay.NonCanonicalRenderedWithPlus | src/polynomials.rs:70-72 | the non-canonical vector [1.0, 0.0], which + can produce, is rendered "+1" |
| PolynomialDisplay.MonomialRendered | src/polynomials.rs:75-84 | single(n) is written "X^n", "X" or the constant 1: the unit magnitude is left out when X is present |
| PolynomialTests.AddZeroToZero | src/polynomials.rs:137-143 | zero() + zero() == zero() |
| PolynomialTests.AddZeroToSingle | src/polynomials.rs:145-151 | zero() + single(3) == single(3) |
| PolynomialTests.AddSingleToSingle | src/polynomials.rs:153-160 | single(3) + single(3) == single(3).by(2.0) |
| PolynomialTests.MultiplySimpleCases | src/polynomials.rs:162-172 | zero() * single(1) == zero(); single(2) * single(3) == single(5); single(2).plus(1) * zero().plus(5) == single(2).plus(1).by(5) |
| PolynomialTests.SetNextOne | src/polynomials.rs:186-188 | one iteration of the test loop, set_at(k - 1, 1.0), extends the run of ones below index k by one and trims nothing |
| PolynomialTests.OnesBelow | src/polynomials.rs:185-188 | after set_at(i, 1.0) for i in 0..k on single(n), indices below k and index n hold 1.0, the rest 0.0 |
| PolynomialTests.ValidPolynomes | src/polynomials.rs:174-190 | zero().plus(0) == zero(); single(1).plus(-1) == zero().plus(-1); [0,-1].plus(1) == [1]; the set_at loop on single(10) yields eleven 1.0 |
| PolynomialTests.MixedTerms | src/polynomials.rs:194 | the terms of -4, 3, -2 and -1 at degrees 5, 4, 1 and 0 are written "-4X^5", "+3X^4", "-2X" and "-1" |
| PolynomialTests.TestFormatMixedSigns | src/polynomials.rs:194 | [-1,-2,0,0,3,-4] is rendered "-4X^5+3X^4-2X-1" |
| PolynomialTests.TestFormatZero | src/polynomials.rs:196 | zero() is rendered "0" |
| PolynomialTests.TestFormatMonomial | src/polynomials.rs:198 | single(2) is rendered "X^2" |
| PolynomialTests.ScaledShiftedValue | src/polynomials.rs:200 | single(2).by(2).plus(-1).by(-0.5) has the coefficients [0.5, 0.5, -0.5] |
| PolynomialTests.HalfTerms | src/polynomials.rs:200 | the terms of -0.5, 0.5 and 0.5 at degrees 2, 1 and 0 are written "-0.5X^2", "+0.5X" and "+0.5" |
| PolynomialTests.TestFormatScaled | src/polynomials.rs:200 | single(2).by(2).plus(-1).by(-0.5) is rendered "-0.5X^2+0.5X+0.5" |

## Left out

- `next`, `root`, `EPSILON` and `MAX_ITERATIONS` (src/main.rs:15-37): Newton iteration on `f64`. It stops on a relative change of 1e-20, and that convergence cannot be stated faithfully over `real`.
- `main` and `TestCase` (src/main.rs:39-78): a demonstration driver that only builds vectors and prints. This includes its use of `power` as the expected value `x^y` for `y` in 2..=10.
- IEEE behaviour of coefficients: rounding of `+=` and `*=`, NaN, infinities, and `-0.0 == 0.0` in `trim`. Coefficients are exact reals.
- Power.Power: does not model `f64` rounding or overflow to infinity of `result *= y` and `y *= y` (src/main.rs:7, 9); the result is the exact real x^n.
- `f64::to_string` (src/polynomials.rs:76) is foreign formatting code. It is the parameter `show`. The general rendering lemmas assume only that it writes some text without a leading sign (`ShowsUnsigned`); the lemmas for the `test_format` cases (`MixedTerms`, `TestFormatMixedSigns`, `HalfTerms`, `TestFormatScaled`) also require the concrete texts it gives for the magnitudes involved, such as `show(4.0) == "4"` and `show(0.5) == "0.5"`.
- `write!` into the `fmt::Formatter` (src/polynomials.rs:90): `Fmt` returns the string, and the formatter's error path is not modelled.
- Integer width: `usize` overflow of `n + 1` in `single(n)` and of `deg a + deg b` in `*` is not modelled; exponents and indices are unbounded `nat`.
- Ownership: `self` is moved into each consuming operation. The model copies the coefficients into a fresh buffer. No other holder of the value exists in the source, so nothing observable is lost.
- The `Debug` and `PartialEq` derives: equality of polynomials is equality of the datatype values, that is, of their coefficient sequences.
- Panics: the `assert!`s of `initialize`, and out-of-range indices in `at` and `set_at`, are preconditions. No model operation can reach them.
