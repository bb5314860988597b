/** Text rendering of polynomials (`impl fmt::Display for Polynom` in src/polynomials.rs).
    Formatting a coefficient magnitude (`f64::to_string`) is a parameter `show`;
    formatting an exponent (`usize::to_string`) is decimal notation, written out here. */
module PolynomialDisplay {
  import opened Polynomials

  function Abs(x: real): (r: real)
    ensures r >= 0.0 && (r == x || r == -x)
  {
    if x < 0.0 then -x else x
  }

  function DigitChar(d: nat): (c: char)
    requires d < 10
    ensures '0' <= c <= '9'
  {
    ('0' as int + d) as char
  }

  predicate IsDigits(s: string)
  {
    forall k :: 0 <= k < |s| ==> '0' <= s[k] <= '9'
  }

  /** Decimal notation of a natural number: digits only, no leading zero except for 0 itself. */
  function NatToString(n: nat): (s: string)
    ensures |s| >= 1 && IsDigits(s)
    ensures s[0] == '0' ==> n == 0
  {
    if n < 10 then [DigitChar(n)] else NatToString(n / 10) + [DigitChar(n % 10)]
  }

  /** Value of a string of decimal digits, most significant first. */
  function DecimalValue(s: string): nat
    requires IsDigits(s)
  {
    if s == [] then 0 else 10 * DecimalValue(s[..|s| - 1]) + (s[|s| - 1] as int - '0' as int)
  }

  /** Reading back the decimal notation of n gives n. */
  lemma {:induction false} NatToStringRoundTrip(n: nat)
    ensures DecimalValue(NatToString(n)) == n
  {
    var s := NatToString(n);
    if n >= 10 {
      NatToStringRoundTrip(n / 10);
      assert s[..|s| - 1] == NatToString(n / 10);
    }
  }

  /** Sign written before a non-zero coefficient x of X^i in a polynomial of degree d:
      '+' only before a positive term below the degree, '-' before every negative term. */
  function SignText(x: real, i: nat, d: nat): string
  {
    if i < d && x > 0.0 then "+" else if x < 0.0 then "-" else ""
  }

  /** Magnitude of a non-zero coefficient, left out when it is 1 in a term with X. */
  function MagnitudeText(x: real, i: nat, show: real -> string): string
  {
    if Abs(x) != 1.0 || i == 0 then show(Abs(x)) else ""
  }

  /** `X` from degree 1, then `^i` from degree 2. */
  function PowerText(i: nat): string
  {
    if i > 1 then "X^" + NatToString(i) else if i == 1 then "X" else ""
  }

  /** Text pushed for the coefficient x of X^i of a polynomial of degree d; nothing when x is zero. */
  function Term(x: real, i: nat, d: nat, show: real -> string): string
  {
    if x == 0.0 then "" else SignText(x, i, d) + MagnitudeText(x, i, show) + PowerText(i)
  }

  /** Text of the coefficients from the degree down to lo, highest degree first. */
  function TermsDownTo(p: Polynom, show: real -> string, lo: nat): string
    requires lo <= |p.coefficients|
    decreases |p.coefficients| - lo
  {
    if lo == |p.coefficients| then ""
    else TermsDownTo(p, show, lo + 1) + Term(p.coefficients[lo], lo, p.Degree(), show)
  }

  /** What `format!("{}", p)` produces: all terms, or "0" when none is written. */
  function Rendered(p: Polynom, show: real -> string): string
  {
    var body := TermsDownTo(p, show, 0);
    if body == [] then "0" else body
  }

  /** Regrouping of the pushes of one term: PushTerm appends the sign, the magnitude and the
      power one after another, and its contract appends the term as a whole. */
  lemma AppendAssoc(a: string, b: string, c: string, e: string)
    ensures ((a + b) + c) + e == a + ((b + c) + e)
  {
  }

  /** One iteration of the loop of `fmt`: pushes the text of coefficient x of X^i onto res. */
  method PushTerm(res: string, x: real, i: nat, d: nat, show: real -> string) returns (out: string)
    ensures out == res + Term(x, i, d, show)
  {
    out := res;
    if x != 0.0 {
      if i < d && x > 0.0 {
        out := out + "+";
      } else if x < 0.0 {
        out := out + "-";
      }
      assert out == res + SignText(x, i, d);
      ghost var signed := out;
      if Abs(x) != 1.0 || i == 0 {
        out := out + show(Abs(x));
      }
      assert out == signed + MagnitudeText(x, i, show);
      ghost var magnitude := out;
      if i > 0 {
        out := out + "X";
      }
      if i > 1 {
        out := out + "^";
        out := out + NatToString(i);
      }
      assert out == magnitude + PowerText(i);
      AppendAssoc(res, SignText(x, i, d), MagnitudeText(x, i, show), PowerText(i));
    }
  }

  /** `fmt`: walks the coefficients from the degree down to 0, pushing onto a string. */
  method Fmt(p: Polynom, show: real -> string) returns (s: string)
    ensures s == Rendered(p, show)
  {
    var res := "";
    var d := p.Degree();
    for i := d + 1 downto 0
      invariant res == TermsDownTo(p, show, i)
    {
      res := PushTerm(res, p.coefficients[i], i, d, show);
    }
    if |res| == 0 {
      res := "0";
    }
    s := res;
  }

  /** Formatter properties the source relies on from `f64::to_string` of a positive number:
      some text, not starting with a sign. */
  ghost predicate ShowsUnsigned(show: real -> string)
  {
    forall y :: 0.0 < y ==> |show(y)| > 0 && show(y)[0] != '+' && show(y)[0] != '-'
  }

  /** A zero coefficient writes nothing; a non-zero one writes a term that starts with
      '-' exactly when the coefficient is negative and with '+' exactly when it is
      positive and below the degree. */
  lemma TermSign(x: real, i: nat, d: nat, show: real -> string)
    requires ShowsUnsigned(show)
    ensures x == 0.0 <==> Term(x, i, d, show) == ""
    ensures x != 0.0 ==> (Term(x, i, d, show)[0] == '-' <==> x < 0.0)
    ensures x != 0.0 ==> (Term(x, i, d, show)[0] == '+' <==> i < d && x > 0.0)
  {
    if x != 0.0 {
      var sign, mag, pow := SignText(x, i, d), MagnitudeText(x, i, show), PowerText(i);
      assert |mag + pow| > 0;
      if sign == "" {
        assert Term(x, i, d, show) == mag + pow;
      }
    }
  }

  /** No term is written exactly when every coefficient from lo up is zero. */
  lemma {:induction false} TermsEmptyIff(p: Polynom, show: real -> string, lo: nat)
    requires ShowsUnsigned(show) && lo <= |p.coefficients|
    ensures TermsDownTo(p, show, lo) == "" <==> forall k :: lo <= k < |p.coefficients| ==> p.coefficients[k] == 0.0
    decreases |p.coefficients| - lo
  {
    if lo < |p.coefficients| {
      TermsEmptyIff(p, show, lo + 1);
      TermSign(p.coefficients[lo], lo, p.Degree(), show);
    }
  }

  /** The rendering falls back to "0" exactly when every coefficient is zero. */
  lemma RenderedZeroIff(p: Polynom, show: real -> string)
    requires ShowsUnsigned(show)
    ensures TermsDownTo(p, show, 0) == "" <==> forall k :: 0 <= k < |p.coefficients| ==> p.coefficients[k] == 0.0
    ensures (forall k :: 0 <= k < |p.coefficients| ==> p.coefficients[k] == 0.0) ==> Rendered(p, show) == "0"
  {
    TermsEmptyIff(p, show, 0);
  }

  /** Zero coefficients below hi add nothing to the text. */
  lemma {:induction false} TermsSkipZeros(p: Polynom, show: real -> string, lo: nat, hi: nat)
    requires lo <= hi <= |p.coefficients|
    requires forall k :: lo <= k < hi ==> p.coefficients[k] == 0.0
    ensures TermsDownTo(p, show, lo) == TermsDownTo(p, show, hi)
    decreases hi - lo
  {
    if lo < hi {
      TermsSkipZeros(p, show, lo + 1, hi);
      assert Term(p.coefficients[lo], lo, p.Degree(), show) == "";
      assert TermsDownTo(p, show, lo) == TermsDownTo(p, show, lo + 1) + "";
    }
  }

  /** Once the leading term is written, the text keeps starting with it. */
  lemma {:induction false} TermsStartWithLeading(p: Polynom, show: real -> string, lo: nat)
    requires lo <= p.Degree()
    requires Term(p.coefficients[p.Degree()], p.Degree(), p.Degree(), show) != ""
    ensures TermsDownTo(p, show, lo) != ""
    ensures TermsDownTo(p, show, lo)[0] == Term(p.coefficients[p.Degree()], p.Degree(), p.Degree(), show)[0]
    decreases p.Degree() - lo
  {
    if lo < p.Degree() {
      TermsStartWithLeading(p, show, lo + 1);
    } else {
      assert TermsDownTo(p, show, lo) == "" + Term(p.coefficients[lo], lo, p.Degree(), show);
    }
  }

  /** A canonical polynomial is rendered starting with its leading term, which carries no '+'. */
  lemma CanonicalRenderedUnsigned(p: Polynom, show: real -> string)
    requires ShowsUnsigned(show) && p.Canonical()
    ensures Rendered(p, show)[0] != '+'
  {
    var d := p.Degree();
    TermSign(p.coefficients[d], d, d, show);
    if p.coefficients[d] != 0.0 {
      TermsStartWithLeading(p, show, 0);
    } else {
      assert TermsDownTo(p, show, 0) == TermsDownTo(p, show, 1) + "";
    }
  }

  /** Because `+` and `by` do not trim, a non-canonical vector can reach `fmt`, and then
      the first written term may carry a '+': [1, 0] renders as "+1". */
  lemma NonCanonicalRenderedWithPlus(show: real -> string)
    requires show(1.0) == "1"
    ensures Rendered(Polynom([1.0, 0.0]), show) == "+1"
  {
    var p := Polynom([1.0, 0.0]);
    assert TermsDownTo(p, show, 2) == "";
    assert TermsDownTo(p, show, 1) == "";
    assert TermsDownTo(p, show, 0) == "" + "+1";
  }

  /** The monomial X^n is written without its coefficient: "X^n", "X", or the constant 1. */
  lemma MonomialRendered(n: nat, show: real -> string)
    requires ShowsUnsigned(show)
    ensures Rendered(Polynom.Single(n), show) ==
      if n > 1 then "X^" + NatToString(n) else if n == 1 then "X" else show(1.0)
  {
    var p := Polynom.Single(n);
    TermsSkipZeros(p, show, 0, n);
    assert TermsDownTo(p, show, n) == "" + Term(1.0, n, n, show);
  }
}
