/** The unit tests of src/polynomials.rs, stated as lemmas about the model. */
module PolynomialTests {
  import opened Polynomials
  import opened PolynomialDisplay

  lemma AddZeroToZero()
    ensures Polynom.Zero().Add(Polynom.Zero()) == Polynom.Zero()
  {
    AddZero(Polynom.Zero());
  }

  lemma AddZeroToSingle()
    ensures Polynom.Zero().Add(Polynom.Single(3)) == Polynom.Single(3)
  {
    AddZero(Polynom.Single(3));
  }

  lemma AddSingleToSingle()
    ensures Polynom.Single(3).Add(Polynom.Single(3)) == Polynom.Single(3).Scaled(2.0)
  {
    AddSelf(Polynom.Single(3));
  }

  lemma MultiplySimpleCases()
    ensures Polynom.Zero().Product(Polynom.Single(1)) == Polynom.Zero()
    ensures Polynom.Single(2).Product(Polynom.Single(3)) == Polynom.Single(5)
    ensures Polynom.Single(2).Shifted(1.0).Product(Polynom.Zero().Shifted(5.0))
         == Polynom.Single(2).Shifted(1.0).Scaled(5.0)
  {
    ProductWithZero(Polynom.Single(1));
    ProductOfMonomials(2, 3);
    assert Polynom.Zero().Shifted(5.0) == Polynom.Initialize([5.0]);
    ProductByConstant(Polynom.Single(2).Shifted(1.0), 5.0);
  }

  /** Coefficients of X^n once the ones below index k have been set. */
  ghost predicate OnesBelowShape(p: Polynom, n: nat, k: nat)
  {
    |p.coefficients| == n + 1 &&
    forall i :: 0 <= i <= n ==> p.coefficients[i] == if i < k || i == n then 1.0 else 0.0
  }

  /** One iteration of the test loop: `set_at(k - 1, 1.0)` extends the run of ones by one. */
  lemma SetNextOne(q: Polynom, n: nat, k: nat)
    requires 0 < k <= n && OnesBelowShape(q, n, k - 1)
    ensures k - 1 <= q.Degree() && OnesBelowShape(q.Updated(k - 1, 1.0), n, k)
  {
    assert q.Degree() == n && q.coefficients[n] == 1.0;
    UpdatedBelowDegree(q, k - 1, 1.0);
  }

  /** The value of `single(n)` after the test loop `p = p.set_at(i, 1.0)` for i in 0..k. */
  function OnesBelow(n: nat, k: nat): (p: Polynom)
    requires k <= n
    ensures OnesBelowShape(p, n, k)
  {
    if k == 0 then
      var x := Polynom.Single(n);
      assert forall i :: 0 <= i <= n ==> x.coefficients[i] == x.At(i);
      x
    else
      var q := OnesBelow(n, k - 1);
      SetNextOne(q, n, k);
      q.Updated(k - 1, 1.0)
  }

  lemma ValidPolynomes()
    ensures Polynom.Zero().Shifted(0.0) == Polynom.Zero()
    ensures Polynom.Single(1).Shifted(-1.0) == Polynom.Zero().Shifted(-1.0)
    ensures Polynom.Initialize([0.0, -1.0]).Shifted(1.0) == Polynom.Initialize([1.0])
    ensures OnesBelow(10, 10) == Polynom.Initialize(seq(11, _ => 1.0))
  {
    ShiftedByZero(Polynom.Zero());
    assert Polynom.Single(1).Shifted(-1.0).coefficients == Trimmed([-1.0, 0.0]);
    assert Polynom.Initialize([0.0, -1.0]).Shifted(1.0).coefficients == Trimmed([1.0, 0.0]);
  }

  /** The four terms written for -4X^5 + 3X^4 - 2X - 1. */
  lemma MixedTerms(show: real -> string)
    requires show(4.0) == "4" && show(3.0) == "3" && show(2.0) == "2" && show(1.0) == "1"
    ensures Term(-4.0, 5, 5, show) == "-4X^5"
    ensures Term(3.0, 4, 5, show) == "+3X^4"
    ensures Term(-2.0, 1, 5, show) == "-2X"
    ensures Term(-1.0, 0, 5, show) == "-1"
  {
    assert PowerText(5) == "X^5" by { assert NatToString(5) == "5"; }
    assert PowerText(4) == "X^4" by { assert NatToString(4) == "4"; }
    assert Term(-4.0, 5, 5, show) == "-" + "4" + "X^5";
    assert Term(3.0, 4, 5, show) == "+" + "3" + "X^4";
    assert Term(-2.0, 1, 5, show) == "-" + "2" + "X";
    assert Term(-1.0, 0, 5, show) == "-" + "1" + "";
  }

  /** `test_format`, first assertion: signs, omitted unit magnitudes and skipped zeros. */
  lemma TestFormatMixedSigns(show: real -> string)
    requires show(4.0) == "4" && show(3.0) == "3" && show(2.0) == "2" && show(1.0) == "1"
    ensures Rendered(Polynom.Initialize([-1.0, -2.0, 0.0, 0.0, 3.0, -4.0]), show) == "-4X^5+3X^4-2X-1"
  {
    var p := Polynom.Initialize([-1.0, -2.0, 0.0, 0.0, 3.0, -4.0]);
    MixedTerms(show);
    assert p.Degree() == 5;
    assert TermsDownTo(p, show, 5) == "" + "-4X^5";
    assert TermsDownTo(p, show, 4) == "-4X^5" + "+3X^4";
    assert TermsDownTo(p, show, 2) == TermsDownTo(p, show, 4) + "" + "";
    assert TermsDownTo(p, show, 1) == "-4X^5+3X^4" + "-2X";
    assert TermsDownTo(p, show, 0) == "-4X^5+3X^4-2X" + "-1";
  }

  /** `test_format`, second assertion. */
  lemma TestFormatZero(show: real -> string)
    ensures Rendered(Polynom.Zero(), show) == "0"
  {
    assert TermsDownTo(Polynom.Zero(), show, 0) == "" + "";
  }

  /** `test_format`, third assertion. */
  lemma TestFormatMonomial(show: real -> string)
    ensures Rendered(Polynom.Single(2), show) == "X^2"
  {
    var x2 := Polynom.Single(2);
    assert PowerText(2) == "X^2" by { assert NatToString(2) == "2"; }
    assert Term(1.0, 2, 2, show) == "" + "" + "X^2";
    assert x2.coefficients[0] == x2.At(0) && x2.coefficients[1] == x2.At(1);
    TermsSkipZeros(x2, show, 0, 2);
    assert TermsDownTo(x2, show, 2) == "" + Term(x2.coefficients[2], 2, x2.Degree(), show);
  }

  /** The polynomial of the last assertion of `test_format`: -0.5X^2 + 0.5X + 0.5. */
  lemma ScaledShiftedValue()
    ensures Polynom.Single(2).Scaled(2.0).Shifted(-1.0).Scaled(-0.5).coefficients == [0.5, 0.5, -0.5]
  {
    assert Polynom.Single(2).Scaled(2.0).coefficients == [0.0, 0.0, 2.0];
    TrimmedCanonical([-1.0, -1.0, 1.0]);
    assert Polynom.Single(2).Scaled(2.0).Shifted(-1.0).coefficients == [-1.0, -1.0, 1.0];
  }

  /** The three terms of -0.5X^2 + 0.5X + 0.5. */
  lemma HalfTerms(show: real -> string)
    requires show(0.5) == "0.5"
    ensures Term(-0.5, 2, 2, show) == "-0.5X^2"
    ensures Term(0.5, 1, 2, show) == "+0.5X"
    ensures Term(0.5, 0, 2, show) == "+0.5"
  {
    assert PowerText(2) == "X^2" by { assert NatToString(2) == "2"; }
    assert Term(-0.5, 2, 2, show) == "-" + "0.5" + "X^2";
    assert Term(0.5, 1, 2, show) == "+" + "0.5" + "X";
    assert Term(0.5, 0, 2, show) == "+" + "0.5" + "";
  }

  /** `test_format`, last assertion: a polynomial built by `by` and `plus`. */
  lemma TestFormatScaled(show: real -> string)
    requires show(0.5) == "0.5"
    ensures Rendered(Polynom.Single(2).Scaled(2.0).Shifted(-1.0).Scaled(-0.5), show) == "-0.5X^2+0.5X+0.5"
  {
    var q := Polynom.Single(2).Scaled(2.0).Shifted(-1.0).Scaled(-0.5);
    ScaledShiftedValue();
    HalfTerms(show);
    assert TermsDownTo(q, show, 2) == "" + "-0.5X^2";
    assert TermsDownTo(q, show, 1) == "-0.5X^2" + "+0.5X";
    assert TermsDownTo(q, show, 0) == "-0.5X^2+0.5X" + "+0.5";
  }
}
