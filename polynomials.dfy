/** Dense polynomials over the reals (`Polynom` in src/polynomials.rs).
    Index i of the coefficient vector holds the coefficient of X^i. */
module Polynomials {

  /** A coefficient vector. Every constructor and operation of the source yields at
      least one coefficient, which `degree()` (length - 1) relies on. */
  type Coefficients = c: seq<real> | |c| >= 1 witness [0.0]

  /** Canonical form: one coefficient, or a non-zero highest coefficient. */
  predicate IsCanonical(c: Coefficients)
  {
    |c| == 1 || c[|c| - 1] != 0.0
  }

  /** `trim` as a value: drop trailing exact zeros while more than one coefficient remains. */
  function Trimmed(s: Coefficients): (t: Coefficients)
    ensures |t| <= |s| && t == s[..|t|]
    ensures forall k :: |t| <= k < |s| ==> s[k] == 0.0
    ensures IsCanonical(t)
  {
    if |s| > 1 && s[|s| - 1] == 0.0 then Trimmed(s[..|s| - 1]) else s
  }

  /** Trimming is determined by its three properties: a canonical prefix that drops only zeros. */
  lemma TrimmedUnique(s: Coefficients, t: Coefficients)
    requires |t| <= |s| && t == s[..|t|]
    requires forall k :: |t| <= k < |s| ==> s[k] == 0.0
    requires IsCanonical(t)
    ensures t == Trimmed(s)
  {
    var u := Trimmed(s);
    if |u| > 1 { assert s[|u| - 1] == u[|u| - 1] != 0.0; }
    if |t| > 1 { assert s[|t| - 1] == t[|t| - 1] != 0.0; }
  }

  /** A canonical vector is left alone by trimming, so trimming is idempotent. */
  lemma TrimmedCanonical(s: Coefficients)
    requires IsCanonical(s)
    ensures Trimmed(s) == s
  {
  }

  lemma TrimmedIdempotent(s: Coefficients)
    ensures Trimmed(Trimmed(s)) == Trimmed(s)
  {
    TrimmedCanonical(Trimmed(s));
  }

  /** A vector of zeros trims to the zero polynomial's single coefficient. */
  lemma TrimmedAllZero(s: Coefficients)
    requires forall k :: 0 <= k < |s| ==> s[k] == 0.0
    ensures Trimmed(s) == [0.0]
  {
    var t := Trimmed(s);
    assert t[0] == s[0];
  }

  function Max(a: nat, b: nat): nat
  {
    if a >= b then a else b
  }

  /** `k`-th term of the convolution contributed by row `i` of the double loop of `mul`. */
  function ProductTerm(a: Coefficients, b: Coefficients, i: nat, k: nat): real
    requires i < |a|
  {
    if i <= k < i + |b| then a[i] * b[k - i] else 0.0
  }

  /** Sum of a[i] * b[k - i] over the rows i < n, accumulated in the order of `mul`. */
  function RowSum(a: Coefficients, b: Coefficients, k: nat, n: nat): real
    requires n <= |a|
  {
    if n == 0 then 0.0 else RowSum(a, b, k, n - 1) + ProductTerm(a, b, n - 1, k)
  }

  /** Coefficient vector of a * b before trimming: index k holds the sum of a[i] * b[j] over i + j = k. */
  function Convolution(a: Coefficients, b: Coefficients): (c: Coefficients)
  {
    seq(|a| + |b| - 1, k requires 0 <= k => RowSum(a, b, k, |a|))
  }

  /** Inner loop of `mul` for row i: adds a[i] * b[j] into buf[i + j] for every j,
      so that every entry of buf then holds the sum over the rows up to i. */
  method AccumulateRow(buf: array<real>, a: Coefficients, b: Coefficients, i: nat)
    requires i < |a| && buf.Length == |a| + |b| - 1
    requires forall k :: 0 <= k < buf.Length ==> buf[k] == RowSum(a, b, k, i)
    modifies buf
    ensures forall k :: 0 <= k < buf.Length ==> buf[k] == RowSum(a, b, k, i + 1)
  {
    for j := 0 to |b|
      invariant forall k :: 0 <= k < buf.Length ==>
        buf[k] == RowSum(a, b, k, i) + (if i <= k < i + j then a[i] * b[k - i] else 0.0)
    {
      buf[i + j] := buf[i + j] + a[i] * b[j];
    }
  }

  datatype Polynom = Polynom(coefficients: Coefficients)
  {
    predicate Canonical()
    {
      IsCanonical(coefficients)
    }

    /** `zero()`: the canonical zero polynomial. */
    static function Zero(): (p: Polynom)
      ensures p.Canonical() && p.Degree() == 0 && p.At(0) == 0.0
    {
      Polynom([0.0])
    }

    /** `single(n)`: the monomial X^n. */
    static function Single(n: nat): (p: Polynom)
      ensures p.Canonical() && p.Degree() == n
      ensures p.At(n) == 1.0 && forall i :: 0 <= i < n ==> p.At(i) == 0.0
    {
      Polynom(seq(n + 1, i requires 0 <= i => if i < n then 0.0 else 1.0))
    }

    /** `initialize(coefs)`: the caller must already supply a canonical, non-empty vector. */
    static function Initialize(coefs: seq<real>): (p: Polynom)
      requires |coefs| > 0
      requires coefs[|coefs| - 1] != 0.0
      ensures p.Canonical() && p.coefficients == coefs
    {
      Polynom(coefs)
    }

    /** `degree()`: for a canonical polynomial, the index of the highest non-zero
        coefficient (or 0), beyond which every coefficient is zero. */
    function Degree(): (d: nat)
      ensures Canonical() ==> d == 0 || Coef(d) != 0.0
      ensures forall k :: d < k ==> Coef(k) == 0.0
    {
      |coefficients| - 1
    }

    /** Coefficient of X^i, zero beyond the stored vector. */
    function Coef(i: nat): real
    {
      if i < |coefficients| then coefficients[i] else 0.0
    }

    /** `at(i)`: out-of-range indices panic in the source. */
    function At(i: nat): (x: real)
      requires i <= Degree()
      ensures x == Coef(i)
    {
      coefficients[i]
    }

    /** Value of `set_at(i, v)`: canonical again, and never of higher degree. */
    function Updated(i: nat, v: real): (r: Polynom)
      requires i <= Degree()
      ensures r.Canonical() && r.Degree() <= Degree()
    {
      Polynom(Trimmed(coefficients[i := v]))
    }

    /** Value of `plus(x)`: canonical again, and never of higher degree. */
    function Shifted(x: real): (r: Polynom)
      ensures r.Canonical() && r.Degree() <= Degree()
    {
      Polynom(Trimmed(seq(|coefficients|, i requires 0 <= i < |coefficients| => coefficients[i] + x)))
    }

    /** Value of `by(x)`: no trimming. */
    function Scaled(x: real): Polynom
    {
      Polynom(seq(|coefficients|, i requires 0 <= i < |coefficients| => coefficients[i] * x))
    }

    /** Value of `self * rhs`: canonical, of degree at most deg self + deg rhs. */
    function Product(rhs: Polynom): (r: Polynom)
      ensures r.Canonical() && r.Degree() <= Degree() + rhs.Degree()
    {
      Polynom(Trimmed(Convolution(coefficients, rhs.coefficients)))
    }

    /** `self + rhs`: the operand of lower degree is added into the other one; no trimming. */
    function Add(rhs: Polynom): (r: Polynom)
      ensures r.Degree() == Max(Degree(), rhs.Degree())
      ensures forall i :: 0 <= i <= r.Degree() ==> r.At(i) == Coef(i) + rhs.Coef(i)
    {
      var (lo, hi) := if Degree() >= rhs.Degree() then (rhs, this) else (this, rhs);
      Polynom(seq(hi.Degree() + 1, i requires 0 <= i <= hi.Degree() =>
        if i <= lo.Degree() then lo.coefficients[i] + hi.coefficients[i] else hi.coefficients[i]))
    }

    /** `trim(self)`: pops trailing zeros off the vector. */
    method Trim() returns (r: Polynom)
      ensures r.coefficients == Trimmed(coefficients)
    {
      var c := coefficients;
      while |c| > 1 && c[|c| - 1] == 0.0
        invariant Trimmed(c) == Trimmed(coefficients)
        decreases |c|
      {
        c := c[..|c| - 1];
      }
      r := Polynom(c);
    }

    /** `set_at(self, i, v)`: writes slot i of the owned buffer, then trims. */
    method SetAt(i: nat, v: real) returns (r: Polynom)
      requires i <= Degree()
      ensures r == Updated(i, v)
    {
      var buf := new real[|coefficients|](k requires 0 <= k < |coefficients| => coefficients[k]);
      buf[i] := v;
      assert buf[..] == coefficients[i := v];
      r := Polynom(buf[..]).Trim();
    }

    /** `plus(self, x)`: adds x to every slot of the owned buffer, then trims. */
    method Plus(x: real) returns (r: Polynom)
      ensures r == Shifted(x)
    {
      var buf := new real[|coefficients|](k requires 0 <= k < |coefficients| => coefficients[k]);
      for i := 0 to buf.Length
        invariant forall k :: 0 <= k < i ==> buf[k] == coefficients[k] + x
        invariant forall k :: i <= k < buf.Length ==> buf[k] == coefficients[k]
      {
        buf[i] := buf[i] + x;
      }
      assert buf[..] == seq(|coefficients|, k requires 0 <= k < |coefficients| => coefficients[k] + x);
      r := Polynom(buf[..]).Trim();
    }

    /** `by(self, x)`: multiplies every slot of the owned buffer by x; does not trim. */
    method By(x: real) returns (r: Polynom)
      ensures r == Scaled(x)
    {
      var buf := new real[|coefficients|](k requires 0 <= k < |coefficients| => coefficients[k]);
      for i := 0 to buf.Length
        invariant forall k :: 0 <= k < i ==> buf[k] == coefficients[k] * x
        invariant forall k :: i <= k < buf.Length ==> buf[k] == coefficients[k]
      {
        buf[i] := buf[i] * x;
      }
      ghost var scaled := Scaled(x).coefficients;
      assert |buf[..]| == |scaled|;
      assert forall k :: 0 <= k < |scaled| ==> buf[..][k] == scaled[k];
      r := Polynom(buf[..]);
    }

    /** `self * rhs`: accumulates every a[i] * b[j] into slot i + j of a zeroed buffer
        of length deg a + deg b + 1 (built as `single(d)` with its 1 overwritten), then trims. */
    method Mul(rhs: Polynom) returns (r: Polynom)
      ensures r == Product(rhs)
    {
      var a, b := coefficients, rhs.coefficients;
      var d := Degree() + rhs.Degree();
      var single := Single(d).coefficients;
      var buf := new real[d + 1](k requires 0 <= k <= d => single[k]);
      buf[d] := 0.0;
      for i := 0 to |a|
        invariant forall k :: 0 <= k < buf.Length ==> buf[k] == RowSum(a, b, k, i)
      {
        AccumulateRow(buf, a, b, i);
      }
      assert buf[..] == Convolution(a, b);
      r := Polynom(buf[..]).Trim();
    }
  }

  /** Below the degree, `set_at` on a canonical polynomial changes exactly one slot and keeps the degree. */
  lemma UpdatedBelowDegree(p: Polynom, i: nat, v: real)
    requires p.Canonical() && i < p.Degree()
    ensures p.Updated(i, v).coefficients == p.coefficients[i := v]
  {
    TrimmedCanonical(p.coefficients[i := v]);
  }

  /** Zeroing the leading coefficient of a polynomial of positive degree lowers the degree. */
  lemma UpdatedLeadingToZero(p: Polynom)
    requires p.Degree() > 0
    ensures p.Updated(p.Degree(), 0.0).Degree() < p.Degree()
  {
  }

  /** `plus(0.0)` leaves a canonical polynomial unchanged. */
  lemma ShiftedByZero(p: Polynom)
    requires p.Canonical()
    ensures p.Shifted(0.0) == p
  {
    var c := p.coefficients;
    assert seq(|c|, i requires 0 <= i < |c| => c[i] + 0.0) == c;
    TrimmedCanonical(c);
  }

  /** `by(x)` keeps a canonical polynomial canonical exactly when x is non-zero or the
      degree is 0: `by(0.0)` on a polynomial of positive degree leaves trailing zeros. */
  lemma ScaledCanonicalIff(p: Polynom, x: real)
    requires p.Canonical()
    ensures p.Scaled(x).Canonical() <==> (x != 0.0 || p.Degree() == 0)
  {
    var d := p.Degree();
    if d > 0 {
      assert p.Scaled(x).coefficients[d] == p.coefficients[d] * x;
    }
  }

  /** `+` does not depend on the order of its operands. */
  lemma AddCommutes(p: Polynom, q: Polynom)
    ensures p.Add(q) == q.Add(p)
  {
    var r, s := p.Add(q), q.Add(p);
    assert forall i :: 0 <= i < |r.coefficients| ==> r.At(i) == s.At(i);
  }

  /** The zero polynomial is a neutral element of `+` on either side. */
  lemma AddZero(p: Polynom)
    ensures p.Add(Polynom.Zero()) == p
    ensures Polynom.Zero().Add(p) == p
  {
    var r, s := p.Add(Polynom.Zero()), Polynom.Zero().Add(p);
    assert forall i :: 0 <= i < |r.coefficients| ==> r.At(i) == p.At(i);
    assert forall i :: 0 <= i < |s.coefficients| ==> s.At(i) == p.At(i);
  }

  /** Adding a polynomial to itself doubles it, without trimming. */
  lemma AddSelf(p: Polynom)
    ensures p.Add(p) == p.Scaled(2.0)
  {
    var r, s := p.Add(p), p.Scaled(2.0);
    assert forall i :: 0 <= i < |r.coefficients| ==> r.At(i) == s.At(i);
  }

  /** The sum of canonical polynomials of different degrees is canonical. */
  lemma AddCanonical(p: Polynom, q: Polynom)
    requires p.Canonical() && q.Canonical() && p.Degree() != q.Degree()
    ensures p.Add(q).Canonical()
  {
    var r := p.Add(q);
    var d := r.Degree();
    assert r.At(d) == p.Coef(d) + q.Coef(d);
  }

  /** `+` does not trim: X + (-X) keeps a zero coefficient of degree 1. */
  lemma AddCancelsLeading()
    ensures Polynom.Single(1).Add(Polynom.Initialize([0.0, -1.0])).coefficients == [0.0, 0.0]
    ensures !Polynom.Single(1).Add(Polynom.Initialize([0.0, -1.0])).Canonical()
  {
    var r := Polynom.Single(1).Add(Polynom.Initialize([0.0, -1.0]));
    assert r.At(0) == 0.0 && r.At(1) == 0.0;
  }

  /** Rows whose coefficient of `a` is zero contribute nothing to the convolution. */
  lemma {:induction false} RowSumZeroRows(a: Coefficients, b: Coefficients, k: nat, n: nat)
    requires n <= |a|
    requires forall i :: 0 <= i < n ==> a[i] == 0.0
    ensures RowSum(a, b, k, n) == 0.0
  {
    if n > 0 {
      RowSumZeroRows(a, b, k, n - 1);
    }
  }

  /** A zero `b` makes every row contribute nothing. */
  lemma {:induction false} RowSumZeroColumns(a: Coefficients, b: Coefficients, k: nat, n: nat)
    requires n <= |a|
    requires forall j :: 0 <= j < |b| ==> b[j] == 0.0
    ensures RowSum(a, b, k, n) == 0.0
  {
    if n > 0 {
      RowSumZeroColumns(a, b, k, n - 1);
    }
  }

  /** Rows i with i + |b| <= k cannot reach index k. */
  lemma {:induction false} RowSumBelowBand(a: Coefficients, b: Coefficients, k: nat, n: nat)
    requires n <= |a| && n + |b| <= k + 1
    ensures RowSum(a, b, k, n) == 0.0
  {
    if n > 0 {
      RowSumBelowBand(a, b, k, n - 1);
    }
  }

  /** Against a constant `[c]`, only row k reaches index k. */
  lemma {:induction false} RowSumConstant(a: Coefficients, c: real, k: nat, n: nat)
    requires n <= |a|
    ensures RowSum(a, [c], k, n) == if k < n then a[k] * c else 0.0
  {
    if n > 0 {
      RowSumConstant(a, c, k, n - 1);
    }
  }

  /** The zero polynomial annihilates on either side of `*`, and the result is trimmed to zero. */
  lemma ProductWithZero(p: Polynom)
    ensures Polynom.Zero().Product(p) == Polynom.Zero()
    ensures p.Product(Polynom.Zero()) == Polynom.Zero()
  {
    var z := Polynom.Zero().coefficients;
    var left := Convolution(z, p.coefficients);
    forall k | 0 <= k < |left| ensures left[k] == 0.0 {
      RowSumZeroRows(z, p.coefficients, k, 1);
    }
    TrimmedAllZero(left);
    var right := Convolution(p.coefficients, z);
    forall k | 0 <= k < |right| ensures right[k] == 0.0 {
      RowSumZeroColumns(p.coefficients, z, k, |p.coefficients|);
    }
    TrimmedAllZero(right);
  }

  /** X^m * X^n == X^(m+n). */
  lemma ProductOfMonomials(m: nat, n: nat)
    ensures Polynom.Single(m).Product(Polynom.Single(n)) == Polynom.Single(m + n)
  {
    var a, b := Polynom.Single(m).coefficients, Polynom.Single(n).coefficients;
    var c, e := Convolution(a, b), Polynom.Single(m + n).coefficients;
    forall k | 0 <= k < |c| ensures c[k] == e[k] {
      RowSumZeroRows(a, b, k, m);
    }
    assert c == e;
    TrimmedCanonical(c);
  }

  /** Multiplying a canonical polynomial by a non-zero constant polynomial is `by`. */
  lemma ProductByConstant(p: Polynom, c: real)
    requires p.Canonical() && c != 0.0
    ensures p.Product(Polynom.Initialize([c])) == p.Scaled(c)
  {
    var conv := Convolution(p.coefficients, [c]);
    var scaled := p.Scaled(c).coefficients;
    forall k | 0 <= k < |conv| ensures conv[k] == scaled[k] {
      RowSumConstant(p.coefficients, c, k, |p.coefficients|);
    }
    assert conv == scaled;
    ScaledCanonicalIff(p, c);
    TrimmedCanonical(conv);
  }

  /** When both leading coefficients are non-zero, the degrees add up and the leading
      coefficient of the product is the product of the leading coefficients. */
  lemma ProductDegree(p: Polynom, q: Polynom)
    requires p.At(p.Degree()) != 0.0 && q.At(q.Degree()) != 0.0
    ensures p.Product(q).Degree() == p.Degree() + q.Degree()
    ensures p.Product(q).At(p.Degree() + q.Degree()) == p.At(p.Degree()) * q.At(q.Degree())
  {
    var a, b := p.coefficients, q.coefficients;
    var conv := Convolution(a, b);
    var top := |a| + |b| - 2;
    RowSumBelowBand(a, b, top, |a| - 1);
    assert conv[top] == a[|a| - 1] * b[|b| - 1];
    TrimmedCanonical(conv);
  }

  /** Rows below n read only the first n coefficients of `a`. */
  lemma {:induction false} RowSumSameRows(a: Coefficients, a2: Coefficients, b: Coefficients, k: nat, n: nat)
    requires n <= |a| && n <= |a2| && a[..n] == a2[..n]
    ensures RowSum(a, b, k, n) == RowSum(a2, b, k, n)
  {
    if n > 0 {
      assert a[..n - 1] == a2[..n - 1];
      assert a[n - 1] == a2[n - 1];
      RowSumSameRows(a, a2, b, k, n - 1);
    }
  }

  /** Appending a coefficient x to the column operand adds the one product b[k - |a|] * x that reaches index k. */
  lemma {:induction false} RowSumAppendColumn(b: Coefficients, a: Coefficients, x: real, k: nat, m: nat)
    requires m <= |b|
    ensures RowSum(b, a + [x], k, m) == RowSum(b, a, k, m) + (if |a| <= k < |a| + m then b[k - |a|] * x else 0.0)
  {
    if m > 0 {
      RowSumAppendColumn(b, a, x, k, m - 1);
    }
  }

  /** The convolution is symmetric: the sum of a[i] * b[j] over i + j = k does not depend on the operand order. */
  lemma {:induction false} ConvolutionCommutes(a: Coefficients, b: Coefficients, k: nat)
    ensures RowSum(a, b, k, |a|) == RowSum(b, a, k, |b|)
    decreases |a|
  {
    if |a| == 1 {
      assert a == [a[0]];
      RowSumConstant(b, a[0], k, |b|);
    } else {
      var n := |a| - 1;
      var front: Coefficients := a[..n];
      assert a == front + [a[n]];
      RowSumSameRows(a, front, b, k, n);
      ConvolutionCommutes(front, b, k);
      RowSumAppendColumn(b, front, a[n], k, |b|);
    }
  }

  /** `*` does not depend on the order of its operands. */
  lemma ProductCommutes(p: Polynom, q: Polynom)
    ensures p.Product(q) == q.Product(p)
  {
    var a, b := p.coefficients, q.coefficients;
    forall k | 0 <= k < |a| + |b| - 1 ensures Convolution(a, b)[k] == Convolution(b, a)[k] {
      ConvolutionCommutes(a, b, k);
    }
    assert Convolution(a, b) == Convolution(b, a);
  }
}
