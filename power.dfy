/** Binary exponentiation of a real base by a natural exponent (`power` in src/main.rs). */
module Power {

  /** Reference definition of x^n: n repeated multiplications, with x^0 = 1 for every x. */
  function Pow(x: real, n: nat): real
  {
    if n == 0 then 1.0 else x * Pow(x, n - 1)
  }

  /** Number of binary digits of n (0 for n = 0). */
  function BitLength(n: nat): nat
  {
    if n == 0 then 0 else 1 + BitLength(n / 2)
  }

  /** Squaring the base halves the exponent: (x*x)^k == x^(2k). */
  lemma {:induction false} PowSquare(x: real, k: nat)
    ensures Pow(x * x, k) == Pow(x, 2 * k)
    decreases k
  {
    if k > 0 {
      PowSquare(x, k - 1);
      calc {
        Pow(x * x, k);
        (x * x) * Pow(x * x, k - 1);
        (x * x) * Pow(x, 2 * (k - 1));
        x * (x * Pow(x, 2 * k - 2));
        { assert Pow(x, 2 * k - 1) == x * Pow(x, 2 * k - 2); }
        x * Pow(x, 2 * k - 1);
      }
    }
  }

  /** One loop step of `power`: an odd exponent gives up one factor to the result,
      the rest is carried by the squared base with the halved exponent. */
  lemma {:induction false} PowHalve(y: real, count: nat)
    ensures Pow(y, count) == (if count % 2 == 1 then y else 1.0) * Pow(y * y, count / 2)
  {
    PowSquare(y, count / 2);
    if count % 2 == 1 {
      assert count - 1 == 2 * (count / 2);
    } else {
      assert count == 2 * (count / 2);
    }
  }

  /** The loop invariant result * y^count survives one step of `power`, in which an odd
      exponent moves one factor y into the result, y is squared and the exponent halved;
      the step also uses up one binary digit of the exponent. */
  lemma AbsorbStep(result: real, y: real, count: nat, result': real, y': real, count': nat)
    requires count > 0
    requires result' == (if count % 2 == 1 then result * y else result)
    requires y' == y * y && count' == count / 2
    ensures result' * Pow(y', count') == result * Pow(y, count)
    ensures BitLength(count') + 1 == BitLength(count)
  {
    PowHalve(y, count);
    var rest := Pow(y', count');
    if count % 2 == 1 {
      assert Pow(y, count) == y * rest;
      assert (result * y) * rest == result * (y * rest);
    } else {
      assert Pow(y, count) == 1.0 * rest;
    }
  }

  /** `power(x, n)`: keeps result * y^count == x^n at every loop head, so it returns x^n;
      the loop runs exactly BitLength(n) times, and not at all when n = 0. */
  method Power(x: real, n: nat) returns (r: real, ghost iterations: nat)
    ensures r == Pow(x, n)
    ensures iterations == BitLength(n)
  {
    var result := 1.0;
    var y := x;
    var count := n;
    iterations := 0;
    while count > 0
      invariant result * Pow(y, count) == Pow(x, n)
      invariant iterations + BitLength(count) == BitLength(n)
      decreases count
    {
      ghost var result0, y0, count0 := result, y, count;
      if count % 2 == 1 {
        result := result * y;
      }
      y := y * y;
      count := count / 2;
      iterations := iterations + 1;
      AbsorbStep(result0, y0, count0, result, y, count);
    }
    r := result;
  }
}
