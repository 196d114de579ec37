/** Greatest common divisors and powers of ten. */
module Arithmetic {
  function Max(a: nat, b: nat): nat {
    if a < b then b else a
  }

  function Min(a: nat, b: nat): nat {
    if a < b then a else b
  }

  /** std::gcd. */
  function Gcd(a: nat, b: nat): nat
    decreases b
  {
    if b == 0 then a else Gcd(b, a % b)
  }

  /** The combination of a and b that makes their greatest common divisor. */
  lemma {:induction false} Bezout(a: nat, b: nat) returns (x: int, y: int)
    ensures a * x + b * y == Gcd(a, b)
    decreases b
  {
    if b == 0 {
      x, y := 1, 0;
    } else {
      var x', y' := Bezout(b, a % b);
      x, y := y', x' - (a / b) * y';
      BezoutStep(a, b, x', y');
    }
  }

  lemma BezoutStep(a: nat, b: nat, x: int, y: int)
    requires b > 0
    ensures a * y + b * (x - (a / b) * y) == b * x + (a % b) * y
  {
    var q := a / b;
    assert a % b == a - b * q;
    assert (a - b * q) * y == a * y - b * (q * y) by {
      assert (b * q) * y == b * (q * y);
    }
    assert b * (x - q * y) == b * x - b * (q * y);
  }

  /** The common divisor, as the factor of both. */
  lemma {:induction false} GcdDivides(a: nat, b: nat) returns (p: nat, q: nat)
    requires a > 0 || b > 0
    ensures Gcd(a, b) > 0 && a == Gcd(a, b) * p && b == Gcd(a, b) * q
    decreases b
  {
    if b == 0 {
      p, q := 1, 0;
    } else {
      var rest;
      q, rest := GcdDivides(b, a % b);
      p := CommonDivisor(a, b, Gcd(a, b), q, rest);
    }
  }

  lemma CommonDivisor(a: nat, b: nat, g: nat, p: nat, rest: nat) returns (factor: nat)
    requires b > 0 && b == g * p && a % b == g * rest
    ensures a == g * factor
  {
    var quotient := a / b;
    assert quotient >= 0;
    factor := quotient * p + rest;
    assert a == b * quotient + a % b;
    Distribute(g, quotient, p, rest);
  }

  lemma Distribute(g: nat, quotient: nat, p: nat, rest: nat)
    ensures g * (quotient * p + rest) == (g * p) * quotient + g * rest
  {
    assert g * (quotient * p + rest) == g * (quotient * p) + g * rest;
    assert g * (quotient * p) == (g * p) * quotient;
  }

  lemma FactorOut(g: nat, x: int, y: int)
    requires g > 0 && g * x == g * y
    ensures x == y
  {
    assert g * (x - y) == 0;
  }

  lemma NoMultipleBelow(d: nat, k: int)
    requires 0 <= d * k < d
    ensures k == 0
  {
    if k > 0 {
      MulGrows(d, k);
    }
  }

  lemma DivideBy(d: nat, p: nat)
    requires d > 0
    ensures (d * p) / d == p && (d * p) % d == 0
  {
    var q, r := (d * p) / d, (d * p) % d;
    assert d * p == d * q + r;
    assert d * (p - q) == r by {
      assert d * (p - q) == d * p - d * q;
    }
    NoMultipleBelow(d, p - q);
  }

  lemma MulGrows(d: nat, k: nat)
    requires k >= 1
    ensures d * k >= d
  {
    assert d * k == d + d * (k - 1);
  }

  lemma MulMonotone(a: nat, b: nat, c: nat)
    requires a <= b
    ensures a * c <= b * c
  {
    assert b * c == a * c + (b - a) * c;
  }

  /** Divided by their greatest common divisor, two numbers have nothing in common. */
  lemma Reduced(a: nat, b: nat) returns (x: int, y: int)
    requires a > 0 || b > 0
    ensures var g := Gcd(a, b);
      && g > 0 && a % g == 0 && b % g == 0 && a == g * (a / g) && b == g * (b / g)
      && (a / g) * x + (b / g) * y == 1
  {
    var p, q := GcdDivides(a, b);
    var g := Gcd(a, b);
    DivideBy(g, p);
    DivideBy(g, q);
    x, y := Bezout(a, b);
    assert g * (p * x + q * y) == a * x + b * y by {
      assert (g * p) * x == g * (p * x);
      assert (g * q) * y == g * (q * y);
      assert g * (p * x + q * y) == g * (p * x) + g * (q * y);
    }
    FactorOut(g, p * x + q * y, 1);
  }

  /** Euclid's lemma: a divisor that has nothing in common with one factor divides the other. */
  lemma EuclidsLemma(d: nat, a: nat, x: int, y: int, b: nat)
    requires d > 0 && a * x + d * y == 1 && (a * b) % d == 0
    ensures b % d == 0
  {
    var k := (a * b) / d;
    assert a * b == d * k;
    assert b == d * (k * x + y * b) by {
      assert b == (a * x + d * y) * b;
      assert (a * x + d * y) * b == a * x * b + d * y * b;
      assert a * x * b == (a * b) * x;
      assert (d * k) * x == d * (k * x);
      assert d * y * b == d * (y * b);
      assert d * (k * x + y * b) == d * (k * x) + d * (y * b);
    }
    var m := k * x + y * b;
    assert m >= 0;
    DivideBy(d, m);
  }

  function Pow(base: nat, n: nat): nat {
    if n == 0 then 1 else Pow(base, n - 1) * base
  }

  lemma PowNext(base: nat, n: nat)
    ensures Pow(base, n + 1) == Pow(base, n) * base
  {
  }

  lemma {:induction false} PowPositive(base: nat, n: nat)
    requires base > 0
    ensures Pow(base, n) > 0
  {
    if n > 0 {
      PowPositive(base, n - 1);
      MulGrows(Pow(base, n - 1), base);
    }
  }

  lemma Associates(x: nat, y: nat, z: nat)
    ensures x * (y * z) == (x * y) * z
  {
  }

  lemma {:induction false} PowAdds(base: nat, a: nat, b: nat)
    ensures Pow(base, a + b) == Pow(base, a) * Pow(base, b)
  {
    if b > 0 {
      PowAdds(base, a, b - 1);
      Associates(Pow(base, a), Pow(base, b - 1), base);
    }
  }

  lemma PowGrows(base: nat, a: nat, b: nat)
    requires base > 0 && a <= b
    ensures Pow(base, a) <= Pow(base, b) && Pow(base, a) > 0 && Pow(base, b) % Pow(base, a) == 0
  {
    PowAdds(base, a, b - a);
    PowPositive(base, b - a);
    PowPositive(base, a);
    MulGrows(Pow(base, a), Pow(base, b - a));
    DivideBy(Pow(base, a), Pow(base, b - a));
  }

  function Pow10(n: nat): (p: nat)
    ensures p > 0
  {
    PowPositive(10, n);
    Pow(10, n)
  }
}
