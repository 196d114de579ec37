/** Positional notation in any base, most significant digit first. */
module Digits {
  import opened Arithmetic

  predicate AreDigits(base: nat, d: seq<nat>) {
    forall i :: 0 <= i < |d| ==> d[i] < base
  }

  function Value(base: nat, d: seq<nat>): nat {
    if d == [] then 0 else Value(base, d[..|d| - 1]) * base + d[|d| - 1]
  }

  lemma {:induction false} ValueBound(base: nat, d: seq<nat>)
    requires AreDigits(base, d)
    ensures Value(base, d) < Pow(base, |d|)
  {
    if d != [] {
      var front := d[..|d| - 1];
      ValueBound(base, front);
      MulMonotone(Value(base, front) + 1, Pow(base, |front|), base);
      assert (Value(base, front) + 1) * base == Value(base, front) * base + base;
    }
  }

  lemma {:induction false} ValueJoin(base: nat, a: seq<nat>, b: seq<nat>)
    ensures Value(base, a + b) == Value(base, a) * Pow(base, |b|) + Value(base, b)
  {
    if b == [] {
      assert a + b == a;
    } else {
      var front := b[..|b| - 1];
      ValueJoin(base, a, front);
      assert (a + b)[..|a + b| - 1] == a + front;
      Regroup(Value(base, a), Pow(base, |front|), Value(base, front), base);
    }
  }

  lemma Regroup(x: nat, p: nat, y: nat, base: nat)
    ensures (x * p + y) * base == x * (p * base) + y * base
  {
    assert (x * p + y) * base == x * p * base + y * base;
  }

  lemma SplitIsUnique(base: nat, q: nat, r: nat, q': nat, r': nat)
    requires r < base && r' < base && q * base + r == q' * base + r'
    ensures q == q' && r == r'
  {
    assert base * (q - q') == r' - r;
    assert base * (q' - q) == r - r';
    if q > q' {
      MulGrows(base, q - q');
    } else if q' > q {
      MulGrows(base, q' - q);
    }
  }

  lemma {:induction false} ValueIsUnique(base: nat, a: seq<nat>, b: seq<nat>)
    requires AreDigits(base, a) && AreDigits(base, b) && |a| == |b| && Value(base, a) == Value(base, b)
    ensures a == b
  {
    if a != [] {
      var n := |a| - 1;
      SplitIsUnique(base, Value(base, a[..n]), a[n], Value(base, b[..n]), b[n]);
      ValueIsUnique(base, a[..n], b[..n]);
      assert a == a[..n] + [a[n]] && b == b[..n] + [b[n]];
    }
  }

  // ----- without leading zeros -----

  lemma Shrinks(base: nat, value: nat)
    requires base > 1 && value > 0
    ensures value / base < value && value == (value / base) * base + value % base
  {
    assert value == base * (value / base) + value % base;
    if value / base > 0 {
      MulMonotone(2, base, value / base);
    }
  }

  /** The shortest notation; no digit at all for zero. */
  function Minimal(base: nat, value: nat): seq<nat>
    requires base > 1
    decreases value
  {
    if value == 0 then []
    else
      Shrinks(base, value);
      Minimal(base, value / base) + [value % base]
  }

  lemma {:induction false} MinimalIsShort(base: nat, value: nat)
    requires base > 1
    ensures Value(base, Minimal(base, value)) == value && AreDigits(base, Minimal(base, value))
    ensures value != 0 ==> Minimal(base, value) != [] && Minimal(base, value)[0] != 0
    decreases value
  {
    if value != 0 {
      Shrinks(base, value);
      MinimalIsShort(base, value / base);
      assert Minimal(base, value)[..|Minimal(base, value)| - 1] == Minimal(base, value / base);
    }
  }

  lemma {:induction false} LeadingDigit(base: nat, d: seq<nat>)
    requires AreDigits(base, d) && d != [] && d[0] != 0
    ensures Value(base, d) > 0
  {
    assert d == [d[0]] + d[1..];
    ValueJoin(base, [d[0]], d[1..]);
    assert [d[0]][..0] == [];
    assert Value(base, [d[0]]) == d[0];
    PowPositive(base, |d[1..]|);
    MulGrows(Pow(base, |d[1..]|), d[0]);
    assert d[0] * Pow(base, |d[1..]|) == Pow(base, |d[1..]|) * d[0];
  }

  lemma {:induction false} MinimalIsUnique(base: nat, d: seq<nat>)
    requires base > 1 && AreDigits(base, d) && (d != [] ==> d[0] != 0)
    ensures d == Minimal(base, Value(base, d))
  {
    if d != [] {
      var n := |d| - 1;
      var value := Value(base, d);
      LeadingDigit(base, d);
      Shrinks(base, value);
      SplitIsUnique(base, Value(base, d[..n]), d[n], value / base, value % base);
      MinimalIsUnique(base, d[..n]);
      assert d == d[..n] + [d[n]];
    }
  }

  function Stripped(d: seq<nat>): seq<nat> {
    if d != [] && d[0] == 0 then Stripped(d[1..]) else d
  }

  lemma {:induction false} ZeroInFront(base: nat, d: seq<nat>)
    ensures Value(base, [0] + d) == Value(base, d)
  {
    ValueJoin(base, [0], d);
    assert [0][..0] == [];
    assert Value(base, [0]) == 0;
  }

  lemma {:induction false} StrippedIsMinimal(base: nat, d: seq<nat>)
    requires base > 1 && AreDigits(base, d)
    ensures Stripped(d) == Minimal(base, Value(base, d))
    ensures |Stripped(d)| <= |d|
  {
    if d != [] && d[0] == 0 {
      StrippedIsMinimal(base, d[1..]);
      ZeroInFront(base, d[1..]);
      assert d == [0] + d[1..];
    } else {
      MinimalIsUnique(base, d);
    }
  }

  // ----- at a fixed length -----

  function Zeros(n: nat): (zeros: seq<nat>)
    ensures |zeros| == n && forall i :: 0 <= i < n ==> zeros[i] == 0
  {
    seq(n, i => 0)
  }

  lemma {:induction false} ZerosInFront(base: nat, n: nat, d: seq<nat>)
    ensures Value(base, Zeros(n) + d) == Value(base, d)
    ensures AreDigits(base, d) && base > 0 ==> AreDigits(base, Zeros(n) + d)
  {
    if n == 0 {
      assert Zeros(n) + d == d;
    } else {
      ZerosInFront(base, n - 1, d);
      assert Zeros(n) + d == [0] + (Zeros(n - 1) + d);
      ZeroInFront(base, Zeros(n - 1) + d);
    }
  }

  /** A value below base^n needs no more than n digits. */
  lemma {:induction false} MinimalFits(base: nat, value: nat, n: nat)
    requires base > 1
    ensures |Minimal(base, value)| <= n <==> value < Pow(base, n)
  {
    MinimalIsShort(base, value);
    var d := Minimal(base, value);
    ValueBound(base, d);
    if |d| <= n {
      PowGrows(base, |d|, n);
    } else if value < Pow(base, n) {
      assert d == [d[0]] + d[1..];
      ValueJoin(base, [d[0]], d[1..]);
      assert [d[0]][..0] == [];
      assert Value(base, [d[0]]) == d[0];
      PowGrows(base, n, |d[1..]|);
      MulMonotone(1, d[0], Pow(base, |d[1..]|));
    }
  }

  /** The value with n digits. */
  function Fixed(base: nat, value: nat, n: nat): (d: seq<nat>)
    requires base > 1 && value < Pow(base, n)
    ensures |d| == n
  {
    MinimalFits(base, value, n);
    Zeros(n - |Minimal(base, value)|) + Minimal(base, value)
  }

  lemma FixedIsValue(base: nat, value: nat, n: nat)
    requires base > 1 && value < Pow(base, n)
    ensures Value(base, Fixed(base, value, n)) == value && AreDigits(base, Fixed(base, value, n))
  {
    MinimalFits(base, value, n);
    MinimalIsShort(base, value);
    ZerosInFront(base, n - |Minimal(base, value)|, Minimal(base, value));
  }

  lemma FixedIsUnique(base: nat, d: seq<nat>)
    requires base > 1 && AreDigits(base, d)
    ensures Value(base, d) < Pow(base, |d|) && d == Fixed(base, Value(base, d), |d|)
  {
    ValueBound(base, d);
    FixedIsValue(base, Value(base, d), |d|);
    ValueIsUnique(base, d, Fixed(base, Value(base, d), |d|));
  }
}
