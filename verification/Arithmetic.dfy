/** Congruences and powers over the integers, proved from the definition of division. */
module Arithmetic {

  predicate Cong(a: int, b: int, m: int)
    requires m > 0
  {
    a % m == b % m
  }

  predicate Divides(d: int, a: int)
    requires d != 0
  {
    a % d == 0
  }

  function Abs(x: int): nat {
    if x < 0 then -x else x
  }

  function Pow(b: int, e: nat): int {
    if e == 0 then 1 else b * Pow(b, e - 1)
  }

  // ---- division ----

  lemma MulAtLeast(k: int, m: int)
    requires k >= 1 && m > 0
    ensures k * m >= m
  {
    if k > 1 {
      MulAtLeast(k - 1, m);
      assert k * m == (k - 1) * m + m;
    }
  }

  lemma MulNegate(a: int, x: int)
    ensures a * (-x) == -(a * x)
  {
  }

  lemma DivModUnique(x: int, m: int, q: int, r: int)
    requires m > 0 && x == q * m + r && 0 <= r < m
    ensures x / m == q && x % m == r
  {
    var q', r' := x / m, x % m;
    assert x == q' * m + r';
    assert (q - q') * m == r' - r by {
      assert (q - q') * m == q * m - q' * m;
    }
    assert (q' - q) * m == -((q - q') * m);
    if q - q' >= 1 {
      MulAtLeast(q - q', m);
    } else if q' - q >= 1 {
      MulAtLeast(q' - q, m);
    }
  }

  lemma ModOfMultiple(k: int, m: int, r: int)
    requires m > 0
    ensures (k * m + r) % m == r % m
  {
    var q := r / m;
    assert r == q * m + r % m;
    assert k * m + r == (k + q) * m + r % m by {
      assert (k + q) * m == k * m + q * m;
    }
    DivModUnique(k * m + r, m, k + q, r % m);
  }

  // ---- congruences ----

  lemma CongIntro(a: int, b: int, m: int, k: int)
    requires m > 0 && a == b + k * m
    ensures Cong(a, b, m)
  {
    ModOfMultiple(k, m, b);
  }

  lemma CongElim(a: int, b: int, m: int) returns (k: int)
    requires m > 0 && Cong(a, b, m)
    ensures a == b + k * m
  {
    k := a / m - b / m;
    assert a == (a / m) * m + a % m;
    assert b == (b / m) * m + b % m;
    assert k * m == (a / m) * m - (b / m) * m;
  }

  lemma CongSelf(a: int, m: int)
    requires m > 0
    ensures Cong(a % m, a, m)
  {
    DivModUnique(a % m, m, 0, a % m);
  }

  lemma CongMul(a: int, b: int, c: int, d: int, m: int)
    requires m > 0 && Cong(a, b, m) && Cong(c, d, m)
    ensures Cong(a * c, b * d, m)
  {
    var k := CongElim(a, b, m);
    var l := CongElim(c, d, m);
    assert a * c == b * d + (b * l + k * d + k * l * m) * m by {
      assert (b + k * m) * (d + l * m) == b * d + b * (l * m) + (k * m) * d + (k * m) * (l * m);
      assert (b * l + k * d + k * l * m) * m == b * l * m + k * d * m + k * l * m * m;
      assert b * (l * m) == b * l * m;
      assert (k * m) * d == k * d * m;
      assert (k * m) * (l * m) == k * l * m * m;
    }
    CongIntro(a * c, b * d, m, b * l + k * d + k * l * m);
  }

  lemma CongPow(a: int, b: int, e: nat, m: int)
    requires m > 0 && Cong(a, b, m)
    ensures Cong(Pow(a, e), Pow(b, e), m)
  {
    if e > 0 {
      CongPow(a, b, e - 1, m);
      CongMul(a, b, Pow(a, e - 1), Pow(b, e - 1), m);
    }
  }

  lemma DividesIntro(d: int, a: int, k: int)
    requires d > 0 && a == k * d
    ensures Divides(d, a)
  {
    DivModUnique(a, d, k, 0);
  }

  lemma DividesLinear(d: int, q: int, b: int, r: int)
    requires d > 0 && Divides(d, b) && Divides(d, r)
    ensures Divides(d, q * b + r)
  {
    var k, l := b / d, r / d;
    assert q * (k * d) == (q * k) * d;
    DividesIntro(d, q * b + r, q * k + l);
  }

  lemma CongIsDivides(a: int, b: int, m: int)
    requires m > 0
    ensures Cong(a, b, m) <==> Divides(m, a - b)
  {
    if Cong(a, b, m) {
      var k := CongElim(a, b, m);
      DividesIntro(m, a - b, k);
    }
    if Divides(m, a - b) {
      assert a == b + ((a - b) / m) * m;
      CongIntro(a, b, m, (a - b) / m);
    }
  }

  // ---- powers ----

  lemma {:induction false} PowAdd(b: int, e: nat, f: nat)
    ensures Pow(b, e + f) == Pow(b, e) * Pow(b, f)
  {
    if e > 0 {
      PowAdd(b, e - 1, f);
      assert Pow(b, e + f) == b * Pow(b, (e - 1) + f);
      assert b * (Pow(b, e - 1) * Pow(b, f)) == (b * Pow(b, e - 1)) * Pow(b, f);
    }
  }

  lemma {:induction false} PowPow(b: int, e: nat, f: nat)
    ensures Pow(Pow(b, e), f) == Pow(b, e * f)
  {
    if f > 0 {
      PowPow(b, e, f - 1);
      PowAdd(b, e, e * (f - 1));
      assert e * f == e + e * (f - 1);
    }
  }

  lemma Interchange(a: int, b: int, x: int, y: int)
    ensures (a * b) * (x * y) == (a * x) * (b * y)
  {
    calc {
      (a * b) * (x * y);
      a * (b * (x * y));
      { assert b * (x * y) == x * (b * y); }
      a * (x * (b * y));
      (a * x) * (b * y);
    }
  }

  lemma {:induction false} PowOfProduct(a: int, b: int, e: nat)
    ensures Pow(a * b, e) == Pow(a, e) * Pow(b, e)
  {
    if e > 0 {
      PowOfProduct(a, b, e - 1);
      Interchange(a, b, Pow(a, e - 1), Pow(b, e - 1));
    }
  }

  lemma {:induction false} PowOfOne(e: nat)
    ensures Pow(1, e) == 1
  {
    if e > 0 {
      PowOfOne(e - 1);
    }
  }

  lemma {:induction false} PowNonNegative(b: nat, e: nat)
    ensures Pow(b, e) >= 0
  {
    if e > 0 {
      PowNonNegative(b, e - 1);
      assert b * Pow(b, e - 1) >= 0;
    }
  }
}
