/**
 * Integer division as JavaScript's BigInt does it (truncating toward zero), and on top of it
 * the Euclidean algorithms of the blind-signature client: the gcd loop, the recursive extended
 * algorithm and the modular inverse.
 */
module Euclid {
  import opened Base
  import opened Arithmetic

  /** `a % b` on BigInt: the remainder takes the sign of the dividend. */
  function JsRem(a: int, b: int): int
    requires b != 0
  {
    if a >= 0 then a % Abs(b) else -((-a) % Abs(b))
  }

  /** `a / b` on BigInt: the quotient is truncated toward zero. */
  function JsDiv(a: int, b: int): int
    requires b != 0
  {
    var q := Abs(a) / Abs(b);
    if (a < 0) == (b < 0) then q else -q
  }

  lemma JsDivision(a: int, b: int)
    requires b != 0
    ensures a == JsDiv(a, b) * b + JsRem(a, b)
    ensures Abs(JsRem(a, b)) < Abs(b)
    ensures a >= 0 ==> JsRem(a, b) >= 0
    ensures a <= 0 ==> JsRem(a, b) <= 0
  {
    var q, r := Abs(a) / Abs(b), Abs(a) % Abs(b);
    assert Abs(a) == q * Abs(b) + r;
    assert (-q) * b == -(q * b) && q * (-b) == -(q * b);
    if a < 0 {
      assert -a == q * Abs(b) + r;
    }
  }

  lemma JsRemCong(a: int, m: int)
    requires m > 0
    ensures Cong(JsRem(a, m), a, m)
  {
    JsDivision(a, m);
    CongIntro(a, JsRem(a, m), m, JsDiv(a, m));
  }

  /** x is zero or on y's side of it. */
  predicate Follows(x: int, y: int) {
    (y >= 0 ==> x >= 0) && (y <= 0 ==> x <= 0)
  }

  lemma ModNegated(x: int, y: int, m: int)
    requires m > 0 && Cong(x, y, m)
    ensures Cong(-x, -y, m)
  {
    var k := CongElim(x, y, m);
    MulNegate(m, k);
    assert (-k) * m == -(k * m);
    CongIntro(-x, -y, m, -k);
  }

  /** Congruent values on the same side of zero have the same remainder. */
  lemma JsRemSame(x: int, y: int, m: int)
    requires m != 0 && Cong(x, y, Abs(m)) && Follows(x, y)
    ensures JsRem(x, m) == JsRem(y, m)
  {
    ModNegated(x, y, Abs(m));
    if x == 0 && y < 0 {
      assert 0 % Abs(m) == 0;
    }
  }

  // ---- greatest common divisor ----

  /** The value of the gcd loop; signs follow BigInt remainders. */
  function Gcd(a: int, b: int): int
    decreases Abs(b)
  {
    if b == 0 then a else JsDivision(a, b); Gcd(b, JsRem(a, b))
  }

  method GcdLoop(a0: int, b0: int) returns (a: int)
    ensures a == Gcd(a0, b0)
    ensures Coprime(a0, b0) <==> Abs(a) == 1
  {
    a := a0;
    var b := b0;
    while b != 0
      invariant Gcd(a, b) == Gcd(a0, b0)
      decreases Abs(b)
    {
      JsDivision(a, b);
      a, b := b, JsRem(a, b);
    }
    GcdIsOneIffCoprime(a0, b0);
  }

  /** No integer above one divides both. */
  ghost predicate Coprime(a: int, b: int) {
    forall d :: d > 1 ==> !(Divides(d, a) && Divides(d, b))
  }

  lemma {:induction false} GcdDividesBoth(a: int, b: int)
    requires Gcd(a, b) != 0
    ensures Divides(Abs(Gcd(a, b)), a) && Divides(Abs(Gcd(a, b)), b)
    decreases Abs(b)
  {
    var g := Gcd(a, b);
    if b == 0 {
      DividesIntro(Abs(a), a, if a > 0 then 1 else -1);
      DividesIntro(Abs(a), 0, 0);
    } else {
      JsDivision(a, b);
      GcdDividesBoth(b, JsRem(a, b));
      DividesLinear(Abs(g), JsDiv(a, b), b, JsRem(a, b));
    }
  }

  lemma {:induction false} GcdZero(a: int, b: int)
    requires Gcd(a, b) == 0
    ensures a == 0 && b == 0
    decreases Abs(b)
  {
    if b != 0 {
      JsDivision(a, b);
      GcdZero(b, JsRem(a, b));
    }
  }

  lemma {:induction false} GcdNonNegative(a: int, b: int)
    requires a >= 0 && b >= 0
    ensures Gcd(a, b) >= 0
    decreases Abs(b)
  {
    if b != 0 {
      JsDivision(a, b);
      GcdNonNegative(b, JsRem(a, b));
    }
  }

  /** The extended algorithm returns a Bezout identity for exactly the gcd the loop computes. */
  function Egcd(a: int, b: int): (r: (int, int, int))
    ensures r.0 == a * r.1 + b * r.2
    ensures r.0 == Gcd(a, b)
    decreases Abs(b)
  {
    if b == 0 then (a, 1, 0)
    else
      JsDivision(a, b);
      var (g, x1, y1) := Egcd(b, JsRem(a, b));
      EgcdStep(a, b, x1, y1);
      (g, y1, x1 - JsDiv(a, b) * y1)
  }

  lemma EgcdStep(a: int, b: int, x1: int, y1: int)
    requires b != 0
    ensures b * x1 + JsRem(a, b) * y1 == a * y1 + b * (x1 - JsDiv(a, b) * y1)
  {
    JsDivision(a, b);
    var q := JsDiv(a, b);
    assert JsRem(a, b) == a - q * b;
    assert (a - q * b) * y1 == a * y1 - (q * b) * y1;
    assert b * (x1 - q * y1) == b * x1 - b * (q * y1);
    assert (q * b) * y1 == b * (q * y1);
  }

  lemma BezoutIsCoprime(a: int, b: int, x: int, y: int)
    requires a * x + b * y == 1
    ensures Coprime(a, b)
  {
    forall d | d > 1 && Divides(d, a) && Divides(d, b) ensures false {
      var k, l := a / d, b / d;
      assert 1 == (k * x + l * y) * d by {
        assert a * x == (k * x) * d;
        assert b * y == (l * y) * d;
      }
      DividesIntro(d, 1, k * x + l * y);
    }
  }

  lemma NegatedBezout(a: int, b: int, x: int, y: int)
    requires a * x + b * y == -1
    ensures a * (-x) + b * (-y) == 1
  {
    MulNegate(a, x);
    MulNegate(b, y);
  }

  lemma UnitGcdIsCoprime(a: int, b: int)
    requires Abs(Gcd(a, b)) == 1
    ensures Coprime(a, b)
  {
    var (g, x, y) := Egcd(a, b);
    if g == 1 {
      BezoutIsCoprime(a, b, x, y);
    } else {
      NegatedBezout(a, b, x, y);
      BezoutIsCoprime(a, b, -x, -y);
    }
  }

  lemma GcdIsOneIffCoprime(a: int, b: int)
    ensures Coprime(a, b) <==> Abs(Gcd(a, b)) == 1
  {
    var g := Gcd(a, b);
    if g == 0 {
      GcdZero(a, b);
      assert Divides(2, a) && Divides(2, b);
    } else if Abs(g) > 1 {
      GcdDividesBoth(a, b);
    } else {
      UnitGcdIsCoprime(a, b);
    }
  }

  lemma Bezout(a: int, b: int) returns (x: int, y: int)
    requires Coprime(a, b)
    ensures a * x + b * y == 1
  {
    var (g, x0, y0) := Egcd(a, b);
    assert Abs(g) == 1 by { GcdIsOneIffCoprime(a, b); }
    MulNegate(a, x0);
    MulNegate(b, y0);
    x, y := if g == 1 then x0 else -x0, if g == 1 then y0 else -y0;
  }

  lemma CoprimeCong(a: int, b: int, m: int)
    requires m > 0 && Cong(a, b, m) && Coprime(a, m)
    ensures Coprime(b, m)
  {
    var x, y := Bezout(a, m);
    var k := CongElim(a, b, m);
    assert b * x + m * (y + k * x) == 1 by {
      assert (b + k * m) * x == b * x + (k * m) * x;
      assert (k * m) * x == m * (k * x);
    }
    BezoutIsCoprime(b, m, x, y + k * x);
  }

  lemma CoprimeProduct(a: int, b: int, m: int)
    requires Coprime(a, m) && Coprime(b, m)
    ensures Coprime(a * b, m)
  {
    var x, y := Bezout(a, m);
    var u, v := Bezout(b, m);
    calc {
      1;
      (a * x + m * y) * (b * u + m * v);
      (a * x) * (b * u) + (a * x) * (m * v) + (m * y) * (b * u + m * v);
      { Interchange(a, x, b, u); }
      (a * b) * (x * u) + (a * x) * (m * v) + (m * y) * (b * u + m * v);
      { assert (a * x) * (m * v) == m * ((a * x) * v); assert (m * y) * (b * u + m * v) == m * (y * (b * u + m * v)); }
      (a * b) * (x * u) + m * ((a * x) * v) + m * (y * (b * u + m * v));
      (a * b) * (x * u) + m * ((a * x) * v + y * (b * u + m * v));
    }
    BezoutIsCoprime(a * b, m, x * u, (a * x) * v + y * (b * u + m * v));
  }

  lemma {:induction false} CoprimePow(a: int, e: nat, m: int)
    requires Coprime(a, m)
    ensures Coprime(Pow(a, e), m)
  {
    if e == 0 {
      assert 1 * 1 + m * 0 == 1;
      BezoutIsCoprime(1, m, 1, 0);
    } else {
      CoprimePow(a, e - 1, m);
      CoprimeProduct(a, Pow(a, e - 1), m);
    }
  }

  /** Units can be cancelled from a congruence. */
  lemma Cancel(a: int, b: int, u: int, m: int)
    requires m > 0 && Coprime(u, m) && Cong(a * u, b * u, m)
    ensures Cong(a, b, m)
  {
    var x, y := Bezout(u, m);
    assert 1 == u * x + y * m;
    CongIntro(1, u * x, m, y);
    CongMul(a * u, b * u, x, x, m);
    CongMul(a, a, 1, u * x, m);
    CongMul(b, b, 1, u * x, m);
    assert a * (u * x) == (a * u) * x && b * (u * x) == (b * u) * x;
  }

  // ---- modular inverse ----

  datatype BigIntError = DivisionByZero | NotInvertible

  /** `((x % m) + m) % m` of the Bezout coefficient of `a % m`, or the thrown error. */
  function ModInverse(a: int, m: int): (r: Result<int, BigIntError>)
    ensures m > 0 && r.Ok? ==> 0 <= r.value < m && Cong(a * r.value, 1, m)
  {
    if m == 0 then Err(DivisionByZero)
    else
      var (g, x, y) := Egcd(JsRem(a, m), m);
      if g != 1 then Err(NotInvertible)
      else
        if m > 0 then ModInverseInRange(a, m, x, y); Ok(JsRem(JsRem(x, m) + m, m))
        else Ok(JsRem(JsRem(x, m) + m, m))
  }

  lemma ModInverseInRange(a: int, m: int, x: int, y: int)
    requires m > 0 && JsRem(a, m) * x + m * y == 1
    ensures var v := JsRem(JsRem(x, m) + m, m); 0 <= v < m && Cong(a * v, 1, m)
  {
    var v := Normalised(x, m);
    JsRemCong(a, m);
    CongMul(a, JsRem(a, m), v, x, m);
    MulNegate(m, y);
    CongIntro(JsRem(a, m) * x, 1, m, -y);
  }

  lemma Normalised(x: int, m: int) returns (v: int)
    requires m > 0
    ensures v == JsRem(JsRem(x, m) + m, m) && 0 <= v < m && Cong(v, x, m)
  {
    JsDivision(x, m);
    var s := JsRem(x, m) + m;
    v := JsRem(s, m);
    JsDivision(s, m);
    JsRemCong(x, m);
    JsRemCong(s, m);
    CongIntro(s, JsRem(x, m), m, 1);
  }

  /**
   * For every value and positive modulus: the inverse is refused exactly when none exists, if and
   * only if the gcd loop on the truncated remainder does not end at -1.
   */
  lemma ModInverseIsExactIff(a: int, m: int)
    requires m > 0
    ensures (ModInverse(a, m).Err? <==> !Coprime(a, m)) <==> Gcd(JsRem(a, m), m) != -1
  {
    var r := JsRem(a, m);
    JsRemCong(a, m);
    GcdIsOneIffCoprime(r, m);
    if Coprime(r, m) { CoprimeCong(r, a, m); }
    if Coprime(a, m) { CoprimeCong(a, r, m); }
  }

  /** On the domain the client uses it, the inverse is refused exactly when none exists. */
  lemma ModInverseThrowsIffNotCoprime(a: int, m: int)
    requires a >= 0 && m > 0
    ensures ModInverse(a, m).Err? <==> !Coprime(a, m)
    ensures ModInverse(a, m) != Err(DivisionByZero)
  {
    JsDivision(a, m);
    GcdNonNegative(JsRem(a, m), m);
    ModInverseIsExactIff(a, m);
  }

  /** Outside that domain the test on the signed gcd refuses some invertible values: -1 modulo 3. */
  lemma ModInverseRefusesNegativeUnit()
    ensures ModInverse(-1, 3) == Err(NotInvertible) && Coprime(-1, 3)
  {
    assert JsRem(-1, 3) == -1;
    assert JsRem(3, -1) == 0;
    assert Egcd(-1, 0) == (-1, 1, 0);
    assert Gcd(3, -1) == Gcd(-1, 0) == -1;
    assert Gcd(-1, 3) == Gcd(3, -1);
    BezoutIsCoprime(-1, 3, -1, 0);
  }
}
