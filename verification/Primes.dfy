/**
 * Fermat's little theorem and, from it, the RSA identity for a modulus that is the product of
 * two distinct primes. The proof of Fermat's theorem multiplies all nonzero residues and uses
 * that multiplication by a unit permutes them.
 */
module Primes {
  import opened Arithmetic
  import opened Euclid
  import opened FiniteSets

  ghost predicate Prime(p: int) {
    p > 1 && forall d :: 1 < d < p ==> !Divides(d, p)
  }

  lemma NonMultipleIsUnit(a: int, p: int)
    requires Prime(p) && !Divides(p, a)
    ensures Coprime(a, p)
  {
    forall d | d > 1 && Divides(d, a) && Divides(d, p) ensures false {
      if d > p {
        DivModUnique(p, d, 0, p);
      }
    }
  }

  // ---- products over finite sets ----

  ghost function Product(s: set<int>): int {
    if s == {} then 1 else
      var x := Pick(s);
      x * Product(s - {x})
  }

  lemma Swap(x: int, y: int, z: int)
    ensures y * (x * z) == x * (y * z)
  {
  }

  lemma {:induction false} ProductRemove(s: set<int>, x: int)
    requires x in s
    ensures Product(s) == x * Product(s - {x})
    decreases |s|
  {
    var y := Pick(s);
    if x != y {
      ProductRemove(s - {y}, x);
      ProductRemove(s - {x}, y);
      assert s - {y} - {x} == s - {x} - {y};
      Swap(x, y, Product(s - {x} - {y}));
    }
  }

  // ---- multiplication by a unit permutes the residues ----

  /** The residues of a, 2a, ..., ka. */
  ghost function Multiples(a: int, p: int, k: nat): set<int>
    requires p > 0
  {
    if k == 0 then {} else Multiples(a, p, k - 1) + {(a * k) % p}
  }

  function Factorial(k: nat): int {
    if k == 0 then 1 else k * Factorial(k - 1)
  }

  lemma {:induction false} MultipleWitness(a: int, p: int, k: nat, y: int) returns (i: nat)
    requires p > 0 && y in Multiples(a, p, k)
    ensures 1 <= i <= k && y == (a * i) % p
  {
    if y == (a * k) % p {
      i := k;
    } else {
      i := MultipleWitness(a, p, k - 1, y);
    }
  }

  lemma NewMultiple(a: int, p: int, k: nat)
    requires Prime(p) && Coprime(a, p) && 1 <= k < p
    ensures (a * k) % p !in Multiples(a, p, k - 1)
    ensures 1 <= (a * k) % p < p
  {
    if (a * k) % p in Multiples(a, p, k - 1) {
      var i := MultipleWitness(a, p, k - 1, (a * k) % p);
      assert Cong(k * a, i * a, p);
      Cancel(k, i, a, p);
      DivModUnique(k, p, 0, k);
      DivModUnique(i, p, 0, i);
    }
    if (a * k) % p == 0 {
      assert Cong(k * a, 0 * a, p) by { DivModUnique(0, p, 0, 0); }
      Cancel(k, 0, a, p);
      DivModUnique(k, p, 0, k);
      DivModUnique(0, p, 0, 0);
    }
  }

  lemma {:induction false} MultiplesProduct(a: int, p: int, k: nat)
    requires Prime(p) && Coprime(a, p) && k < p
    ensures |Multiples(a, p, k)| == k
    ensures forall y :: y in Multiples(a, p, k) ==> 1 <= y < p
    ensures Cong(Product(Multiples(a, p, k)), Pow(a, k) * Factorial(k), p)
  {
    if k > 0 {
      MultiplesProduct(a, p, k - 1);
      NewMultiple(a, p, k);
      var s, y := Multiples(a, p, k - 1), (a * k) % p;
      ProductRemove(s + {y}, y);
      assert s + {y} - {y} == s;
      CongSelf(a * k, p);
      CongMul(y, a * k, Product(s), Pow(a, k - 1) * Factorial(k - 1), p);
      Interchange(a, k, Pow(a, k - 1), Factorial(k - 1));
    }
  }

  lemma {:induction false} MultiplesOfOne(p: int, k: nat, y: int)
    requires p > 0 && 1 <= y <= k < p
    ensures y in Multiples(1, p, k)
  {
    if y < k {
      MultiplesOfOne(p, k - 1, y);
    } else {
      DivModUnique(y, p, 0, y);
    }
  }

  lemma {:induction false} FactorialIsUnit(p: int, k: nat)
    requires Prime(p) && k < p
    ensures Coprime(Factorial(k), p)
  {
    if k == 0 {
      BezoutIsCoprime(1, p, 1, 0);
    } else {
      FactorialIsUnit(p, k - 1);
      DivModUnique(k, p, 0, k);
      NonMultipleIsUnit(k, p);
      CoprimeProduct(k, Factorial(k - 1), p);
    }
  }

  lemma Fermat(a: int, p: int)
    requires Prime(p) && !Divides(p, a)
    ensures Cong(Pow(a, p - 1), 1, p)
  {
    NonMultipleIsUnit(a, p);
    BezoutIsCoprime(1, p, 1, 0);
    MultiplesProduct(a, p, p - 1);
    MultiplesProduct(1, p, p - 1);
    var byA, byOne := Multiples(a, p, p - 1), Multiples(1, p, p - 1);
    forall y | y in byA ensures y in byOne {
      MultiplesOfOne(p, p - 1, y);
    }
    SubsetOfSameSize(byA, byOne);
    PowOfOne(p - 1);
    FactorialIsUnit(p, p - 1);
    Cancel(Pow(a, p - 1), 1, Factorial(p - 1), p);
  }

  // ---- the RSA identity ----

  lemma RsaModuloPrime(t: int, p: int, k: nat, m: nat)
    requires Prime(p) && m == (p - 1) * k
    ensures Cong(Pow(t, 1 + m), t, p)
  {
    assert Pow(t, 1 + m) == t * Pow(t, m);
    if Divides(p, t) {
      DivModUnique(0, p, 0, 0);
      CongMul(t, 0, Pow(t, m), Pow(t, m), p);
    } else {
      Fermat(t, p);
      PowPow(t, p - 1, k);
      CongPow(Pow(t, p - 1), 1, k, p);
      PowOfOne(k);
      CongMul(t, t, Pow(t, m), 1, p);
    }
  }

  lemma DistinctPrimesCoprime(p: int, q: int)
    requires Prime(p) && Prime(q) && p != q
    ensures Coprime(p, q)
  {
    if Divides(q, p) {
      if q > p { DivModUnique(p, q, 0, p); }
    }
    NonMultipleIsUnit(p, q);
  }

  lemma DividesProduct(x: int, p: int, q: int)
    requires p > 0 && q > 0 && Coprime(p, q) && Divides(p, x) && Divides(q, x)
    ensures p * q > 0 && Divides(p * q, x)
  {
    var k := x / p;
    assert x == k * p;
    DivModUnique(0, q, 0, 0);
    assert Cong(k * p, 0 * p, q);
    Cancel(k, 0, p, q);
    var l := k / q;
    assert k == l * q;
    MulAtLeast(p, q);
    assert (l * q) * p == l * (p * q);
    DividesIntro(p * q, x, l);
  }

  /** n is the product of two distinct primes, and e and d are inverse exponents for it. */
  ghost predicate RsaKey(n: int, e: int, d: int, p: int, q: int) {
    && Prime(p) && Prime(q) && p != q && n == p * q
    && e >= 0 && d >= 0
    && (MulAtLeast(p - 1, q - 1); Cong(e * d, 1, (p - 1) * (q - 1)))
  }

  /** The exponent the identity needs: e * d is one more than a natural multiple of (p-1)(q-1). */
  lemma ExponentForm(e: nat, d: nat, p: int, q: int) returns (k: nat)
    requires Prime(p) && Prime(q) && p != q
    requires (p - 1) * (q - 1) > 0 && Cong(e * d, 1, (p - 1) * (q - 1))
    ensures e * d == 1 + k * ((p - 1) * (q - 1))
  {
    var phi := (p - 1) * (q - 1);
    var k0 := CongElim(e * d, 1, phi);
    assert phi > 1 by {
      if p > 2 { MulAtLeast(q - 1, p - 1); } else { MulAtLeast(p - 1, q - 1); }
    }
    assert e * d >= 0;
    MulNegate(phi, k0);
    assert (-k0) * phi == -(k0 * phi);
    if k0 < 0 {
      MulAtLeast(-k0, phi);
    }
    k := k0;
  }

  lemma RsaModuloBoth(t: int, p: int, q: int, k: nat, m: nat)
    requires Prime(p) && Prime(q) && m == k * ((p - 1) * (q - 1))
    ensures Cong(Pow(t, 1 + m), t, p) && Cong(Pow(t, 1 + m), t, q)
  {
    Regroup(k, p - 1, q - 1);
    RsaModuloPrime(t, p, k * (q - 1), m);
    RsaModuloPrime(t, q, k * (p - 1), m);
  }

  lemma Regroup(k: nat, x: nat, y: nat)
    ensures k * y >= 0 && k * x >= 0
    ensures k * (x * y) == x * (k * y) == y * (k * x)
  {
  }

  lemma CongModuloProduct(x: int, t: int, p: int, q: int)
    requires Prime(p) && Prime(q) && p != q && Cong(x, t, p) && Cong(x, t, q)
    ensures p * q > 0 && Cong(x, t, p * q)
  {
    CongIsDivides(x, t, p);
    CongIsDivides(x, t, q);
    DistinctPrimesCoprime(p, q);
    DividesProduct(x - t, p, q);
    CongIsDivides(x, t, p * q);
  }

  /** A small key, so that what follows is not about keys that do not exist. */
  lemma SmallKey()
    ensures RsaKey(33, 3, 7, 3, 11)
  {
    assert !Divides(2, 3);
    forall d | 1 < d < 11 ensures !Divides(d, 11) {
      assert d == 2 || d == 3 || d == 4 || d == 5 || d == 6 || d == 7 || d == 8 || d == 9 || d == 10;
    }
    MulAtLeast(2, 10);
    CongIntro(21, 1, 20, 1);
  }

  lemma PowersCommute(t: int, e: nat, d: nat)
    ensures e * d >= 0 && Pow(Pow(t, e), d) == Pow(t, e * d) == Pow(Pow(t, d), e)
  {
    PowPow(t, e, d);
    PowPow(t, d, e);
    assert d * e == e * d;
  }

  lemma KeyExponent(t: int, e: nat, d: nat, p: int, q: int)
    requires RsaKey(p * q, e, d, p, q)
    ensures p * q > 0 && e * d >= 0 && Cong(Pow(t, e * d), t, p * q)
  {
    MulAtLeast(p - 1, q - 1);
    var k := ExponentForm(e, d, p, q);
    RsaModuloBoth(t, p, q, k, e * d - 1);
    CongModuloProduct(Pow(t, e * d), t, p, q);
  }

  /** Raising to d and then to e, or the other way round, gives every t back modulo n. */
  lemma RsaIdentity(t: int, n: int, e: nat, d: nat, p: int, q: int)
    requires RsaKey(n, e, d, p, q)
    ensures n > 0 && Cong(Pow(Pow(t, d), e), t, n)
    ensures Cong(Pow(Pow(t, e), d), t, n)
  {
    KeyExponent(t, e, d, p, q);
    PowersCommute(t, e, d);
  }
}
