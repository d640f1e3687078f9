/**
 * RSA blind signatures: the client's modPow, blindToken and unblind, and the server's raw
 * private operation and verification. The private and public operations are RSASP1 and RSAVP1
 * of sections 5.2.1 and 5.2.2 of RFC 8017; the flow is the unpadded core of Blind, BlindSign
 * and Finalize of sections 4.2 to 4.4 of RFC 9474.
 */
module BlindSign {
  import opened Base
  import opened Arithmetic
  import opened Euclid
  import opened Primes
  import Hex

  datatype BlindError = BadHex | BadModulus | Unblindable | BadInputLength | DataTooLarge

  function Exponent(exp: int): nat {
    if exp > 0 then exp else 0
  }

  // ---- modular exponentiation ----

  /**
   * Square-and-multiply on BigInt. The result is congruent to the power; when |mod| exceeds one it
   * is exactly the truncated remainder of the power, which for a non-negative base is the least
   * residue.
   */
  method ModPow(base0: int, exp0: int, mod: int) returns (result: Result<int, BigIntError>)
    ensures mod == 0 <==> result == Err(DivisionByZero)
    ensures mod != 0 ==> result.Ok? && Cong(result.value, Pow(base0, Exponent(exp0)), Abs(mod))
    ensures mod != 0 && base0 >= 0 ==> result.value >= 0
    ensures Abs(mod) > 1 ==> result.value == JsRem(Pow(base0, Exponent(exp0)), mod)
    ensures mod > 1 && base0 >= 0 ==> result.value == Pow(base0, Exponent(exp0)) % mod
  {
    if mod == 0 {
      return Err(DivisionByZero);
    }
    var r, base, exp := 1, JsRem(base0, mod), exp0;
    FirstBase(base0, Exponent(exp0), mod);
    while exp > 0
      invariant JsRem(r * Pow(base, Exponent(exp)), mod) == JsRem(Pow(base0, Exponent(exp0)), mod)
      invariant if Abs(mod) > 1 then Abs(r) < Abs(mod) else 0 <= r <= 1
    {
      SquareStepSigned(r, base, exp, mod);
      Reduction(r * base, mod);
      if exp % 2 == 1 {
        r := JsRem(r * base, mod);
      }
      base := JsRem(base * base, mod);
      exp := exp / 2;
    }
    LastRemainder(r, Pow(base0, Exponent(exp0)), mod);
    if base0 >= 0 {
      PowNonNegative(base0, Exponent(exp0));
    }
    return Ok(r);
  }

  lemma FirstBase(base0: int, e: nat, mod: int)
    requires mod != 0
    ensures JsRem(1 * Pow(JsRem(base0, mod), e), mod) == JsRem(Pow(base0, e), mod)
  {
    Reduction(base0, mod);
    CongPow(JsRem(base0, mod), base0, e, Abs(mod));
    RemainderFollows(base0, mod);
    PowFollows(JsRem(base0, mod), base0, e);
    JsRemSame(Pow(JsRem(base0, mod), e), Pow(base0, e), mod);
  }

  /** What the loop leaves: the remainder of the power itself. */
  lemma LastRemainder(r: int, power: int, mod: int)
    requires mod != 0 && JsRem(r, mod) == JsRem(power, mod)
    requires if Abs(mod) > 1 then Abs(r) < Abs(mod) else 0 <= r <= 1
    ensures Cong(r, power, Abs(mod))
    ensures Abs(mod) > 1 ==> r == JsRem(power, mod)
    ensures power >= 0 ==> r >= 0
  {
    Reduction(r, mod);
    Reduction(power, mod);
    if Abs(mod) > 1 {
      SmallRemainder(r, mod);
    }
  }

  lemma SmallRemainder(r: int, mod: int)
    requires mod != 0 && Abs(r) < Abs(mod)
    ensures JsRem(r, mod) == r
  {
    DivModUnique(Abs(r), Abs(mod), 0, Abs(r));
  }

  lemma {:induction false} PowFollows(x: int, y: int, e: nat)
    requires Follows(x, y)
    ensures Follows(Pow(x, e), Pow(y, e))
  {
    if e > 0 {
      PowFollows(x, y, e - 1);
      ProductFollows(x, y, Pow(x, e - 1), Pow(y, e - 1));
    }
  }

  lemma ProductFollows(x: int, y: int, u: int, v: int)
    requires Follows(x, y) && Follows(u, v)
    ensures Follows(x * u, y * v)
  {
    if y == 0 || v == 0 {
      assert y * v == 0 && x * u == 0;
    } else if y > 0 && v > 0 {
      assert y * v > 0 && x * u >= 0;
    } else if y < 0 && v < 0 {
      assert y * v > 0 && x * u >= 0;
    } else {
      assert y * v < 0 && x * u <= 0;
    }
  }

  lemma RemainderFollows(x: int, mod: int)
    requires mod != 0
    ensures Follows(JsRem(x, mod), x)
  {
    JsDivision(x, mod);
  }

  lemma HalfPower(base: int, exp: nat)
    ensures Pow(base, exp) == (if exp % 2 == 1 then base else 1) * Pow(base * base, exp / 2)
  {
    var h := exp / 2;
    assert Pow(base, 2) == base * base by { assert Pow(base, 2) == base * Pow(base, 1); }
    PowPow(base, 2, h);
    if exp % 2 == 1 {
      assert Pow(base, exp) == base * Pow(base, 2 * h);
    }
  }

  /** An odd exponent takes one factor of the base into the result. */
  lemma OddFollows(r: int, base: int, x: int, y: int, mod: int)
    requires mod != 0 && Follows(x, y)
    ensures Follows(JsRem(r * base, mod) * x, r * (base * y))
  {
    RemainderFollows(r * base, mod);
    ProductFollows(JsRem(r * base, mod), r * base, x, y);
    assert (r * base) * y == r * (base * y);
  }

  lemma EvenFollows(r: int, x: int, y: int)
    requires Follows(x, y)
    ensures Follows(r * x, r * y)
  {
    ProductFollows(r, r, x, y);
  }

  lemma SquareStepFollows(r: int, base: int, exp: nat, mod: int)
    requires mod != 0 && exp > 0
    ensures var r' := if exp % 2 == 1 then JsRem(r * base, mod) else r;
            Follows(r' * Pow(JsRem(base * base, mod), exp / 2), r * Pow(base, exp))
  {
    var h, base' := exp / 2, JsRem(base * base, mod);
    var x, y := Pow(base', h), Pow(base * base, h);
    RemainderFollows(base * base, mod);
    PowFollows(base', base * base, h);
    HalfPower(base, exp);
    if exp % 2 == 1 {
      OddFollows(r, base, x, y, mod);
    } else {
      EvenFollows(r, x, y);
    }
  }

  /** One round keeps the truncated remainder of r * base^exp, sign included. */
  lemma SquareStepSigned(r: int, base: int, exp: nat, mod: int)
    requires mod != 0 && exp > 0
    ensures var r' := if exp % 2 == 1 then JsRem(r * base, mod) else r;
            JsRem(r' * Pow(JsRem(base * base, mod), exp / 2), mod) == JsRem(r * Pow(base, exp), mod)
  {
    var r' := if exp % 2 == 1 then JsRem(r * base, mod) else r;
    var base' := JsRem(base * base, mod);
    SquareStep(r, base, exp, Abs(mod));
    Reduction(base * base, mod);
    Reduction(r * base, mod);
    SquareStepFollows(r, base, exp, mod);
    JsRemSame(r' * Pow(base', exp / 2), r * Pow(base, exp), mod);
  }

  lemma Reduction(a: int, mod: int)
    requires mod != 0
    ensures JsRem(a, mod) == JsRem(a, Abs(mod)) && Abs(JsRem(a, mod)) < Abs(mod)
    ensures Cong(JsRem(a, mod), a, Abs(mod))
    ensures a >= 0 ==> JsRem(a, mod) >= 0
  {
    JsDivision(a, mod);
    JsRemCong(a, Abs(mod));
  }

  lemma ProductSign(x: int, y: int)
    ensures x >= 0 && y >= 0 ==> x * y >= 0
    ensures y * y >= 0
  {
  }

  /** One round of square-and-multiply keeps r * base^exp modulo m. */
  lemma SquareStep(r: int, base: int, exp: nat, m: nat)
    requires m > 0 && exp > 0
    ensures var r' := if exp % 2 == 1 then JsRem(r * base, m) else r;
            Cong(r' * Pow(JsRem(base * base, m), exp / 2), r * Pow(base, exp), m)
  {
    var h := exp / 2;
    var base' := JsRem(base * base, m);
    JsRemCong(base * base, m);
    CongPow(base', base * base, h, m);
    assert Pow(base, 2) == base * base by { assert Pow(base, 2) == base * Pow(base, 1); }
    PowPow(base, 2, h);
    if exp % 2 == 1 {
      JsRemCong(r * base, m);
      CongMul(JsRem(r * base, m), r * base, Pow(base', h), Pow(base, 2 * h), m);
      assert Pow(base, exp) == base * Pow(base, 2 * h);
      assert (r * base) * Pow(base, 2 * h) == r * (base * Pow(base, 2 * h));
    } else {
      CongMul(r, r, Pow(base', h), Pow(base, exp), m);
    }
  }

  // ---- blinding ----

  /** T * r^e modulo n. */
  function Blinded(t: nat, r: nat, n: nat, e: nat): nat
    requires n > 0
  {
    (t * Pow(r, e)) % n
  }

  /** The client's output text: the remainder of T * r^e in the width of the modulus text. */
  function BlindText(tokenHex: string, r: int, modulusHex: string, exponentHex: string): Result<string, BlindError> {
    match (Hex.Parse(modulusHex), Hex.Parse(exponentHex), Hex.Parse(tokenHex))
    case (Some(n), Some(e), Some(t)) =>
      if n == 0 then Err(BadModulus)
      else Ok(Hex.PadStart(Hex.SignedHex(JsRem(t * Pow(r, e), n)), |modulusHex|))
    case _ => Err(BadHex)
  }

  method BlindToken(tokenHex: string, r: int, modulusHex: string, exponentHex: string)
    returns (blinded: Result<string, BlindError>)
    ensures blinded == BlindText(tokenHex, r, modulusHex, exponentHex)
  {
    var n, e, t := Hex.Parse(modulusHex), Hex.Parse(exponentHex), Hex.Parse(tokenHex);
    if n.None? || e.None? || t.None? {
      return Err(BadHex);
    }
    var power := ModPow(r, e.value, n.value);
    if power.Err? {
      return Err(BadModulus);
    }
    var value := JsRem(t.value * power.value, n.value);
    if n.value > 1 {
      RemainderFollows(Pow(r, e.value), n.value);
      ProductFollows(t.value, t.value, power.value, Pow(r, e.value));
      CongMul(t.value, t.value, power.value, Pow(r, e.value), n.value);
      JsRemSame(t.value * power.value, t.value * Pow(r, e.value), n.value);
    } else {
      RemainderOfOne(t.value * power.value);
      RemainderOfOne(t.value * Pow(r, e.value));
    }
    return Ok(Hex.PadStart(Hex.SignedHex(value), |modulusHex|));
  }

  lemma RemainderOfOne(x: int)
    ensures JsRem(x, 1) == 0
  {
  }

  lemma ReducedProduct(x: nat, y: nat, target: int, n: nat)
    requires n > 0 && Cong(x * y, target, n)
    ensures x * y >= 0 && JsRem(x * y, n) == target % n
  {
  }

  /** The blind signature times the inverse of r, in the width of the modulus text. */
  function Unblind(blindSigHex: string, r: int, modulusHex: string): Result<string, BlindError> {
    match (Hex.Parse(modulusHex), Hex.Parse(blindSigHex))
    case (Some(n), Some(s)) =>
      (match ModInverse(r, n)
       case Err(DivisionByZero) => Err(BadModulus)
       case Err(NotInvertible) => Err(Unblindable)
       case Ok(inverse) =>
         ProductSign(s, inverse);
         RemainderFollows(s * inverse, n);
         Ok(Hex.PadStart(Hex.ToHex(JsRem(s * inverse, n)), |modulusHex|)))
    case _ => Err(BadHex)
  }

  // ---- the server's side ----

  /** privateDecrypt without padding: RSASP1 on a block of exactly `size` bytes. */
  function SignBlinded(blindedHex: string, n: nat, d: nat, size: nat): Result<string, BlindError>
    requires n > 0
  {
    var block := Hex.PadStart(blindedHex, 2 * size);
    match Hex.Parse(block)
    case None => Err(BadHex)
    case Some(m) =>
      if |block| != 2 * size then Err(BadInputLength)
      else if m >= n then Err(DataTooLarge)
      else PowNonNegative(m, d); Ok(Hex.PadStart(Hex.ToHex(Pow(m, d) % n), 2 * size))
  }

  /** sig^e mod n === T, the comparison the server makes. */
  function Accepts(tokenHex: string, signatureHex: string, n: nat, e: nat): Result<bool, BlindError>
    requires n > 1
  {
    match (Hex.Parse(tokenHex), Hex.Parse(signatureHex))
    case (Some(t), Some(s)) => Ok(Pow(s, e) % n == t)
    case _ => Err(BadHex)
  }

  method VerifyBlindSignature(tokenHex: string, signatureHex: string, n: nat, e: nat)
    returns (valid: Result<bool, BlindError>)
    requires n > 1
    ensures valid == Accepts(tokenHex, signatureHex, n, e)
  {
    var t, s := Hex.Parse(tokenHex), Hex.Parse(signatureHex);
    if t.None? || s.None? {
      return Err(BadHex);
    }
    var power := ModPow(s.value, e, n);
    return Ok(power.value == t.value);
  }

  // ---- the protocol ----

  lemma FactorCancels(x: int, y: int, r: int, inverse: int, n: nat)
    requires n > 0 && Cong(r * inverse, 1, n) && Cong(x, y * r, n)
    ensures Cong(x * inverse, y, n)
  {
    CongMul(x, y * r, inverse, inverse, n);
    assert (y * r) * inverse == y * (r * inverse);
    CongMul(y, y, r * inverse, 1, n);
  }

  /** Signing the blinded value and multiplying by an inverse of r leaves T^d. */
  lemma UnblindedValue(t: nat, r: nat, inverse: int, n: nat, e: nat, d: nat, p: int, q: int)
    requires RsaKey(n, e, d, p, q) && n > 0
    requires Cong(r * inverse, 1, n)
    ensures Cong((Pow(Blinded(t, r, n, e), d) % n) * inverse, Pow(t, d), n)
  {
    var b := t * Pow(r, e);
    var signed := Pow(Blinded(t, r, n, e), d);
    CongSelf(b, n);
    CongPow(Blinded(t, r, n, e), b, d, n);
    PowOfProduct(t, Pow(r, e), d);
    RsaIdentity(r, n, e, d, p, q);
    CongMul(Pow(t, d), Pow(t, d), Pow(Pow(r, e), d), r, n);
    CongSelf(signed, n);
    assert Cong(signed % n, Pow(t, d) * r, n);
    FactorCancels(signed % n, Pow(t, d), r, inverse, n);
  }

  /** The text of T^d modulo n in the width of the modulus; it does not mention r. */
  function SignatureText(t: nat, d: nat, n: nat, modulusHex: string): string
    requires n > 0
  {
    PowNonNegative(t, d);
    Hex.PadStart(Hex.ToHex(Pow(t, d) % n), |modulusHex|)
  }

  lemma BlindingSucceeds(tokenHex: string, r: nat, modulusHex: string, exponentHex: string, t: nat, n: nat, e: nat)
    requires n > 0
    requires Hex.Parse(modulusHex) == Some(n) && Hex.Parse(exponentHex) == Some(e) && Hex.Parse(tokenHex) == Some(t)
    ensures var blinded := BlindText(tokenHex, r, modulusHex, exponentHex);
            && blinded.Ok? && |blinded.value| == |modulusHex|
            && Hex.Parse(blinded.value) == Some(Blinded(t, r, n, e))
  {
    PowNonNegative(r, e);
    ProductSign(t, Pow(r, e));
    Hex.ResidueWidth(Blinded(t, r, n, e), modulusHex);
    Hex.PaddedRoundTrip(Blinded(t, r, n, e), |modulusHex|);
  }

  lemma SigningSucceeds(blindedHex: string, b: nat, n: nat, d: nat, size: nat)
    requires n > 0 && b < n && Hex.Parse(blindedHex) == Some(b) && |blindedHex| <= 2 * size
    ensures Pow(b, d) >= 0
    ensures var signed := SignBlinded(blindedHex, n, d, size);
            signed.Ok? && Hex.Parse(signed.value) == Some(Pow(b, d) % n)
  {
    Hex.PaddingKeepsValue(blindedHex, 2 * size);
    PowNonNegative(b, d);
    Hex.PaddedRoundTrip(Pow(b, d) % n, 2 * size);
  }

  /**
   * The whole flow, through every hex encoding: for any blinding factor coprime to n, blinding,
   * signing and unblinding succeed and give exactly T^d mod n, whatever r was; and the server
   * accepts that signature for T exactly when T is below n.
   */
  lemma BlindSignatureFlow(tokenHex: string, r: nat, modulusHex: string, exponentHex: string,
                           t: nat, n: nat, e: nat, d: nat, p: int, q: int, size: nat)
    requires RsaKey(n, e, d, p, q) && n > 1
    requires Hex.Parse(modulusHex) == Some(n) && Hex.Parse(exponentHex) == Some(e) && Hex.Parse(tokenHex) == Some(t)
    requires |modulusHex| <= 2 * size
    requires Coprime(r, n)
    ensures var blinded := BlindText(tokenHex, r, modulusHex, exponentHex);
            && blinded.Ok? && |blinded.value| == |modulusHex|
            && var signed := SignBlinded(blinded.value, n, d, size);
            && signed.Ok?
            && Unblind(signed.value, r, modulusHex) == Ok(SignatureText(t, d, n, modulusHex))
    ensures Accepts(tokenHex, SignatureText(t, d, n, modulusHex), n, e) == Ok(t < n)
  {
    BlindingSucceeds(tokenHex, r, modulusHex, exponentHex, t, n, e);
    var b := Blinded(t, r, n, e);
    var blinded := BlindText(tokenHex, r, modulusHex, exponentHex).value;
    SigningSucceeds(blinded, b, n, d, size);
    UnblindingSucceeds(SignBlinded(blinded, n, d, size).value, t, r, modulusHex, n, e, d, p, q);
    AcceptedIffReduced(t, n, e, d, p, q);
    PowNonNegative(t, d);
    Hex.PaddedRoundTrip(Pow(t, d) % n, |modulusHex|);
  }

  lemma UnblindingSucceeds(signedHex: string, t: nat, r: nat, modulusHex: string,
                           n: nat, e: nat, d: nat, p: int, q: int)
    requires RsaKey(n, e, d, p, q) && n > 1 && Coprime(r, n)
    requires Hex.Parse(modulusHex) == Some(n)
    requires Pow(Blinded(t, r, n, e), d) >= 0
    requires Hex.Parse(signedHex) == Some(Pow(Blinded(t, r, n, e), d) % n)
    ensures Unblind(signedHex, r, modulusHex) == Ok(SignatureText(t, d, n, modulusHex))
  {
    ModInverseThrowsIffNotCoprime(r, n);
    var inverse := ModInverse(r, n).value;
    var s := Pow(Blinded(t, r, n, e), d) % n;
    UnblindedValue(t, r, inverse, n, e, d, p, q);
    ReducedProduct(s, inverse, Pow(t, d), n);
  }

  lemma AcceptedIffReduced(t: nat, n: nat, e: nat, d: nat, p: int, q: int)
    requires RsaKey(n, e, d, p, q) && n > 1
    ensures Pow(Pow(t, d) % n, e) % n == t <==> t < n
  {
    CongSelf(Pow(t, d), n);
    CongPow(Pow(t, d) % n, Pow(t, d), e, n);
    RsaIdentity(t, n, e, d, p, q);
    if t < n {
      DivModUnique(t, n, 0, t);
    }
  }

  // ---- blinding hides the token ----

  lemma BlindedIsUnit(t: nat, r: nat, n: nat, e: nat)
    requires n > 0 && Coprime(t, n) && Coprime(r, n)
    ensures Coprime(Blinded(t, r, n, e), n)
  {
    CoprimePow(r, e, n);
    CoprimeProduct(t, Pow(r, e), n);
    CongSelf(t * Pow(r, e), n);
    CoprimeCong(t * Pow(r, e), Blinded(t, r, n, e), n);
  }

  lemma BlindingInjective(t: nat, r1: nat, r2: nat, n: nat, e: nat, d: nat, p: int, q: int)
    requires RsaKey(n, e, d, p, q) && n > 0
    requires Coprime(t, n) && r1 < n && r2 < n
    requires Blinded(t, r1, n, e) == Blinded(t, r2, n, e)
    ensures r1 == r2
  {
    Cancel(Pow(r1, e), Pow(r2, e), t, n);
    CongPow(Pow(r1, e), Pow(r2, e), d, n);
    RsaIdentity(r1, n, e, d, p, q);
    RsaIdentity(r2, n, e, d, p, q);
    DivModUnique(r1, n, 0, r1);
    DivModUnique(r2, n, 0, r2);
  }

  lemma BlindingReaches(t: nat, b: nat, n: nat, e: nat, d: nat, p: int, q: int) returns (r: nat)
    requires RsaKey(n, e, d, p, q) && n > 1
    requires Coprime(t, n) && Coprime(b, n) && b < n
    ensures r < n && Coprime(r, n) && Blinded(t, r, n, e) == b
  {
    ModInverseThrowsIffNotCoprime(t, n);
    var u := ModInverse(t, n).value;
    ProductSign(b, u);
    r := Preimage(b * u, n, d);
    CongPow(r, Pow(b * u, d), e, n);
    RsaIdentity(b * u, n, e, d, p, q);
    Unscaled(t, u, b, Pow(r, e), n);
    PreimageIsUnit(t, u, b, r, n, d);
  }

  lemma Unscaled(t: int, u: int, b: nat, x: int, n: nat)
    requires n > 0 && b < n && Cong(t * u, 1, n) && Cong(x, b * u, n)
    ensures (t * x) % n == b
  {
    CongMul(t, t, x, b * u, n);
    assert t * (b * u) == b * (t * u);
    CongMul(b, b, t * u, 1, n);
    DivModUnique(b, n, 0, b);
  }

  lemma PreimageIsUnit(t: int, u: int, b: int, r: int, n: nat, d: nat)
    requires n > 0 && Cong(t * u, 1, n) && Coprime(b, n) && Cong(r, Pow(b * u, d), n)
    ensures Coprime(r, n)
  {
    BezoutOfInverse(t, u, n);
    CoprimeProduct(b, u, n);
    CoprimePow(b * u, d, n);
    CoprimeCong(Pow(b * u, d), r, n);
  }

  /**
   * For a fixed unit token, blinding is a permutation of the units: every unit b is the blinded
   * value of exactly one blinding factor below n, and that factor is a unit.
   */
  lemma BlindingPermutesUnits(t: nat, b: nat, n: nat, e: nat, d: nat, p: int, q: int) returns (r: nat)
    requires RsaKey(n, e, d, p, q) && n > 1
    requires Coprime(t, n) && Coprime(b, n) && b < n
    ensures r < n && Coprime(r, n) && Blinded(t, r, n, e) == b
    ensures forall r': nat :: r' < n && Blinded(t, r', n, e) == b ==> r' == r
  {
    r := BlindingReaches(t, b, n, e, d, p, q);
    forall r': nat | r' < n && Blinded(t, r', n, e) == b ensures r' == r {
      BlindingInjective(t, r', r, n, e, d, p, q);
    }
  }

  lemma Preimage(x: nat, n: nat, d: nat) returns (r: nat)
    requires n > 0
    ensures r == Pow(x, d) % n && r < n && Cong(r, Pow(x, d), n)
  {
    PowNonNegative(x, d);
    r := Pow(x, d) % n;
    CongSelf(Pow(x, d), n);
  }

  lemma BezoutOfInverse(t: int, u: int, n: int)
    requires n > 0 && Cong(t * u, 1, n)
    ensures Coprime(u, n)
  {
    var k := CongElim(t * u, 1, n);
    assert u * t + n * (-k) == 1;
    BezoutIsCoprime(u, n, t, -k);
  }
}
