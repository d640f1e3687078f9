/**
 * Which texts the server accepts as a signature. It reads the text as a number modulo n, while
 * receipts are keyed on the text, so one signature has receipts without end.
 */
module SignatureTexts {
  import opened Base
  import opened Arithmetic
  import opened Primes
  import Hex
  import opened BlindSign
  import VoteLock
  import VoteOnce

  /** A number whose e-th power is T modulo n is T to the d. */
  lemma RootIsUnique(t: nat, s: nat, n: nat, e: nat, d: nat, p: int, q: int)
    requires RsaKey(n, e, d, p, q) && n > 0 && Cong(Pow(s, e), t, n)
    ensures Cong(s, Pow(t, d), n)
  {
    CongPow(Pow(s, e), t, d, n);
    RsaIdentity(s, n, e, d, p, q);
  }

  lemma RootIsRoot(t: nat, s: nat, n: nat, e: nat, d: nat, p: int, q: int)
    requires RsaKey(n, e, d, p, q) && n > 0 && Cong(s, Pow(t, d), n)
    ensures Cong(Pow(s, e), t, n)
  {
    CongPow(s, Pow(t, d), e, n);
    RsaIdentity(t, n, e, d, p, q);
  }

  lemma IsResidueIff(x: int, t: nat, n: nat)
    requires n > 0
    ensures x % n == t <==> t < n && Cong(x, t, n)
  {
  }

  /** A text is accepted for a token T exactly when T is below n and the text's value is T to the d modulo n. */
  lemma AcceptedTextIff(
      tokenHex: string, signatureHex: string, t: nat, s: nat, n: nat, e: nat, d: nat, p: int, q: int)
    requires RsaKey(n, e, d, p, q) && n > 1
    requires Hex.Parse(tokenHex) == Some(t) && Hex.Parse(signatureHex) == Some(s)
    ensures Accepts(tokenHex, signatureHex, n, e) == Ok(true) <==> t < n && Cong(s, Pow(t, d), n)
  {
    IsResidueIff(Pow(s, e), t, n);
    if Cong(Pow(s, e), t, n) {
      RootIsUnique(t, s, n, e, d, p, q);
    }
    if Cong(s, Pow(t, d), n) {
      RootIsRoot(t, s, n, e, d, p, q);
    }
  }

  /** Any two texts of the same value are accepted alike: another case, or more leading zeros. */
  lemma SameValueAccepted(tokenHex: string, a: string, b: string, n: nat, e: nat)
    requires n > 1 && Hex.Parse(a) == Hex.Parse(b)
    ensures Accepts(tokenHex, a, n, e) == Accepts(tokenHex, b, n, e)
  {
  }

  lemma LeadingZero(x: string)
    requires Hex.Parse(x).Some?
    ensures Hex.Parse("0" + x) == Hex.Parse(x)
  {
    Hex.LeadingZeros(1, x);
    assert Hex.Zeros(1) == Hex.Zeros(0) + "0" == "0";
  }

  lemma ModOfShifted(s: nat, n: nat)
    requires n > 0
    ensures Cong(s + n, s, n)
  {
    assert (s + n) - s == 1 * n;
    CongIntro(s + n, s, n, 1);
  }

  /** Adding the modulus to the value changes nothing either. */
  lemma AddedModulus(tokenHex: string, x: string, n: nat, e: nat)
    requires n > 1 && Hex.Parse(x).Some?
    ensures var y := Hex.ToHex(Hex.Parse(x).value + n);
      Accepts(tokenHex, y, n, e) == Accepts(tokenHex, x, n, e) && Hex.Parse(y) != Hex.Parse(x)
  {
    var s := Hex.Parse(x).value;
    Hex.ToHexValue(s + n);
    assert Cong(s + n, s, n) by { ModOfShifted(s, n); }
    CongPow(s + n, s, e, n);
  }

  /**
   * Two calls for the same option with two texts of one accepted signature: both are accepted, share
   * no receipt, and commit the token twice.
   */
  lemma OneOptionCommitsTwice(tokenHex: string, x: string, n: nat, e: nat, option: string, user: string, other: string)
    requires n > 1 && Accepts(tokenHex, x, n, e) == Ok(true)
    ensures Accepts(tokenHex, "0" + x, n, e) == Ok(true)
    ensures var w := VoteOnce.TwoCalls(user, VoteLock.Receipt(option, x), other, VoteLock.Receipt(option, "0" + x));
      && VoteLock.Initial(w) && VoteLock.Runs(w, VoteOnce.Overtaking(0, 0, 1))
      && VoteLock.Commits(VoteLock.RunAll(w, VoteOnce.Overtaking(0, 0, 1)), "t") == 2
  {
    LeadingZero(x);
    SameValueAccepted(tokenHex, x, "0" + x, n, e);
    assert |"0" + x| != |x|;
    VoteOnce.DifferentReceiptsCommitTwice(user, VoteLock.Receipt(option, x), other, VoteLock.Receipt(option, "0" + x));
  }
}
