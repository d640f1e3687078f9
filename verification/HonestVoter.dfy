/**
 * The two halves of the protocol together: a voter who blinds a token, has it signed and votes
 * with the unblinded signature is accepted, whatever blinding factor was used.
 */
module HonestVoter {
  import opened Base
  import opened Euclid
  import opened Primes
  import Hex
  import BlindSign
  import opened VotingStore

  /** One option is a permitted choice in this voting at this time. */
  predicate MayChoose(st: State, voting: VotingRow, v: string, id: string, now: int) {
    && !voting.isFinalized && CheckTiming(voting, now).None?
    && IsOptionOf(st.options, v, id)
    && voting.minChoices <= 1 && (voting.maxChoices.Some? ==> voting.maxChoices.value >= 1)
  }

  /** The request an honest voter makes with the signature that unblinding gave. */
  function HonestRequest(v: string, id: string, tokenHash: string, signature: string, valid: bool): Request {
    Request(v, [id], tokenHash, signature, valid, "", false, false, "")
  }

  lemma NewReceiptIsUnique(ballots: seq<Ballot>, b: Ballot)
    requires UniqueHashes(ballots) && forall i | 0 <= i < |ballots| :: ballots[i].ballotHash != b.ballotHash
    ensures UniqueHashes(ballots + [b])
  {
  }

  /** A pending token with a valid signature on a permitted option is accepted before it expires. */
  lemma PendingVoteIsAccepted(st: State, v: string, id: string, tokenHash: string, signature: string, now: int)
    requires UniqueHashes(st.ballots)
    requires FindVoting(st, v).Some? && MayChoose(st, FindVoting(st, v).value, v, id, now)
    requires tokenHash in st.pending && v in st.keys
    requires st.pending[tokenHash].votingId == Some(v) && !st.pending[tokenHash].isPractice
    requires now <= st.pending[tokenHash].expiresAt
    requires forall i | 0 <= i < |st.ballots| :: st.ballots[i].ballotHash.signature != signature
    ensures Vote(st, HonestRequest(v, id, tokenHash, signature, true), now).1 == Ok(false)
  {
    var req := HonestRequest(v, id, tokenHash, signature, true);
    var ballot := Ballot(v, Some(id), false, Receipt(v, id, signature));
    assert CheckContent(st, FindVoting(st, v).value, req).None?;
    assert NewBallots(st, req) == [ballot];
    NewReceiptIsUnique(st.ballots, ballot);
  }

  /**
   * After a token has been issued, the signature obtained through any blinding factor coprime to
   * n verifies, and a vote for a permitted option within the hour is accepted.
   */
  lemma HonestVoteIsAccepted(
      st: State, v: string, userId: string, tokenHash: string, id: string, issuedAt: int, now: int,
      tokenHex: string, r: nat, modulusHex: string, exponentHex: string,
      t: nat, n: nat, e: nat, d: nat, p: int, q: int, size: nat)
    requires RsaKey(n, e, d, p, q) && n > 1 && t < n && Coprime(r, n) && |modulusHex| <= 2 * size
    requires Hex.Parse(modulusHex) == Some(n) && Hex.Parse(exponentHex) == Some(e) && Hex.Parse(tokenHex) == Some(t)
    requires Sign(st, v, userId, tokenHash, false, issuedAt).1.Ok? && now <= issuedAt + HOUR
    requires UniqueHashes(st.ballots) && MayChoose(st, FindVoting(st, v).value, v, id, now)
    requires forall i | 0 <= i < |st.ballots| ::
               st.ballots[i].ballotHash.signature != BlindSign.SignatureText(t, d, n, modulusHex)
    ensures var blinded := BlindSign.BlindText(tokenHex, r, modulusHex, exponentHex);
            && blinded.Ok? && BlindSign.SignBlinded(blinded.value, n, d, size).Ok?
    ensures var signed := BlindSign.SignBlinded(BlindSign.BlindText(tokenHex, r, modulusHex, exponentHex).value, n, d, size);
            var signature := BlindSign.Unblind(signed.value, r, modulusHex);
            && signature.Ok?
            && var valid := BlindSign.Accepts(tokenHex, signature.value, n, e) == Ok(true);
            && Vote(Sign(st, v, userId, tokenHash, false, issuedAt).0,
                    HonestRequest(v, id, tokenHash, signature.value, valid), now).1 == Ok(false)
  {
    BlindSign.BlindSignatureFlow(tokenHex, r, modulusHex, exponentHex, t, n, e, d, p, q, size);
    PendingVoteIsAccepted(Sign(st, v, userId, tokenHash, false, issuedAt).0, v, id, tokenHash,
                          BlindSign.SignatureText(t, d, n, modulusHex), now);
  }
}
