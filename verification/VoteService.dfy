/**
 * The vote and voting services as the object they are: the stored tables and the Redis keys are
 * fields that each call updates in place. Every method is proved to have exactly the effect of its
 * state function, so the guarantees proved for runs of those hold of the object.
 */
module VoteServices {
  import opened Base
  import opened Counting
  import opened Rows
  import VotingStore
  import opened VotingTallies
  import opened VotingInvariants

  type VotingRow = VotingStore.VotingRow
  type OptionRow = VotingStore.OptionRow
  type Ballot = VotingStore.Ballot
  type Receipt = VotingStore.Receipt
  type Refusal = VotingStore.Refusal
  type Results = VotingStore.Results
  type State = VotingStore.State

  function Hashes(ballots: seq<Ballot>): seq<Receipt> {
    Project(ballots, VotingStore.HashOf())
  }

  lemma GuardsIgnoreHistory(a: State, b: State, req: VotingStore.Request, now: int)
    requires a.(history := []) == b.(history := [])
    ensures VotingStore.CheckVote(a, req, now) == VotingStore.CheckVote(b, req, now)
    ensures VotingStore.NewBallots(a, req) == VotingStore.NewBallots(b, req)
    ensures VotingStore.CheckCommit(a, req) == VotingStore.CheckCommit(b, req)
  {
    assert a.options == b.options && a.ballots == b.ballots;
  }

  /** The receipts of an accepted vote are those of the ballots it added, in order. */
  lemma AcceptedReceipts(st: State, req: VotingStore.Request, now: int)
    requires VotingStore.Vote(st, req, now).1 == Ok(false)
    ensures var added := VotingStore.Vote(st, req, now).0.ballots[|st.ballots|..];
      var receipts := Hashes(VotingStore.NewBallots(st, req));
      |receipts| == |added| && forall k | 0 <= k < |added| :: receipts[k] == added[k].ballotHash
  {
  }

  /** Those of a practice vote are for its choices or its abstention, and none for an Other answer. */
  lemma PracticeReceipts(st: State, req: VotingStore.Request)
    ensures var receipts, n := Hashes(VotingStore.NewBallots(st, req.(other := ""))), |req.optionIds|;
      && |receipts| == n + (if req.isAbstention then 1 else 0)
      && (forall k | 0 <= k < n :: receipts[k] == VotingStore.Receipt(req.votingId, req.optionIds[k], req.signature))
      && (req.isAbstention ==> receipts[n] == VotingStore.Receipt(req.votingId, "abstention", req.signature))
  {
  }

  class VoteService {
    var votings: map<string, VotingRow>
    var options: seq<OptionRow>
    var ballots: seq<Ballot>
    var participations: set<VotingStore.Participation>
    var pending: map<string, VotingStore.Pending>
    var keys: set<string>
    var totalVotes: map<string, nat>
    var snapshots: map<string, VotingStore.Snapshot>
    var results: map<string, VotingStore.Sealed>
    ghost var history: seq<VotingStore.Spent>

    /** What is stored, without the record kept for the proofs. */
    function Stored(): State
      reads this
    {
      VotingStore.State(votings, options, ballots, participations, pending, keys, totalVotes, snapshots, results, [])
    }

    ghost function Current(): State
      reads this
    {
      Stored().(history := history)
    }

    /** The unique index on ballot hashes holds. */
    ghost predicate Valid()
      reads this
    {
      VotingStore.UniqueHashes(ballots)
    }

    constructor ()
      ensures Valid() && Current() == VotingStore.EMPTY && Invariant(Current())
    {
      votings, options, ballots, participations, pending := map[], [], [], {}, map[];
      keys, totalVotes, snapshots, results := {}, map[], map[], map[];
      history := [];
      new;
      EmptyHolds();
    }

    // ---- issuing a blind signature ----

    method SignBlindedToken(v: string, userId: string, tokenHash: string, isPractice: bool, now: int)
      returns (outcome: Result<(), Refusal>)
      requires Valid()
      modifies this`keys, this`pending, this`participations
      ensures Valid() && (Current(), outcome) == VotingStore.Sign(old(Current()), v, userId, tokenHash, isPractice, now)
    {
      if v !in votings || votings[v].isDeleted {
        return Err(VotingStore.NotFound);
      }
      var participation := VotingStore.Participation(userId, v);
      if !isPractice && participation in participations {
        return Err(VotingStore.AlreadyParticipated);
      }
      keys := keys + {v};
      if tokenHash in pending {
        return Err(VotingStore.TokenInUse);
      }
      pending := pending[tokenHash := VotingStore.Pending(userId, Some(v), None, isPractice, now + VotingStore.HOUR)];
      if !isPractice {
        participations := participations + {participation};
      }
      return Ok(());
    }

    // ---- voting ----

    /** The first dynamic option of the voting with this text. */
    method FindDynamicOption(v: string, text: string) returns (found: Option<string>)
      ensures found == VotingStore.FindDynamic(options, v, text)
    {
      var i := 0;
      while i < |options|
        invariant 0 <= i <= |options|
        invariant VotingStore.FindDynamic(options, v, text) == VotingStore.FindDynamic(options[i..], v, text)
      {
        if options[i].votingId == v && options[i].text == text && options[i].isDynamic {
          return Some(options[i].id);
        }
        i := i + 1;
      }
      return None;
    }

    /** All ballots are stored, or none when a receipt is taken. */
    method CreateBallots(added: seq<Ballot>) returns (stored: bool)
      requires Valid()
      modifies this`ballots
      ensures Valid()
      ensures stored <==> VotingStore.UniqueHashes(old(ballots) + added)
      ensures ballots == if stored then old(ballots) + added else old(ballots)
    {
      stored, ballots := InsertAll(ballots, added, VotingStore.HashOf());
    }

    /** One receipt and one ballot per chosen option. */
    method HashChoices(v: string, ids: seq<string>, signature: string) returns (receipts: seq<Receipt>, added: seq<Ballot>)
      ensures added == VotingStore.OptionBallots(v, ids, signature) && receipts == Hashes(added)
    {
      receipts, added := [], [];
      var i := 0;
      while i < |ids|
        invariant 0 <= i <= |ids|
        invariant added == VotingStore.OptionBallots(v, ids[..i], signature) && receipts == Hashes(added)
      {
        var receipt := VotingStore.Receipt(v, ids[i], signature);
        receipts := receipts + [receipt];
        added := added + [VotingStore.Ballot(v, Some(ids[i]), false, receipt)];
        i := i + 1;
      }
      assert ids[..i] == ids;
    }

    /** The transaction of a vote: find or create the Other option, insert the ballots, spend the token. */
    method StoreVote(req: VotingStore.Request, hashed: seq<Ballot>)
      returns (refusal: Option<Refusal>, added: seq<Ballot>)
      requires Valid() && req.tokenHash in pending
      requires hashed + (if req.other != ""
                         then VotingStore.OptionBallots(req.votingId, [VotingStore.OtherId(Stored(), req)], req.signature)
                         else [])
            == VotingStore.NewBallots(Stored(), req)
      modifies this`options, this`ballots, this`pending
      ensures Valid()
      ensures refusal == VotingStore.CheckCommit(old(Stored()), req)
      ensures refusal.Some? ==> Stored() == old(Stored())
      ensures refusal.None? ==>
                && added == VotingStore.NewBallots(old(Stored()), req)
                && pending == old(pending) - {req.tokenHash} && ballots == old(ballots) + added
                && options == VotingStore.Commit(old(Stored()), req).options
    {
      var v := req.votingId;
      var before := options;
      added := hashed;
      if req.other != "" {
        var found := FindDynamicOption(v, req.other);
        if found.None? {
          if VotingStore.IdTaken(options, req.newOptionId) {
            return Some(VotingStore.IdInUse), added;
          }
          options := options + [VotingStore.OptionRow(req.newOptionId, v, req.other, true)];
          found := Some(req.newOptionId);
        }
        added := added + VotingStore.OptionBallots(v, [found.value], req.signature);
      }
      assert added == VotingStore.NewBallots(old(Stored()), req);
      assert Stored().ballots == old(Stored()).ballots;
      var stored := CreateBallots(added);
      if !stored {
        options := before;
        return Some(VotingStore.DuplicateBallot), added;
      }
      pending := pending - {req.tokenHash};
      return None, added;
    }

    /** The guards of a vote, in their order. */
    method Admit(req: VotingStore.Request, now: int) returns (refusal: Option<Refusal>)
      ensures refusal == VotingStore.CheckVote(Stored(), req, now)
    {
      var v := req.votingId;
      if req.tokenHash !in pending || (pending[req.tokenHash].votingId.Some? && pending[req.tokenHash].votingId.value != v) {
        return Some(VotingStore.InvalidToken);
      }
      if pending[req.tokenHash].expiresAt < now {
        return Some(VotingStore.TokenExpired);
      }
      if v !in keys {
        return Some(VotingStore.NoSigningKey);
      }
      if !req.signatureValid {
        return Some(VotingStore.InvalidSignature);
      }
      if v !in votings || votings[v].isDeleted {
        return Some(VotingStore.NotFound);
      }
      if votings[v].isFinalized {
        return Some(VotingStore.IsFinalized);
      }
      refusal := VotingStore.CheckTiming(votings[v], now);
      if refusal.None? {
        refusal := VotingStore.CheckContent(Stored(), votings[v], req);
      }
    }

    /** The ballots known before the transaction: the options, then the abstention. */
    method HashBallots(req: VotingStore.Request) returns (receipts: seq<Receipt>, hashed: seq<Ballot>)
      ensures receipts == Hashes(hashed)
      ensures hashed == VotingStore.NewBallots(Stored(), req.(other := ""))
      ensures hashed + (if req.other != ""
                        then VotingStore.OptionBallots(req.votingId, [VotingStore.OtherId(Stored(), req)], req.signature)
                        else [])
           == VotingStore.NewBallots(Stored(), req)
    {
      receipts, hashed := HashChoices(req.votingId, req.optionIds, req.signature);
      if req.isAbstention {
        var receipt := VotingStore.Receipt(req.votingId, "abstention", req.signature);
        receipts := receipts + [receipt];
        hashed := hashed + [VotingStore.Ballot(req.votingId, None, true, receipt)];
      }
    }

    /** The Redis side of an accepted vote: count it and drop the stale snapshot. */
    method RecordAccepted(req: VotingStore.Request, ghost issuedHere: bool)
      modifies this`totalVotes, this`snapshots, this`history
      ensures totalVotes == old(totalVotes)[req.votingId := VotingStore.TotalVotes(old(Stored()), req.votingId) + 1]
      ensures snapshots == old(snapshots) - {req.votingId}
      ensures history == old(history) + [VotingStore.Accepted(req.votingId, req.tokenHash, issuedHere)]
    {
      var v := req.votingId;
      totalVotes := totalVotes[v := (if v in totalVotes then totalVotes[v] else 0) + 1];
      snapshots := snapshots - {v};
      history := history + [VotingStore.Accepted(v, req.tokenHash, issuedHere)];
    }

    /** Stores a vote that passed its guards, and counts it; a refused commit changes nothing. */
    method CommitVote(req: VotingStore.Request, hashed: seq<Ballot>)
      returns (refusal: Option<Refusal>, receipts: seq<Receipt>)
      requires Valid() && req.tokenHash in pending
      requires hashed + (if req.other != ""
                         then VotingStore.OptionBallots(req.votingId, [VotingStore.OtherId(Stored(), req)], req.signature)
                         else [])
            == VotingStore.NewBallots(Stored(), req)
      modifies this
      ensures Valid()
      ensures refusal == VotingStore.CheckCommit(old(Stored()), req)
      ensures Current() == if refusal.Some? then old(Current()) else VotingStore.Commit(old(Current()), req)
      ensures refusal.None? ==> receipts == Hashes(VotingStore.NewBallots(old(Stored()), req))
    {
      GuardsIgnoreHistory(Current(), Stored(), req, 0);
      var issuer := pending[req.tokenHash].votingId;
      var added;
      refusal, added := StoreVote(req, hashed);
      receipts := Hashes(added);
      if refusal.None? {
        RecordAccepted(req, issuer == Some(req.votingId));
      }
    }

    /**
     * The receipts of an accepted vote are those of the ballots it stored, in order; a practice
     * vote gets the receipts its choices would have had, but none for an Other answer.
     */
    method Vote(req: VotingStore.Request, now: int) returns (outcome: Result<bool, Refusal>, receipts: seq<Receipt>)
      requires Valid()
      modifies this
      ensures Valid() && (Current(), outcome) == VotingStore.Vote(old(Current()), req, now)
      ensures outcome == Ok(false) ==> receipts == Hashes(VotingStore.NewBallots(old(Current()), req))
      ensures outcome == Ok(true) ==> receipts == Hashes(VotingStore.NewBallots(old(Current()), req.(other := "")))
    {
      receipts := [];
      GuardsIgnoreHistory(Current(), Stored(), req, now);
      GuardsIgnoreHistory(Current(), Stored(), req.(other := ""), now);
      var refusal := Admit(req, now);
      if refusal.Some? {
        return Err(refusal.value), receipts;
      }
      var hashed;
      receipts, hashed := HashBallots(req);
      if pending[req.tokenHash].isPractice || req.isPractice {
        return Ok(true), receipts;
      }
      refusal, receipts := CommitVote(req, hashed);
      if refusal.Some? {
        return Err(refusal.value), receipts;
      }
      return Ok(false), receipts;
    }

    // ---- results ----

    /** Recounts the ballots and caches what it found while the voting is open. */
    method LiveResults(v: string, voting: VotingRow, now: int) returns (live: Results)
      modifies this`snapshots
      ensures (Current(), live) == VotingStore.FreshResults(old(Current()), v, voting, now)
    {
      var isClosed := VotingStore.IsClosed(voting, now);
      live := VotingStore.Recount(Stored(), v, voting.allowOther, isClosed);
      if !isClosed {
        snapshots := snapshots[v := VotingStore.Snapshot(live, now + 7200 * 1000)];
      }
    }

    method GetResults(v: string, forceFresh: bool, now: int) returns (outcome: Result<Results, Refusal>)
      requires Valid()
      modifies this`votings, this`snapshots
      ensures Valid() && (Current(), outcome) == VotingStore.GetResults(old(Current()), v, forceFresh, now)
    {
      if v !in votings || votings[v].isDeleted {
        return Err(VotingStore.NotFound);
      }
      var voting := votings[v];
      var isClosed := VotingStore.IsClosed(voting, now);
      if voting.isFinalized && v in results {
        return Ok(VotingStore.SealedResults(Stored(), v, results[v], voting.allowOther, isClosed));
      }
      if !isClosed && !forceFresh {
        var next := VotingStore.NextBroadcast(voting);
        if now < next && v in snapshots && now < snapshots[v].expiresAt {
          return Ok(snapshots[v].results);
        }
        if now >= next {
          votings := votings[v := voting.(lastBroadcastAt := Some(now))];
        }
      }
      var live := LiveResults(v, voting, now);
      return Ok(live);
    }

    // ---- finalising ----

    method FinalizeVoting(v: string, secure: bool, now: int) returns (outcome: Result<VotingStore.Sealed, Refusal>)
      requires Valid()
      modifies this`votings, this`results
      ensures Valid() && (Current(), outcome) == VotingStore.Finalize(old(Current()), v, secure, now)
    {
      if v !in votings || votings[v].isDeleted {
        return Err(VotingStore.NotFound);
      }
      var voting := votings[v];
      if voting.isFinalized {
        return Err(VotingStore.IsFinalized);
      }
      if voting.endAt.Some? && now < voting.endAt.value {
        return Err(VotingStore.NotEnded);
      }
      if !secure {
        return Err(VotingStore.NotSecure);
      }
      var tally := VotingStore.Tally(Stored(), v);
      if v in results {
        return Err(VotingStore.IdInUse);
      }
      votings := votings[v := voting.(isFinalized := true)];
      results := results[v := tally];
      return Ok(tally);
    }

    // ---- creating and editing ----

    method CreateVoting(v: string, row: VotingRow, minChoices: Option<int>, drafts: seq<VotingStore.Draft>, permitted: bool)
      returns (outcome: Result<(), Refusal>)
      requires Valid()
      modifies this`votings, this`options
      ensures Valid() && (Current(), outcome) == VotingStore.Create(old(Current()), v, row, minChoices, drafts, permitted)
    {
      if !permitted {
        return Err(VotingStore.NoPermission);
      }
      if |drafts| < 2 {
        return Err(VotingStore.TooFewOptions);
      }
      if VotingStore.BadBounds(row.multipleChoice, minChoices, row.maxChoices) {
        return Err(VotingStore.BadChoiceBounds);
      }
      var rows := VotingStore.NewRows(v, drafts);
      if v in votings || !VotingStore.DistinctIds(options + rows) {
        return Err(VotingStore.IdInUse);
      }
      votings := votings[v := row.(isFinalized := false, isDeleted := false, minChoices := VotingStore.Or(minChoices, 1),
                                   lastBroadcastAt := None)];
      options := options + rows;
      return Ok(());
    }

    method Update(v: string, edit: VotingStore.Edit, permitted: bool, now: int) returns (outcome: Result<Results, Refusal>)
      requires Valid()
      modifies this`votings, this`snapshots
      ensures Valid() && (Current(), outcome) == VotingStore.Update(old(Current()), v, edit, permitted, now)
    {
      if v !in votings || votings[v].isDeleted {
        return Err(VotingStore.NotFound);
      }
      var voting := votings[v];
      if !permitted {
        return Err(VotingStore.NoPermission);
      }
      if voting.isFinalized {
        return Err(VotingStore.IsFinalized);
      }
      if VotingStore.BadBounds(VotingStore.Or(edit.retyped, voting.multipleChoice), edit.minChoices, edit.maxChoices) {
        return Err(VotingStore.BadChoiceBounds);
      }
      votings := votings[v := VotingStore.Edited(voting, edit)];
      outcome := GetResults(v, false, now);
    }

    method UpdateOption(v: string, optionId: string, text: string, permitted: bool, now: int)
      returns (outcome: Result<Results, Refusal>)
      requires Valid()
      modifies this`votings, this`options, this`snapshots
      ensures Valid()
           && (Current(), outcome) == VotingStore.UpdateOption(old(Current()), v, optionId, text, permitted, now)
    {
      if v !in votings || votings[v].isDeleted {
        return Err(VotingStore.NotFound);
      }
      if !permitted {
        return Err(VotingStore.NoPermission);
      }
      if votings[v].isFinalized {
        return Err(VotingStore.IsFinalized);
      }
      if Count(ballots, VotingStore.InVoting(v)) > 0 {
        return Err(VotingStore.BallotsExist);
      }
      if !VotingStore.IdTaken(options, optionId) {
        return Err(VotingStore.NotFound);
      }
      options := VotingStore.Retext(options, optionId, text);
      outcome := GetResults(v, false, now);
    }

    method Delete(v: string, permitted: bool) returns (outcome: Result<(), Refusal>)
      requires Valid()
      modifies this`votings
      ensures Valid() && (Current(), outcome) == VotingStore.Delete(old(Current()), v, permitted)
    {
      if v !in votings || votings[v].isDeleted {
        return Err(VotingStore.NotFound);
      }
      if !permitted {
        return Err(VotingStore.NoPermission);
      }
      if votings[v].isFinalized {
        return Err(VotingStore.IsFinalized);
      }
      votings := votings[v := votings[v].(isDeleted := true)];
      return Ok(());
    }
  }
}
