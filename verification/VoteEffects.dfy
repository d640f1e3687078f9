/**
 * What a vote writes, ballot by ballot, and when a fresh signature is enough for it to be written.
 */
module VoteEffects {
  import opened Base
  import opened Counting
  import opened Rows
  import opened VotingStore
  import opened VotingInvariants
  import opened VotingGuarantees

  /** A dynamic option of the voting with this text. */
  predicate IsOther(options: seq<OptionRow>, v: string, text: string, id: string) {
    exists k | 0 <= k < |options| ::
      options[k].id == id && options[k].votingId == v && options[k].text == text && options[k].isDynamic
  }

  lemma OtherInTail(options: seq<OptionRow>, v: string, text: string, id: string)
    requires options != [] && !(options[0].votingId == v && options[0].text == text && options[0].isDynamic)
    ensures IsOther(options[1..], v, text, id) <==> IsOther(options, v, text, id)
  {
    var rest := options[1..];
    if IsOther(options, v, text, id) {
      var k :| 0 <= k < |options| && options[k].id == id && options[k].votingId == v && options[k].text == text
               && options[k].isDynamic;
      assert rest[k - 1] == options[k];
    }
    if IsOther(rest, v, text, id) {
      var k :| 0 <= k < |rest| && rest[k].id == id && rest[k].votingId == v && rest[k].text == text && rest[k].isDynamic;
      assert options[k + 1] == rest[k];
    }
  }

  lemma {:induction false} FoundIsOther(options: seq<OptionRow>, v: string, text: string)
    ensures FindDynamic(options, v, text).Some? ==> IsOther(options, v, text, FindDynamic(options, v, text).value)
    ensures FindDynamic(options, v, text).None? ==> forall id :: !IsOther(options, v, text, id)
  {
    if options == [] {
    } else if options[0].votingId == v && options[0].text == text && options[0].isDynamic {
      assert IsOther(options, v, text, options[0].id);
    } else {
      FoundIsOther(options[1..], v, text);
      forall id ensures IsOther(options[1..], v, text, id) <==> IsOther(options, v, text, id) {
        OtherInTail(options, v, text, id);
      }
    }
  }

  /** The option an Other answer was stored under, and the option rows after it. */
  ghost predicate OtherStored(before: seq<OptionRow>, after: seq<OptionRow>, req: Request, id: string) {
    if exists known :: IsOther(before, req.votingId, req.other, known) then
      after == before && IsOther(before, req.votingId, req.other, id)
    else
      after == before + [OptionRow(id, req.votingId, req.other, true)] && id == req.newOptionId
  }

  lemma AddedBallots(st: State, req: Request)
    ensures var v, added, m := req.votingId, NewBallots(st, req), |req.optionIds|;
      && |added| == Asked(req)
      && (forall k | 0 <= k < m ::
            added[k] == Ballot(v, Some(req.optionIds[k]), false, Receipt(v, req.optionIds[k], req.signature)))
      && (req.isAbstention ==> added[m] == Ballot(v, None, true, Receipt(v, "abstention", req.signature)))
      && (req.other != "" ==>
            added[|added| - 1] == Ballot(v, Some(OtherId(st, req)), false, Receipt(v, OtherId(st, req), req.signature)))
      && (forall k | 0 <= k < |added| :: added[k].votingId == v && added[k].ballotHash.signature == req.signature)
  {
  }

  lemma AcceptedCommits(st: State, req: Request, now: int)
    requires Vote(st, req, now).1 == Ok(false)
    ensures req.tokenHash in st.pending && Vote(st, req, now).0 == Commit(st, req) && Asked(req) >= 1
  {
  }

  /**
   * The ballots an accepted vote adds, in order: one for each chosen option, one for an abstention,
   * one for an Other answer; each with the receipt over its voting, its choice and the signature.
   * A new option is added only for an Other text no dynamic option of the voting has.
   */
  lemma AcceptedVoteStores(st: State, req: Request, now: int)
    requires Vote(st, req, now).1 == Ok(false)
    ensures var st', v, n, m := Vote(st, req, now).0, req.votingId, |st.ballots|, |req.optionIds|;
      && |st'.ballots| == n + Asked(req) && st'.ballots[..n] == st.ballots
      && (forall k | 0 <= k < m ::
            st'.ballots[n + k] == Ballot(v, Some(req.optionIds[k]), false, Receipt(v, req.optionIds[k], req.signature)))
      && (req.isAbstention ==> st'.ballots[n + m] == Ballot(v, None, true, Receipt(v, "abstention", req.signature)))
      && (forall k | n <= k < |st'.ballots| ::
            st'.ballots[k].votingId == v && st'.ballots[k].ballotHash.signature == req.signature)
    ensures var st', v := Vote(st, req, now).0, req.votingId;
      var last := st'.ballots[|st'.ballots| - 1];
      if req.other == "" then st'.options == st.options
      else
        && last.optionId.Some? && OtherStored(st.options, st'.options, req, last.optionId.value)
        && last == Ballot(v, last.optionId, false, Receipt(v, last.optionId.value, req.signature))
    ensures var st' := Vote(st, req, now).0;
      && st'.pending == st.pending - {req.tokenHash}
      && TotalVotes(st', req.votingId) == TotalVotes(st, req.votingId) + 1
      && st'.snapshots == st.snapshots - {req.votingId}
      && st'.votings == st.votings && st'.participations == st.participations && st'.results == st.results
  {
    FoundIsOther(st.options, req.votingId, req.other);
    AddedBallots(st, req);
    AcceptedCommits(st, req, now);
  }

  /** No two chosen options are the same. */
  predicate Distinct(ids: seq<string>) {
    forall i, j | 0 <= i < j < |ids| :: ids[i] != ids[j]
  }

  /** The choices are all different, the Other option among them, and a new option's id is free. */
  ghost predicate NoRepeat(st: State, req: Request) {
    && Distinct(req.optionIds)
    && (req.other != "" ==> forall id | id in req.optionIds :: !IsOther(st.options, req.votingId, req.other, id))
    && forall k | 0 <= k < |st.options| :: st.options[k].id != req.newOptionId
  }

  predicate Unused(st: State, signature: string) {
    forall i | 0 <= i < |st.ballots| :: st.ballots[i].ballotHash.signature != signature
  }

  lemma NewIdNotChosen(st: State, req: Request)
    requires NoRepeat(st, req)
    requires forall i | 0 <= i < |req.optionIds| :: IsOptionOf(st.options, req.votingId, req.optionIds[i])
    ensures req.newOptionId !in req.optionIds
  {
    forall i | 0 <= i < |req.optionIds| ensures req.optionIds[i] != req.newOptionId {
      assert IsOptionOf(st.options, req.votingId, req.optionIds[i]);
    }
  }

  /** The choices of one vote differ, the Other option among them. */
  lemma ChoicesDiffer(st: State, req: Request, i: nat, j: nat)
    requires NoRepeat(st, req) && i < j < |NewBallots(st, req)| && (req.isAbstention ==> Asked(req) == 1)
    requires forall k | 0 <= k < |req.optionIds| :: IsOptionOf(st.options, req.votingId, req.optionIds[k])
    ensures NewBallots(st, req)[i].ballotHash != NewBallots(st, req)[j].ballotHash
  {
    AddedBallots(st, req);
    if j < |req.optionIds| {
      assert req.optionIds[i] != req.optionIds[j];
    } else {
      FoundIsOther(st.options, req.votingId, req.other);
      NewIdNotChosen(st, req);
      assert req.optionIds[i] in req.optionIds;
    }
  }

  lemma FreshReceiptsFit(st: State, req: Request)
    requires Unused(st, req.signature) && NoRepeat(st, req) && (req.isAbstention ==> Asked(req) == 1)
    requires forall k | 0 <= k < |req.optionIds| :: IsOptionOf(st.options, req.votingId, req.optionIds[k])
    ensures Storable(st, req)
  {
    var added := NewBallots(st, req);
    AddedBallots(st, req);
    forall i, j | 0 <= i < j < |added| ensures HashOf()(added[i]) != HashOf()(added[j]) {
      ChoicesDiffer(st, req, i, j);
    }
    forall j | 0 <= j < |added| ensures !Taken(st.ballots, HashOf(), added[j].ballotHash) {
      assert added[j].ballotHash.signature == req.signature;
    }
  }

  /**
   * A signature that no stored ballot carries is enough: whatever the vote is for, if it meets the
   * guards and repeats no choice, it is accepted.
   */
  lemma FreshSignatureIsAccepted(st: State, req: Request, now: int)
    requires UniqueHashes(st.ballots) && Unused(st, req.signature) && NoRepeat(st, req)
    requires TokenGood(st, req, now) && FindVoting(st, req.votingId).Some?
    requires OpenAt(FindVoting(st, req.votingId).value, now)
    requires ContentAllowed(st, FindVoting(st, req.votingId).value, req)
    ensures Vote(st, req, now).1 == Ok(Practice(st, req))
  {
    FreshReceiptsFit(st, req);
    AcceptedIff(st, req, now);
  }

  // ---- refused and practice votes ----

  /** An accepted vote is a practice one exactly when the request or the token's row says so. */
  lemma PracticeIff(st: State, req: Request, now: int)
    requires Vote(st, req, now).1.Ok?
    ensures req.tokenHash in st.pending
    ensures Vote(st, req, now).1.value <==> req.isPractice || st.pending[req.tokenHash].isPractice
  {
  }

  /** What each refusal of a vote says is so. */
  ghost predicate Explains(st: State, req: Request, now: int, refusal: Refusal) {
    var v, answers := req.votingId, |req.optionIds| + (if req.other != "" then 1 else 0);
    var exists' := v in st.votings && !st.votings[v].isDeleted;
    match refusal
    case InvalidToken =>
      req.tokenHash !in st.pending || (st.pending[req.tokenHash].votingId != None && st.pending[req.tokenHash].votingId != Some(v))
    case TokenExpired => req.tokenHash in st.pending && st.pending[req.tokenHash].expiresAt < now
    case NoSigningKey => v !in st.keys
    case InvalidSignature => !req.signatureValid
    case NotFound => !exists'
    case IsFinalized => exists' && st.votings[v].isFinalized
    case NotStarted => exists' && st.votings[v].startAt.Some? && now < st.votings[v].startAt.value
    case HasEnded => exists' && st.votings[v].endAt.Some? && st.votings[v].endAt.value < now
    case OtherNotAllowed => exists' && req.other != "" && !st.votings[v].allowOther
    case NothingSelected => answers == 0 && !req.isAbstention
    case ConflictingAbstention => answers > 0 && req.isAbstention
    case InvalidOptions =>
      exists i | 0 <= i < |req.optionIds| ::
        forall k | 0 <= k < |st.options| :: st.options[k].id == req.optionIds[i] ==> st.options[k].votingId != v
    case OneChoiceOnly => exists' && req.optionIds != [] && !st.votings[v].multipleChoice && answers > 1
    case TooFewChoices =>
      exists' && req.optionIds != [] && req.other == "" && |req.optionIds| < st.votings[v].minChoices
    case TooManyChoices =>
      exists' && req.optionIds != [] && st.votings[v].maxChoices.Some? && st.votings[v].maxChoices.value < answers
    case IdInUse =>
      && req.other != "" && (forall id :: !IsOther(st.options, v, req.other, id))
      && exists k | 0 <= k < |st.options| :: st.options[k].id == req.newOptionId
    case DuplicateBallot => !Unused(st, req.signature) || !NoRepeat(st, req)
    case _ => false
  }

  /** The order in which the reasons are looked for. */
  function Rank(refusal: Refusal): nat {
    match refusal
    case InvalidToken => 0
    case TokenExpired => 1
    case NoSigningKey => 2
    case InvalidSignature => 3
    case NotFound => 4
    case IsFinalized => 5
    case NotStarted => 6
    case HasEnded => 7
    case OtherNotAllowed => 8
    case NothingSelected => 9
    case ConflictingAbstention => 10
    case InvalidOptions => 11
    case OneChoiceOnly => 12
    case TooFewChoices => 13
    case TooManyChoices => 14
    case IdInUse => 15
    case _ => 16
  }

  /** A guard that passes has none of the reasons it looks for, and one that does not names the first. */
  lemma PassedToken(st: State, req: Request, now: int, refusal: Refusal)
    requires Explains(st, req, now, refusal)
    ensures if CheckToken(st, req, now).Some? then Rank(CheckToken(st, req, now).value) <= Rank(refusal) else Rank(refusal) >= 4
  {
  }

  lemma PassedContent(st: State, req: Request, now: int, refusal: Refusal)
    requires Explains(st, req, now, refusal) && FindVoting(st, req.votingId).Some? && Rank(refusal) >= 8
    ensures var r := CheckContent(st, FindVoting(st, req.votingId).value, req);
      if r.Some? then Rank(r.value) <= Rank(refusal) else Rank(refusal) >= 15
  {
    if refusal == InvalidOptions {
      var i :| 0 <= i < |req.optionIds| && forall k | 0 <= k < |st.options| ::
        st.options[k].id == req.optionIds[i] ==> st.options[k].votingId != req.votingId;
      assert !IsOptionOf(st.options, req.votingId, req.optionIds[i]);
    }
  }

  lemma PassedGuards(st: State, req: Request, now: int, refusal: Refusal)
    requires Explains(st, req, now, refusal)
    ensures if CheckVote(st, req, now).Some? then Rank(CheckVote(st, req, now).value) <= Rank(refusal) else Rank(refusal) >= 15
  {
    PassedToken(st, req, now, refusal);
    if FindVoting(st, req.votingId).Some? && Rank(refusal) >= 8 {
      PassedContent(st, req, now, refusal);
    }
  }

  lemma RefusedGuardSaysWhy(st: State, req: Request, now: int)
    ensures CheckVote(st, req, now).Some? ==> Explains(st, req, now, CheckVote(st, req, now).value)
  {
    var found := FindVoting(st, req.votingId);
    if CheckToken(st, req, now).None? && found.Some? && CheckContent(st, found.value, req) == Some(InvalidOptions) {
      var i :| 0 <= i < |req.optionIds| && !IsOptionOf(st.options, req.votingId, req.optionIds[i]);
      assert forall k | 0 <= k < |st.options| ::
        st.options[k].id == req.optionIds[i] ==> st.options[k].votingId != req.votingId;
    }
  }

  /** A refused vote writes nothing, what its refusal says is so, and no earlier reason is. */
  lemma RefusedVoteSaysWhy(st: State, req: Request, now: int)
    requires UniqueHashes(st.ballots) && Vote(st, req, now).1.Err?
    ensures Vote(st, req, now).0 == st && Explains(st, req, now, Vote(st, req, now).1.error)
    ensures forall e | Explains(st, req, now, e) :: Rank(Vote(st, req, now).1.error) <= Rank(e)
  {
    RefusedGuardSaysWhy(st, req, now);
    FoundIsOther(st.options, req.votingId, req.other);
    forall e | Explains(st, req, now, e) ensures Rank(Vote(st, req, now).1.error) <= Rank(e) {
      PassedGuards(st, req, now, e);
    }
    if CheckVote(st, req, now).None? && CheckCommit(st, req) == Some(DuplicateBallot) {
      AcceptedIff(st, req, now);
      if Unused(st, req.signature) && NoRepeat(st, req) {
        FreshSignatureIsAccepted(st, req, now);
      }
    }
  }

  // ---- any number of voters ----

  datatype Voter = Voter(tokenHash: string, signature: string)

  function Abstention(v: string, voter: Voter): Request {
    Request(v, [], voter.tokenHash, voter.signature, true, "", true, false, "")
  }

  function Abstentions(v: string, voters: seq<Voter>, now: int): (r: seq<Step>)
    ensures |r| == |voters| && forall i | 0 <= i < |r| :: r[i] == Voting(Abstention(v, voters[i]), now)
  {
    seq(|voters|, i requires 0 <= i < |voters| => Voting(Abstention(v, voters[i]), now))
  }

  /** Each voter holds a live token of the voting, and no two share a token or a signature. */
  predicate Ready(st: State, v: string, voters: seq<Voter>, now: int) {
    && v in st.keys && FindVoting(st, v).Some? && OpenAt(FindVoting(st, v).value, now) && UniqueHashes(st.ballots)
    && (forall i | 0 <= i < |voters| ::
          && voters[i].tokenHash in st.pending
          && var row := st.pending[voters[i].tokenHash];
          row.votingId == Some(v) && !row.isPractice && now <= row.expiresAt
          && Unused(st, voters[i].signature))
    && (forall i, j | 0 <= i < j < |voters| ::
          voters[i].tokenHash != voters[j].tokenHash && voters[i].signature != voters[j].signature)
  }

  lemma AbstentionFits(st: State, req: Request)
    requires UniqueHashes(st.ballots) && Unused(st, req.signature) && req.isAbstention
    requires req.optionIds == [] && req.other == ""
    ensures Storable(st, req)
  {
  }

  lemma AbstentionLeavesReady(st: State, v: string, voters: seq<Voter>, now: int)
    requires voters != [] && Ready(st, v, voters, now)
    ensures Vote(st, Abstention(v, voters[0]), now).1 == Ok(false)
    ensures Ready(Vote(st, Abstention(v, voters[0]), now).0, v, voters[1..], now)
  {
    var req := Abstention(v, voters[0]);
    AcceptedIff(st, req, now);
    var added := NewBallots(st, req);
    assert added == [Ballot(v, None, true, Receipt(v, "abstention", voters[0].signature))];
    AbstentionFits(st, req);
    AcceptedVoteStores(st, req, now);
    var st' := Vote(st, req, now).0;
    assert st'.ballots == st.ballots + added;
    forall i | 0 <= i < |voters[1..]| ensures Unused(st', voters[1..][i].signature) {
      assert voters[1..][i] == voters[i + 1];
      assert voters[0].signature != voters[i + 1].signature;
    }
  }

  lemma AbstentionIsCounted(st: State, v: string, voters: seq<Voter>, now: int)
    requires voters != [] && Ready(st, v, voters, now)
    ensures var st' := Vote(st, Abstention(v, voters[0]), now).0;
      && |st'.ballots| == |st.ballots| + 1
      && Count(st'.ballots, AbstainedIn(v)) == Count(st.ballots, AbstainedIn(v)) + 1
      && TotalVotes(st', v) == TotalVotes(st, v) + 1
  {
    var req, b := Abstention(v, voters[0]), Ballot(v, None, true, Receipt(v, "abstention", voters[0].signature));
    AbstentionLeavesReady(st, v, voters, now);
    AcceptedVoteStores(st, req, now);
    assert Vote(st, req, now).0.ballots == st.ballots + [b];
    CountOne(st.ballots, b, AbstainedIn(v));
  }

  /** Any number of voters with tokens and signatures of their own can abstain, one after another. */
  lemma {:induction false} EveryoneCanAbstain(st: State, v: string, voters: seq<Voter>, now: int)
    requires Ready(st, v, voters, now)
    ensures var st' := Run(st, Abstentions(v, voters, now));
      && |st'.ballots| == |st.ballots| + |voters|
      && Count(st'.ballots, AbstainedIn(v)) == Count(st.ballots, AbstainedIn(v)) + |voters|
      && TotalVotes(st', v) == TotalVotes(st, v) + |voters|
    decreases |voters|
  {
    if voters != [] {
      AbstentionLeavesReady(st, v, voters, now);
      AbstentionIsCounted(st, v, voters, now);
      assert Abstentions(v, voters, now)[1..] == Abstentions(v, voters[1..], now);
      EveryoneCanAbstain(Vote(st, Abstention(v, voters[0]), now).0, v, voters[1..], now);
    }
  }
}
