/**
 * The guarantees of the voting protocol, for every run that starts from an empty store.
 */
module VotingGuarantees {
  import opened Base
  import opened Counting
  import opened Rows
  import opened VotingStore
  import opened VotingTallies
  import opened VotingInvariants

  // ---- what reading and editing leave alone ----

  lemma FreshFrame(st: State, v: string, voting: VotingRow, now: int)
    ensures var st' := FreshResults(st, v, voting, now).0;
      && st'.results == st.results && st'.pending == st.pending
      && st'.options == st.options && st'.ballots == st.ballots && st'.history == st.history
      && st'.participations == st.participations && st'.keys == st.keys && st'.totalVotes == st.totalVotes
  {
  }

  lemma ReadingFrame(st: State, v: string, forceFresh: bool, now: int)
    ensures var st' := GetResults(st, v, forceFresh, now).0;
      && st'.results == st.results && st'.pending == st.pending
      && st'.options == st.options && st'.ballots == st.ballots && st'.history == st.history
      && st'.participations == st.participations && st'.keys == st.keys && st'.totalVotes == st.totalVotes
  {
    var found := FindVoting(st, v);
    if found.Some? && !(found.value.isFinalized && v in st.results) {
      FreshFrame(st, v, found.value, now);
      FreshFrame(Broadcasted(st, v, found.value, now), v, found.value, now);
    }
  }

  lemma UpdateFrame(st: State, v: string, edit: Edit, permitted: bool, now: int)
    ensures var st' := Update(st, v, edit, permitted, now).0;
      && st'.results == st.results && st'.pending == st.pending && st'.history == st.history
  {
    var found := FindVoting(st, v);
    if found.Some? {
      ReadingFrame(st.(votings := st.votings[v := Edited(found.value, edit)]), v, false, now);
    }
  }

  lemma UpdateOptionFrame(st: State, v: string, optionId: string, text: string, permitted: bool, now: int)
    ensures var st' := UpdateOption(st, v, optionId, text, permitted, now).0;
      && st'.results == st.results && st'.pending == st.pending && st'.history == st.history
  {
    ReadingFrame(st.(options := Retext(st.options, optionId, text)), v, false, now);
  }

  // ---- participation ----

  /** The step is a survey's: it spends a token that voting v issued. */
  predicate Diverts(st: State, step: Step, v: string) {
    && step.SurveySpending? && step.admitted && SurveyMaySpend(st, step.surveyId, step.tokenHash, step.now)
    && st.pending[step.tokenHash].votingId == Some(v)
  }

  function Diversions(st: State, steps: seq<Step>, v: string): nat
    decreases |steps|
  {
    if steps == [] then 0
    else (if Diverts(st, steps[0], v) then 1 else 0) + Diversions(Apply(st, steps[0]), steps[1..], v)
  }

  lemma StepRecordsDiversion(st: State, step: Step, v: string)
    ensures Count(Apply(st, step).history, DivertedFrom(v))
         == Count(st.history, DivertedFrom(v)) + (if Diverts(st, step, v) then 1 else 0)
  {
    match step
    case SurveySpending(s, tokenHash, admitted, now) =>
      if admitted && SurveyMaySpend(st, s, tokenHash, now) {
        CountOne(st.history, Diverted(st.pending[tokenHash].votingId, tokenHash), DivertedFrom(v));
      }
    case Voting(req, now) =>
      if Vote(st, req, now).1 == Ok(false) {
        CommitAddsHistory(st, req, v);
      }
    case Reading(w, forceFresh, now) => ReadingFrame(st, w, forceFresh, now);
    case Updating(w, edit, permitted, now) => UpdateFrame(st, w, edit, permitted, now);
    case UpdatingOption(w, id, text, permitted, now) => UpdateOptionFrame(st, w, id, text, permitted, now);
    case _ =>
  }

  lemma {:induction false} DiversionsRecorded(st: State, steps: seq<Step>, v: string)
    ensures Count(Run(st, steps).history, DivertedFrom(v))
         == Count(st.history, DivertedFrom(v)) + Diversions(st, steps, v)
    decreases |steps|
  {
    if steps != [] {
      StepRecordsDiversion(st, steps[0], v);
      DiversionsRecorded(Apply(st, steps[0]), steps[1..], v);
    }
  }

  lemma {:induction false} NoDiversionsIff(st: State, steps: seq<Step>, v: string)
    ensures Diversions(st, steps, v) == 0 <==>
              forall i | 0 <= i < |steps| :: !Diverts(Run(st, steps[..i]), steps[i], v)
    decreases |steps|
  {
    if steps != [] {
      var rest := steps[1..];
      NoDiversionsIff(Apply(st, steps[0]), rest, v);
      assert Run(st, steps[..0]) == st;
      forall i | 0 < i < |steps| ensures Run(st, steps[..i]) == Run(Apply(st, steps[0]), rest[..i - 1]) {
        assert steps[..i][1..] == rest[..i - 1];
      }
      if forall i | 0 <= i < |steps| :: !Diverts(Run(st, steps[..i]), steps[i], v) {
        forall i | 0 <= i < |rest| ensures !Diverts(Run(Apply(st, steps[0]), rest[..i]), rest[i], v) {
          assert !Diverts(Run(st, steps[..i + 1]), steps[i + 1], v);
        }
        assert !Diverts(Run(st, steps[..0]), steps[0], v);
      }
      if Diversions(st, steps, v) == 0 {
        forall i | 0 <= i < |steps| ensures !Diverts(Run(st, steps[..i]), steps[i], v) {
          assert i > 0 ==> !Diverts(Run(Apply(st, steps[0]), rest[..i - 1]), rest[i - 1], v);
        }
      }
    }
  }

  /**
   * Every participation is an unspent token, an accepted vote with a token of that voting, or such
   * a token spent in a survey; the first two account for all exactly when no survey has spent one.
   */
  lemma ParticipationsAreAccountedFor(steps: seq<Step>, v: string)
    ensures var st := FromEmpty(steps);
      var known := |Outstanding(st, v)| + Count(st.history, OwnAccepted(v));
      && |Participants(st, v)| == known + Diversions(EMPTY, steps, v)
      && (|Participants(st, v)| == known <==>
            forall i | 0 <= i < |steps| :: !Diverts(FromEmpty(steps[..i]), steps[i], v))
  {
    ReachableHolds(steps);
    assert Account(FromEmpty(steps), v);
    DiversionsRecorded(EMPTY, steps, v);
    NoDiversionsIff(EMPTY, steps, v);
    forall i | 0 <= i < |steps|
      ensures Diverts(FromEmpty(steps[..i]), steps[i], v) == Diverts(Run(EMPTY, steps[..i]), steps[i], v)
    {
    }
  }

  predicate VotingTokensOnly(st: State) {
    && (forall h | h in st.pending :: st.pending[h].votingId.Some?)
    && (forall i | 0 <= i < |st.history| && st.history[i].Accepted? :: st.history[i].issuedHere)
  }

  lemma StepKeepsVotingTokens(st: State, step: Step)
    requires VotingTokensOnly(st) && !step.SurveySigning?
    ensures VotingTokensOnly(Apply(st, step))
  {
    match step
    case Reading(v, forceFresh, now) => ReadingFrame(st, v, forceFresh, now);
    case Updating(v, edit, permitted, now) => UpdateFrame(st, v, edit, permitted, now);
    case UpdatingOption(v, id, text, permitted, now) => UpdateOptionFrame(st, v, id, text, permitted, now);
    case _ =>
  }

  lemma {:induction false} RunKeepsVotingTokens(st: State, steps: seq<Step>)
    requires VotingTokensOnly(st)
    requires forall i | 0 <= i < |steps| :: !steps[i].SurveySigning?
    ensures VotingTokensOnly(Run(st, steps))
    decreases |steps|
  {
    if steps != [] {
      StepKeepsVotingTokens(st, steps[0]);
      RunKeepsVotingTokens(Apply(st, steps[0]), steps[1..]);
    }
  }

  /** With tokens issued by votings only, no voting counts more votes than it has participants. */
  lemma VotesNeverExceedParticipants(steps: seq<Step>, v: string)
    requires forall i | 0 <= i < |steps| :: !steps[i].SurveySigning?
    ensures TotalVotes(FromEmpty(steps), v) <= |Participants(FromEmpty(steps), v)|
  {
    var st := FromEmpty(steps);
    ReachableHolds(steps);
    RunKeepsVotingTokens(EMPTY, steps);
    assert Account(st, v);
    CountImplies(st.history, AcceptedIn(v), OwnAccepted(v));
  }

  /** Accepted votes whose token a survey issued. */
  function ForeignAccepted(v: string): Spent -> bool {
    (a: Spent) => a.Accepted? && a.votingId == v && !a.issuedHere
  }

  lemma {:induction false} OwnOrForeign(history: seq<Spent>, v: string)
    ensures Count(history, AcceptedIn(v)) == Count(history, OwnAccepted(v)) + Count(history, ForeignAccepted(v))
    decreases |history|
  {
    if history != [] {
      OwnOrForeign(history[..|history| - 1], v);
    }
  }

  /** The step is a vote in v, accepted with a token that a survey issued. */
  predicate Borrows(st: State, step: Step, v: string) {
    && step.Voting? && step.req.votingId == v && Vote(st, step.req, step.now).1 == Ok(false)
    && st.pending[step.req.tokenHash].votingId.None?
  }

  function Borrowings(st: State, steps: seq<Step>, v: string): nat
    decreases |steps|
  {
    if steps == [] then 0
    else (if Borrows(st, steps[0], v) then 1 else 0) + Borrowings(Apply(st, steps[0]), steps[1..], v)
  }

  lemma StepRecordsBorrowing(st: State, step: Step, v: string)
    ensures Count(Apply(st, step).history, ForeignAccepted(v))
         == Count(st.history, ForeignAccepted(v)) + (if Borrows(st, step, v) then 1 else 0)
  {
    match step
    case SurveySpending(s, tokenHash, admitted, now) =>
      if admitted && SurveyMaySpend(st, s, tokenHash, now) {
        CountOne(st.history, Diverted(st.pending[tokenHash].votingId, tokenHash), ForeignAccepted(v));
      }
    case Voting(req, now) =>
      if Vote(st, req, now).1 == Ok(false) {
        var own := st.pending[req.tokenHash].votingId == Some(req.votingId);
        CountOne(st.history, Accepted(req.votingId, req.tokenHash, own), ForeignAccepted(v));
      }
    case Reading(w, forceFresh, now) => ReadingFrame(st, w, forceFresh, now);
    case Updating(w, edit, permitted, now) => UpdateFrame(st, w, edit, permitted, now);
    case UpdatingOption(w, id, text, permitted, now) => UpdateOptionFrame(st, w, id, text, permitted, now);
    case _ =>
  }

  lemma {:induction false} BorrowingsRecorded(st: State, steps: seq<Step>, v: string)
    ensures Count(Run(st, steps).history, ForeignAccepted(v))
         == Count(st.history, ForeignAccepted(v)) + Borrowings(st, steps, v)
    decreases |steps|
  {
    if steps != [] {
      StepRecordsBorrowing(st, steps[0], v);
      BorrowingsRecorded(Apply(st, steps[0]), steps[1..], v);
    }
  }

  /**
   * In general a voting counts no more votes than it has participants exactly when the steps that
   * voted in it with survey tokens are no more than its own unspent tokens and the steps that spent
   * one of its tokens in a survey.
   */
  lemma VotesWithinParticipantsIff(steps: seq<Step>, v: string)
    ensures var st := FromEmpty(steps);
      TotalVotes(st, v) <= |Participants(st, v)| <==>
        Borrowings(EMPTY, steps, v) <= |Outstanding(st, v)| + Diversions(EMPTY, steps, v)
  {
    var st := FromEmpty(steps);
    ParticipationsAreAccountedFor(steps, v);
    ReachableHolds(steps);
    assert Account(st, v);
    OwnOrForeign(st.history, v);
    BorrowingsRecorded(EMPTY, steps, v);
  }

  // ---- which votes are accepted ----

  predicate TokenGood(st: State, req: Request, now: int) {
    && req.tokenHash in st.pending && now <= st.pending[req.tokenHash].expiresAt
    && (st.pending[req.tokenHash].votingId.Some? ==> st.pending[req.tokenHash].votingId.value == req.votingId)
    && req.votingId in st.keys && req.signatureValid
  }

  predicate OpenAt(voting: VotingRow, now: int) {
    && !voting.isFinalized
    && (voting.startAt.Some? ==> voting.startAt.value <= now)
    && (voting.endAt.Some? ==> now <= voting.endAt.value)
  }

  /** The number of answers is limited only when an option is chosen: Other text alone is never counted. */
  predicate ContentAllowed(st: State, voting: VotingRow, req: Request) {
    var answers := |req.optionIds| + (if req.other != "" then 1 else 0);
    && (req.other != "" ==> voting.allowOther)
    && (req.isAbstention <==> answers == 0)
    && (req.optionIds != [] ==>
          && (forall i | 0 <= i < |req.optionIds| :: IsOptionOf(st.options, req.votingId, req.optionIds[i]))
          && (voting.multipleChoice || answers == 1)
          && (voting.minChoices <= |req.optionIds| || req.other != "")
          && (voting.maxChoices.Some? ==> answers <= voting.maxChoices.value))
  }

  /** No receipt of the vote is stored or repeated, and an option it creates gets a free id. */
  predicate Storable(st: State, req: Request) {
    && UniqueHashes(NewBallots(st, req))
    && (forall j | 0 <= j < |NewBallots(st, req)| :: !Taken(st.ballots, HashOf(), NewBallots(st, req)[j].ballotHash))
    && (CreatesOption(st, req) ==> !IdTaken(st.options, req.newOptionId))
  }

  /**
   * A vote is accepted exactly when its token, its voting and its content are good and, unless it
   * is for practice, it can be stored.
   */
  lemma AcceptedIff(st: State, req: Request, now: int)
    requires UniqueHashes(st.ballots)
    ensures Vote(st, req, now).1.Ok? <==>
              && TokenGood(st, req, now)
              && FindVoting(st, req.votingId).Some? && OpenAt(FindVoting(st, req.votingId).value, now)
              && ContentAllowed(st, FindVoting(st, req.votingId).value, req)
              && (Practice(st, req) || Storable(st, req))
  {
    FitsIff(st.ballots, NewBallots(st, req), HashOf());
    assert CheckCommit(st, req).None? <==> Storable(st, req);
    assert CheckToken(st, req, now).None? <==> TokenGood(st, req, now);
    var found := FindVoting(st, req.votingId);
    if found.Some? {
      assert CheckContent(st, found.value, req).None? <==> ContentAllowed(st, found.value, req);
    }
  }

  /** After one vote is committed, another is refused over any receipt they share, besides the earlier ones. */
  lemma StorableAfter(st: State, first: Request, second: Request)
    requires first.tokenHash in st.pending
    ensures var st', added := Commit(st, first), NewBallots(Commit(st, first), second);
      Storable(st', second) <==>
        && UniqueHashes(added) && (CreatesOption(st', second) ==> !IdTaken(st'.options, second.newOptionId))
        && (forall j | 0 <= j < |added| :: !Taken(st.ballots, HashOf(), added[j].ballotHash))
        && (forall j | 0 <= j < |added| :: !Taken(NewBallots(st, first), HashOf(), added[j].ballotHash))
  {
    var st', added := Commit(st, first), NewBallots(Commit(st, first), second);
    forall j | 0 <= j < |added|
      ensures var k := added[j].ballotHash;
        Taken(st'.ballots, HashOf(), k) <==>
          Taken(st.ballots, HashOf(), k) || Taken(NewBallots(st, first), HashOf(), k)
    {
      TakenConcat(st.ballots, NewBallots(st, first), HashOf(), added[j].ballotHash);
    }
  }

  // ---- one vote ----

  predicate Names(ballots: seq<Ballot>, id: string) {
    exists i | 0 <= i < |ballots| :: ballots[i].optionId == Some(id)
  }

  /** How many ballots of one vote name this option: the unique receipts allow one at most. */
  lemma {:induction false} OneBallotPerChoice(ballots: seq<Ballot>, v: string, signature: string, id: string)
    requires UniqueHashes(ballots)
    requires forall i | 0 <= i < |ballots| && ballots[i].optionId.Some? ::
               ballots[i].ballotHash == Receipt(v, ballots[i].optionId.value, signature)
    ensures Count(ballots, ForOption(id)) == if Names(ballots, id) then 1 else 0
    decreases |ballots|
  {
    if ballots == [] {
    } else {
      var last := |ballots| - 1;
      var front := ballots[..last];
      OneBallotPerChoice(front, v, signature, id);
      if ballots[last].optionId == Some(id) {
        forall i | 0 <= i < |front| ensures front[i].optionId != Some(id) {
          assert ballots[i].ballotHash != ballots[last].ballotHash;
        }
      } else if Names(ballots, id) {
        var i :| 0 <= i < |ballots| && ballots[i].optionId == Some(id);
        assert front[i].optionId == Some(id);
      } else {
        assert forall i | 0 <= i < |front| :: front[i] == ballots[i];
      }
    }
  }

  predicate Chosen(st: State, req: Request, id: string) {
    id in req.optionIds || (req.other != "" && id == OtherId(st, req))
  }

  lemma ChoicesOfNewBallots(st: State, req: Request, id: string)
    ensures Chosen(st, req, id)
       <==> Names(NewBallots(st, req), id)
  {
    var added := NewBallots(st, req);
    var n := |req.optionIds|;
    if id in req.optionIds {
      var k :| 0 <= k < n && req.optionIds[k] == id;
      assert added[k].optionId == Some(id);
    }
    if req.other != "" {
      assert added[|added| - 1] == OptionBallots(req.votingId, [OtherId(st, req)], req.signature)[0];
    }
  }

  lemma CommitRaisesOption(st: State, req: Request, now: int, id: string)
    requires CheckVote(st, req, now).None? && CheckCommit(st, req).None?
    ensures Count(Commit(st, req).ballots, ForOption(id))
         == Count(st.ballots, ForOption(id)) + (if Chosen(st, req, id) then 1 else 0)
  {
    var added := NewBallots(st, req);
    CountConcat(st.ballots, added, ForOption(id));
    AddedAreUnique(st.ballots, added);
    OneBallotPerChoice(added, req.votingId, req.signature, id);
    ChoicesOfNewBallots(st, req, id);
  }

  function BallotCount(st: State, v: string): nat {
    Count(st.ballots, InVoting(v))
  }

  function OptionCountOf(st: State, id: string): nat {
    Count(st.ballots, ForOption(id))
  }

  /** The ballots a request asks for. */
  function Asked(req: Request): nat {
    |req.optionIds| + (if req.isAbstention then 1 else 0) + (if req.other != "" then 1 else 0)
  }

  /**
   * An accepted vote adds one ballot per chosen option, Other answer and abstention, at least one
   * in all, and raises the count of each option it names by exactly one and of no other option.
   * A practice or refused vote changes nothing.
   */
  lemma VoteAddsItsBallots(st: State, req: Request, now: int, id: string)
    ensures var (st', outcome) := Vote(st, req, now);
      if outcome == Ok(false) then
        && Asked(req) >= 1
        && BallotCount(st', req.votingId) == BallotCount(st, req.votingId) + Asked(req)
        && OptionCountOf(st', id) == OptionCountOf(st, id) + (if Chosen(st, req, id) then 1 else 0)
        && req.tokenHash !in st'.pending
      else st' == st
  {
    if Vote(st, req, now).1 == Ok(false) {
      NewBallotsWellFormed(st, req, now);
      CommitAddsBallots(st, req, now, req.votingId);
      CommitRaisesOption(st, req, now, id);
    }
  }

  lemma AddedAreUnique(a: seq<Ballot>, b: seq<Ballot>)
    requires UniqueHashes(a + b)
    ensures UniqueHashes(b)
  {
    forall i, j | 0 <= i < j < |b| ensures b[i].ballotHash != b[j].ballotHash {
      assert (a + b)[|a| + i] == b[i] && (a + b)[|a| + j] == b[j];
    }
  }

  /** No step but issuing it again makes a token spendable. */
  predicate Issues(step: Step, tokenHash: string) {
    (step.Signing? || step.SurveySigning?) && step.tokenHash == tokenHash
  }

  lemma SpentAfterStep(st: State, step: Step, tokenHash: string)
    requires tokenHash !in st.pending && !Issues(step, tokenHash)
    ensures tokenHash !in Apply(st, step).pending
  {
    match step
    case Reading(v, forceFresh, now) => ReadingFrame(st, v, forceFresh, now);
    case Updating(v, edit, permitted, now) => UpdateFrame(st, v, edit, permitted, now);
    case UpdatingOption(v, id, text, permitted, now) => UpdateOptionFrame(st, v, id, text, permitted, now);
    case _ =>
  }

  lemma {:induction false} SpentStaysSpent(st: State, steps: seq<Step>, tokenHash: string)
    requires tokenHash !in st.pending
    requires forall i | 0 <= i < |steps| :: !Issues(steps[i], tokenHash)
    ensures tokenHash !in Run(st, steps).pending
    decreases |steps|
  {
    if steps != [] {
      SpentAfterStep(st, steps[0], tokenHash);
      SpentStaysSpent(Apply(st, steps[0]), steps[1..], tokenHash);
    }
  }

  /** Once a vote is accepted its token is refused in every later state, until it is issued again. */
  lemma TokenVotesOnce(st: State, req: Request, now: int, steps: seq<Step>, again: Request, later: int)
    requires Vote(st, req, now).1 == Ok(false)
    requires again.tokenHash == req.tokenHash
    requires forall i | 0 <= i < |steps| :: !Issues(steps[i], req.tokenHash)
    ensures var st' := Run(Vote(st, req, now).0, steps);
      Vote(st', again, later) == (st', Err(InvalidToken))
  {
    SpentStaysSpent(Vote(st, req, now).0, steps, req.tokenHash);
  }

  // ---- counts ----

  /** In every reachable state the total shown and the total to be sealed are the sum of the counts. */
  lemma TotalsAreTheSum(steps: seq<Step>, v: string, allowOther: bool, isClosed: bool)
    ensures var st := FromEmpty(steps);
      && Total(Counts(OptionsOf(st.options, v), st.ballots)) + Count(st.ballots, AbstainedIn(v))
           == Count(st.ballots, InVoting(v))
           == Recount(st, v, allowOther, isClosed).totalBallots
           == Tally(st, v).totalBallots
  {
    ReachableHolds(steps);
    BallotsAreConserved(FromEmpty(steps), v);
    TotalsAgree(FromEmpty(steps), v, allowOther, isClosed);
  }

  /** Every read, whether from the seal, the snapshot or the ballots, shows the live counts and total. */
  lemma EveryReadIsLive(steps: seq<Step>, v: string, forceFresh: bool, now: int)
    ensures var st := FromEmpty(steps);
      var r := GetResults(st, v, forceFresh, now).1;
      r.Ok? ==> r.value == Recount(st, v, r.value.otherTotal.Some?, r.value.isClosed)
  {
    ReachableHolds(steps);
    ReadIsLive(FromEmpty(steps), v, forceFresh, now);
  }

  lemma SealedReadIsLive(st: State, v: string, allowOther: bool, isClosed: bool)
    requires References(st)
    ensures var r := SealedResults(st, v, Tally(st, v), allowOther, isClosed);
      r == Recount(st, v, r.otherTotal.Some?, r.isClosed)
  {
    SealedResultsAreLive(st, v, allowOther, isClosed);
  }

  /** A recount does not depend on the broadcast mark or the snapshot. */
  lemma FreshIsLive(st: State, st': State, v: string, voting: VotingRow, now: int)
    requires st'.options == st.options && st'.ballots == st.ballots
    ensures var r := FreshResults(st', v, voting, now).1;
      r == Recount(st, v, r.otherTotal.Some?, r.isClosed)
  {
  }

  lemma ReadIsLive(st: State, v: string, forceFresh: bool, now: int)
    requires Invariant(st)
    ensures var r := GetResults(st, v, forceFresh, now).1;
      r.Ok? ==> r.value == Recount(st, v, r.value.otherTotal.Some?, r.value.isClosed)
  {
    var found := FindVoting(st, v);
    if found.Some? {
      var voting := found.value;
      if voting.isFinalized && v in st.results {
        SealedReadIsLive(st, v, voting.allowOther, IsClosed(voting, now));
      } else {
        if LiveSnapshot(st, v, now).Some? {
          assert SnapshotFresh(st, v);
        }
        FreshIsLive(st, st, v, voting, now);
        FreshIsLive(st, st.(votings := st.votings[v := voting.(lastBroadcastAt := Some(now))]), v, voting, now);
      }
    }
  }

  lemma FinalizeFrame(st: State, w: string, secure: bool, now: int, v: string)
    requires v in st.results
    ensures var st' := Finalize(st, w, secure, now).0;
      v in st'.results && st'.results[v] == st.results[v]
  {
  }

  lemma SealStays(st: State, step: Step, v: string)
    requires v in st.results
    ensures v in Apply(st, step).results && Apply(st, step).results[v] == st.results[v]
  {
    match step
    case Finalizing(w, secure, now) => FinalizeFrame(st, w, secure, now, v);
    case Reading(w, forceFresh, now) => ReadingFrame(st, w, forceFresh, now);
    case Updating(w, edit, permitted, now) => UpdateFrame(st, w, edit, permitted, now);
    case UpdatingOption(w, id, text, permitted, now) => UpdateOptionFrame(st, w, id, text, permitted, now);
    case _ =>
  }

  lemma {:induction false} SealStaysInRun(st: State, steps: seq<Step>, v: string)
    requires v in st.results
    ensures v in Run(st, steps).results && Run(st, steps).results[v] == st.results[v]
    decreases |steps|
  {
    if steps != [] {
      SealStays(st, steps[0], v);
      SealStaysInRun(Apply(st, steps[0]), steps[1..], v);
    }
  }

  /**
   * Once finalised, whatever is tried afterwards, a voting keeps the sealed tally it was given, the
   * tally is the live one, the voting is not deleted, and reading it shows the sealed total.
   */
  lemma SealedForGood(before: seq<Step>, after: seq<Step>, v: string, forceFresh: bool, now: int)
    requires v in FromEmpty(before).results
    ensures var st := Run(FromEmpty(before), after);
      && v in st.results && st.results[v] == FromEmpty(before).results[v] == Tally(st, v)
      && v in st.votings && st.votings[v].isFinalized && !st.votings[v].isDeleted
      && GetResults(st, v, forceFresh, now).1.Ok?
      && GetResults(st, v, forceFresh, now).1.value.totalBallots == st.results[v].totalBallots
      && GetResults(st, v, forceFresh, now).1.value.abstentionsCount == st.results[v].abstentionsCount
  {
    var st := Run(FromEmpty(before), after);
    ReachableHolds(before);
    SealStaysInRun(FromEmpty(before), after, v);
    RunKeeps(FromEmpty(before), after);
    assert IsSealed(st, v);
  }

  /** Finalising is what seals: it succeeds only on an open voting, and seals the tally of that moment. */
  lemma FinalizeSeals(st: State, v: string, secure: bool, now: int)
    requires Invariant(st)
    ensures var (st', outcome) := Finalize(st, v, secure, now);
      && (outcome.Ok? <==> FindVoting(st, v).Some? && !FindVoting(st, v).value.isFinalized && secure
                           && (FindVoting(st, v).value.endAt.None? || now >= FindVoting(st, v).value.endAt.value))
      && (outcome.Ok? ==> v in st'.results && st'.results[v] == Tally(st', v) == outcome.value)
      && (outcome.Err? ==> st' == st)
  {
    var (st', outcome) := Finalize(st, v, secure, now);
    if v in st.results {
      assert IsSealed(st, v);
    }
    if outcome.Ok? {
      SameShapeAsItself(st, st', v);
      UndisturbedResults(st, st', v, true, true);
    }
  }
}
