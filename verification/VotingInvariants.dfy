/**
 * Runs of the voting protocol, each call taken as one step, and what holds in every state they
 * reach: participation accounts, conservation of ballots, snapshots that match a fresh recount,
 * and sealed results that stay the live results for ever.
 */
module VotingInvariants {
  import opened Base
  import opened Counting
  import opened VotingStore
  import opened VotingTallies

  datatype Step =
    | Creating(v: string, row: VotingRow, minChoices: Option<int>, drafts: seq<Draft>, permitted: bool)
    | Signing(v: string, userId: string, tokenHash: string, isPractice: bool, now: int)
    | SurveySigning(surveyId: string, userId: string, tokenHash: string, isPractice: bool, now: int)
    | SurveySpending(surveyId: string, tokenHash: string, admitted: bool, now: int)
    | Voting(req: Request, now: int)
    | Reading(v: string, forceFresh: bool, now: int)
    | Finalizing(v: string, secure: bool, now: int)
    | Updating(v: string, edit: Edit, permitted: bool, now: int)
    | UpdatingOption(v: string, optionId: string, text: string, permitted: bool, now: int)
    | Deleting(v: string, permitted: bool)
    | Evicting(v: string)

  function Apply(st: State, step: Step): State {
    match step
    case Creating(v, row, minChoices, drafts, permitted) => Create(st, v, row, minChoices, drafts, permitted).0
    case Signing(v, userId, tokenHash, isPractice, now) => Sign(st, v, userId, tokenHash, isPractice, now).0
    case SurveySigning(s, userId, tokenHash, isPractice, now) => SurveySign(st, s, userId, tokenHash, isPractice, now)
    case SurveySpending(s, tokenHash, admitted, now) => SurveySpend(st, s, tokenHash, admitted, now)
    case Voting(req, now) => Vote(st, req, now).0
    case Reading(v, forceFresh, now) => GetResults(st, v, forceFresh, now).0
    case Finalizing(v, secure, now) => Finalize(st, v, secure, now).0
    case Updating(v, edit, permitted, now) => Update(st, v, edit, permitted, now).0
    case UpdatingOption(v, optionId, text, permitted, now) => UpdateOption(st, v, optionId, text, permitted, now).0
    case Deleting(v, permitted) => Delete(st, v, permitted).0
    case Evicting(v) => st.(snapshots := st.snapshots - {v})
  }

  function Run(st: State, steps: seq<Step>): State
    decreases |steps|
  {
    if steps == [] then st else Run(Apply(st, steps[0]), steps[1..])
  }

  // ---- the invariant ----

  function Participants(st: State, v: string): set<Participation> {
    set p | p in st.participations && p.votingId == v
  }

  /** The tokens issued for v, not for practice, that have not been spent. */
  function Outstanding(st: State, v: string): set<string> {
    Unspent(st.pending, v)
  }

  function Unspent(pending: map<string, Pending>, v: string): set<string> {
    set h | h in pending && pending[h].votingId == Some(v) && !pending[h].isPractice
  }

  function AcceptedIn(v: string): Spent -> bool {
    (a: Spent) => a.Accepted? && a.votingId == v
  }

  /** Accepted votes whose token this voting issued. */
  function OwnAccepted(v: string): Spent -> bool {
    (a: Spent) => a.Accepted? && a.votingId == v && a.issuedHere
  }

  /** Tokens this voting issued that surveys have spent. */
  function DivertedFrom(v: string): Spent -> bool {
    (a: Spent) => a.Diverted? && a.issuer == Some(v)
  }

  predicate Account(st: State, v: string) {
    && |Participants(st, v)|
         == |Outstanding(st, v)| + Count(st.history, OwnAccepted(v)) + Count(st.history, DivertedFrom(v))
    && TotalVotes(st, v) == Count(st.history, AcceptedIn(v)) <= Count(st.ballots, InVoting(v))
  }

  ghost predicate Accounts(st: State) {
    forall v :: Account(st, v)
  }

  /** A stored snapshot holds what a fresh recount would give now, whenever it was taken. */
  predicate SnapshotFresh(st: State, v: string)
    requires v in st.snapshots
  {
    var r := st.snapshots[v].results;
    v in st.votings && r == Recount(st, v, r.otherTotal.Some?, r.isClosed)
  }

  predicate Cached(st: State) {
    forall v | v in st.snapshots :: SnapshotFresh(st, v)
  }

  predicate IsSealed(st: State, v: string)
    requires v in st.results
  {
    && v in st.votings && st.votings[v].isFinalized && !st.votings[v].isDeleted
    && st.results[v] == Tally(st, v)
  }

  predicate AllSealed(st: State) {
    && (forall v | v in st.results :: IsSealed(st, v))
    && (forall v | v in st.votings && st.votings[v].isFinalized :: v in st.results)
  }

  ghost predicate Invariant(st: State) {
    References(st) && Accounts(st) && Cached(st) && AllSealed(st)
  }

  lemma EmptyHolds()
    ensures Invariant(EMPTY)
  {
    forall v ensures Account(EMPTY, v) {
      assert Participants(EMPTY, v) == {} && Outstanding(EMPTY, v) == {};
    }
  }

  // ---- each step keeps it ----

  lemma AccountMoves(st: State, st': State, w: string)
    requires Account(st, w)
    requires st'.ballots == st.ballots && st'.history == st.history && st'.totalVotes == st.totalVotes
    requires |Participants(st', w)| - |Participants(st, w)| == |Outstanding(st', w)| - |Outstanding(st, w)|
    ensures Account(st', w)
  {
  }

  lemma AccountsStay(st: State, st': State)
    requires Accounts(st)
    requires st'.ballots == st.ballots && st'.history == st.history && st'.totalVotes == st.totalVotes
    requires st'.participations == st.participations && st'.pending == st.pending
    ensures Accounts(st')
  {
    forall w ensures Account(st', w) {
      assert Participants(st', w) == Participants(st, w) && Outstanding(st', w) == Outstanding(st, w);
      AccountMoves(st, st', w);
    }
  }

  lemma IssueOutstanding(st: State, st': State, w: string, tokenHash: string, issued: Pending)
    requires tokenHash !in st.pending && st'.pending == st.pending[tokenHash := issued]
    ensures |Outstanding(st', w)|
         == |Outstanding(st, w)| + (if issued.votingId == Some(w) && !issued.isPractice then 1 else 0)
  {
    UnspentAfterIssue(st.pending, w, tokenHash, issued);
  }

  lemma UnspentAfterIssue(pending: map<string, Pending>, w: string, tokenHash: string, issued: Pending)
    requires tokenHash !in pending
    ensures |Unspent(pending[tokenHash := issued], w)|
         == |Unspent(pending, w)| + (if issued.votingId == Some(w) && !issued.isPractice then 1 else 0)
  {
    var before, after := Unspent(pending, w), Unspent(pending[tokenHash := issued], w);
    assert after == if issued.votingId == Some(w) && !issued.isPractice then before + {tokenHash} else before;
  }

  lemma NewParticipant(st: State, st': State, w: string, p: Participation)
    requires p !in st.participations && st'.participations == st.participations + {p}
    ensures |Participants(st', w)| == |Participants(st, w)| + (if p.votingId == w then 1 else 0)
  {
    if p.votingId == w {
      assert Participants(st', w) == Participants(st, w) + {p};
    } else {
      assert Participants(st', w) == Participants(st, w);
    }
  }

  /**
   * A step that leaves the results of every voting with a snapshot or a seal alone, and changes
   * neither snapshots nor seals nor accounts, keeps the invariant.
   */
  lemma QuietStep(st: State, st': State)
    requires Invariant(st) && References(st')
    requires st'.participations == st.participations && st'.pending == st.pending
    requires st'.history == st.history && st'.totalVotes == st.totalVotes && st'.ballots == st.ballots
    requires st'.snapshots.Keys <= st.snapshots.Keys && st'.results == st.results
    requires forall v | v in st'.snapshots :: st'.snapshots[v] == st.snapshots[v]
    requires forall v | v in st.votings ::
               v in st'.votings && st'.votings[v].isFinalized == st.votings[v].isFinalized
               && (st.votings[v].isFinalized ==> st'.votings[v].isDeleted == st.votings[v].isDeleted)
               && Undisturbed(st, st', v)
    requires forall v | v in st'.votings && v !in st.votings :: !st'.votings[v].isFinalized
    ensures Invariant(st')
  {
    AccountsStay(st, st');
    forall v | v in st'.snapshots ensures SnapshotFresh(st', v) {
      assert SnapshotFresh(st, v);
      var r := st.snapshots[v].results;
      UndisturbedResults(st, st', v, r.otherTotal.Some?, r.isClosed);
    }
    forall v | v in st'.results ensures IsSealed(st', v) {
      assert IsSealed(st, v);
      UndisturbedResults(st, st', v, true, true);
    }
  }

  lemma SameShapeAsItself(st: State, st': State, v: string)
    requires st'.options == st.options && st'.ballots == st.ballots
    ensures Undisturbed(st, st', v)
  {
  }

  lemma CreateKeeps(st: State, v: string, row: VotingRow, minChoices: Option<int>, drafts: seq<Draft>, permitted: bool)
    requires Invariant(st)
    ensures Invariant(Create(st, v, row, minChoices, drafts, permitted).0)
  {
    var (st', outcome) := Create(st, v, row, minChoices, drafts, permitted);
    if outcome.Ok? {
      var extra := NewRows(v, drafts);
      forall i | 0 <= i < |st'.ballots| ensures WellFormed(st'.options, st'.ballots[i]) {
        assert WellFormed(st.options, st.ballots[i]);
        MoreOptions(st.options, extra, st.ballots[i]);
      }
      forall w | w in st.votings ensures Undisturbed(st, st', w) {
        assert st'.ballots == st.ballots + [];
        AdditionsElsewhere(st, st', w, extra, []);
      }
      QuietStep(st, st');
    }
  }

  lemma MoreOptions(options: seq<OptionRow>, extra: seq<OptionRow>, b: Ballot)
    requires WellFormed(options, b)
    ensures WellFormed(options + extra, b)
  {
    if b.optionId.Some? {
      OptionStays(options, extra, b.votingId, b.optionId.value);
    }
  }

  lemma OptionStays(options: seq<OptionRow>, extra: seq<OptionRow>, v: string, id: string)
    requires IsOptionOf(options, v, id)
    ensures IsOptionOf(options + extra, v, id)
  {
    var i :| 0 <= i < |options| && options[i].votingId == v && options[i].id == id;
    assert (options + extra)[i] == options[i];
  }

  /** Issuing a token raises both sides of its voting's account by one; a practice token raises neither. */
  lemma SignMovesAccount(
      st: State, st': State, v: string, userId: string, tokenHash: string, isPractice: bool, now: int, w: string)
    requires Account(st, w) && tokenHash !in st.pending
    requires st'.ballots == st.ballots && st'.history == st.history && st'.totalVotes == st.totalVotes
    requires st'.pending == st.pending[tokenHash := Pending(userId, Some(v), None, isPractice, now + HOUR)]
    requires isPractice ==> st'.participations == st.participations
    requires !isPractice ==> Participation(userId, v) !in st.participations
                             && st'.participations == st.participations + {Participation(userId, v)}
    ensures Account(st', w)
  {
    IssueOutstanding(st, st', w, tokenHash, Pending(userId, Some(v), None, isPractice, now + HOUR));
    if isPractice {
      assert Participants(st', w) == Participants(st, w);
    } else {
      NewParticipant(st, st', w, Participation(userId, v));
    }
    AccountMoves(st, st', w);
  }

  lemma SignKeeps(st: State, v: string, userId: string, tokenHash: string, isPractice: bool, now: int)
    requires Invariant(st)
    ensures Invariant(Sign(st, v, userId, tokenHash, isPractice, now).0)
  {
    var (st', outcome) := Sign(st, v, userId, tokenHash, isPractice, now);
    if outcome.Ok? {
      forall w ensures Account(st', w) {
        assert Account(st, w);
        SignMovesAccount(st, st', v, userId, tokenHash, isPractice, now, w);
      }
    } else {
      AccountsStay(st, st');
    }
    SameResults(st, st');
  }

  /** Snapshots and seals are about options and ballots only. */
  lemma SameResults(st: State, st': State)
    requires Cached(st) && AllSealed(st)
    requires st'.options == st.options && st'.ballots == st.ballots
    requires st'.votings == st.votings && st'.snapshots == st.snapshots && st'.results == st.results
    ensures Cached(st') && AllSealed(st')
  {
    forall v | v in st'.snapshots ensures SnapshotFresh(st', v) {
      assert SnapshotFresh(st, v);
    }
    forall v | v in st'.results ensures IsSealed(st', v) {
      assert IsSealed(st, v);
    }
  }

  lemma SurveySignKeeps(st: State, s: string, userId: string, tokenHash: string, isPractice: bool, now: int)
    requires Invariant(st)
    ensures Invariant(SurveySign(st, s, userId, tokenHash, isPractice, now))
  {
    var st' := SurveySign(st, s, userId, tokenHash, isPractice, now);
    if tokenHash !in st.pending {
      forall w ensures Account(st', w) {
        assert Account(st, w);
        IssueOutstanding(st, st', w, tokenHash, Pending(userId, None, Some(s), isPractice, now + HOUR));
        assert Participants(st', w) == Participants(st, w);
        AccountMoves(st, st', w);
      }
    }
    SameResults(st, st');
  }

  // ---- voting ----

  lemma {:induction false} FoundDynamic(options: seq<OptionRow>, v: string, text: string)
    ensures FindDynamic(options, v, text).Some? ==> IsOptionOf(options, v, FindDynamic(options, v, text).value)
  {
    if options == [] {
    } else if options[0].votingId == v && options[0].text == text && options[0].isDynamic {
      assert IsOptionOf(options, v, options[0].id);
    } else {
      FoundDynamic(options[1..], v, text);
      var found := FindDynamic(options[1..], v, text);
      if found.Some? {
        OptionStaysAfter(options, v, found.value);
      }
    }
  }

  lemma OptionStaysAfter(options: seq<OptionRow>, v: string, id: string)
    requires options != [] && IsOptionOf(options[1..], v, id)
    ensures IsOptionOf(options, v, id)
  {
    var i :| 0 <= i < |options[1..]| && options[1..][i].votingId == v && options[1..][i].id == id;
    assert options[i + 1] == options[1..][i];
  }

  lemma NewBallotsWellFormed(st: State, req: Request, now: int)
    requires CheckVote(st, req, now).None?
    ensures forall i | 0 <= i < |NewBallots(st, req)| :: WellFormed(Commit(st, req).options, NewBallots(st, req)[i])
    ensures forall i | 0 <= i < |NewBallots(st, req)| :: NewBallots(st, req)[i].votingId == req.votingId
    ensures |NewBallots(st, req)|
         == |req.optionIds| + (if req.isAbstention then 1 else 0) + (if req.other != "" then 1 else 0)
    ensures |NewBallots(st, req)| >= 1
  {
    var v, options := req.votingId, Commit(st, req).options;
    var chosen := OptionBallots(v, req.optionIds, req.signature);
    forall i | 0 <= i < |chosen| ensures WellFormed(options, chosen[i]) {
      assert IsOptionOf(st.options, v, req.optionIds[i]);
      OptionStays(st.options, [OptionRow(req.newOptionId, v, req.other, true)], v, req.optionIds[i]);
    }
    if req.other != "" {
      FoundDynamic(st.options, v, req.other);
      if CreatesOption(st, req) {
        assert options[|st.options|].id == req.newOptionId;
      }
      assert IsOptionOf(options, v, OtherId(st, req));
    }
  }

  lemma CommitKeepsReferences(st: State, req: Request, now: int)
    requires References(st) && CheckVote(st, req, now).None? && CheckCommit(st, req).None?
    ensures References(Commit(st, req))
  {
    var st' := Commit(st, req);
    NewBallotsWellFormed(st, req, now);
    forall i | 0 <= i < |st'.ballots| ensures WellFormed(st'.options, st'.ballots[i]) {
      if i < |st.ballots| {
        assert WellFormed(st.options, st.ballots[i]);
        MoreOptions(st.options, [OptionRow(req.newOptionId, req.votingId, req.other, true)], st.ballots[i]);
      } else {
        assert st'.ballots[i] == NewBallots(st, req)[i - |st.ballots|];
      }
    }
  }

  /** Spending a token takes it out of the outstanding ones of the voting that issued it. */
  lemma SpendToken(st: State, st': State, w: string, tokenHash: string)
    requires tokenHash in st.pending && st'.pending == st.pending - {tokenHash}
    ensures |Outstanding(st', w)| == |Outstanding(st, w)|
              - (if st.pending[tokenHash].votingId == Some(w) && !st.pending[tokenHash].isPractice then 1 else 0)
  {
    if st.pending[tokenHash].votingId == Some(w) && !st.pending[tokenHash].isPractice {
      assert Outstanding(st', w) == Outstanding(st, w) - {tokenHash};
      assert tokenHash in Outstanding(st, w);
    } else {
      assert Outstanding(st', w) == Outstanding(st, w);
    }
  }

  /** A committed vote adds at least one ballot, to its own voting only. */
  lemma CommitAddsBallots(st: State, req: Request, now: int, w: string)
    requires CheckVote(st, req, now).None?
    ensures Count(Commit(st, req).ballots, InVoting(w))
         == Count(st.ballots, InVoting(w)) + (if w == req.votingId then |NewBallots(st, req)| else 0)
    ensures |NewBallots(st, req)| >= 1
  {
    var added := NewBallots(st, req);
    NewBallotsWellFormed(st, req, now);
    CountConcat(st.ballots, added, InVoting(w));
    if w == req.votingId {
      CountAll(added, InVoting(w));
    } else {
      CountNone(added, InVoting(w));
    }
  }

  lemma CommitAddsHistory(st: State, req: Request, w: string)
    requires req.tokenHash in st.pending
    ensures Count(Commit(st, req).history, AcceptedIn(w))
         == Count(st.history, AcceptedIn(w)) + (if w == req.votingId then 1 else 0)
    ensures Count(Commit(st, req).history, OwnAccepted(w))
         == Count(st.history, OwnAccepted(w))
            + (if w == req.votingId && st.pending[req.tokenHash].votingId == Some(w) then 1 else 0)
    ensures Count(Commit(st, req).history, DivertedFrom(w)) == Count(st.history, DivertedFrom(w))
  {
    var entry := Accepted(req.votingId, req.tokenHash, st.pending[req.tokenHash].votingId == Some(req.votingId));
    CountOne(st.history, entry, OwnAccepted(w));
    CountOne(st.history, entry, AcceptedIn(w));
    CountOne(st.history, entry, DivertedFrom(w));
  }

  lemma CommitKeepsAccount(st: State, req: Request, now: int, w: string)
    requires Account(st, w) && CheckVote(st, req, now).None? && !Practice(st, req)
    ensures Account(Commit(st, req), w)
  {
    var st' := Commit(st, req);
    CommitAddsHistory(st, req, w);
    CommitAddsBallots(st, req, now, w);
    SpendToken(st, st', w, req.tokenHash);
    assert Participants(st', w) == Participants(st, w);
    assert st.pending[req.tokenHash].votingId in {None, Some(req.votingId)};
    assert TotalVotes(st', w) == TotalVotes(st, w) + (if w == req.votingId then 1 else 0);
  }

  lemma CommitUndisturbed(st: State, req: Request, now: int, w: string)
    requires References(st) && CheckVote(st, req, now).None? && CheckCommit(st, req).None? && w != req.votingId
    ensures Undisturbed(st, Commit(st, req), w)
  {
    var st' := Commit(st, req);
    CommitKeepsReferences(st, req, now);
    NewBallotsWellFormed(st, req, now);
    var extra := if CreatesOption(st, req) then [OptionRow(req.newOptionId, req.votingId, req.other, true)] else [];
    assert st'.options == st.options + extra;
    AdditionsElsewhere(st, st', w, extra, NewBallots(st, req));
  }

  lemma VoteKeeps(st: State, req: Request, now: int)
    requires Invariant(st)
    ensures Invariant(Vote(st, req, now).0)
  {
    var (st', outcome) := Vote(st, req, now);
    if outcome.Ok? && !outcome.value {
      CommitKeepsReferences(st, req, now);
      forall w ensures Account(st', w) {
        assert Account(st, w);
        CommitKeepsAccount(st, req, now, w);
      }
      forall w | w in st'.snapshots ensures SnapshotFresh(st', w) {
        assert SnapshotFresh(st, w);
        CommitUndisturbed(st, req, now, w);
        var r := st.snapshots[w].results;
        UndisturbedResults(st, st', w, r.otherTotal.Some?, r.isClosed);
      }
      forall w | w in st'.results ensures IsSealed(st', w) {
        assert IsSealed(st, w);
        CommitUndisturbed(st, req, now, w);
        UndisturbedResults(st, st', w, true, true);
      }
    }
  }

  /** A token a survey spends leaves its voting's outstanding ones for the diverted ones. */
  lemma SurveySpendKeepsAccount(st: State, s: string, tokenHash: string, now: int, w: string)
    requires Account(st, w) && SurveyMaySpend(st, s, tokenHash, now)
    ensures Account(SurveySpend(st, s, tokenHash, true, now), w)
  {
    var st', entry := SurveySpend(st, s, tokenHash, true, now), Diverted(st.pending[tokenHash].votingId, tokenHash);
    SpendToken(st, st', w, tokenHash);
    CountOne(st.history, entry, AcceptedIn(w));
    CountOne(st.history, entry, OwnAccepted(w));
    CountOne(st.history, entry, DivertedFrom(w));
    assert Participants(st', w) == Participants(st, w);
  }

  lemma SurveySpendKeeps(st: State, s: string, tokenHash: string, admitted: bool, now: int)
    requires Invariant(st)
    ensures Invariant(SurveySpend(st, s, tokenHash, admitted, now))
  {
    var st' := SurveySpend(st, s, tokenHash, admitted, now);
    if st' != st {
      forall w ensures Account(st', w) {
        assert Account(st, w);
        SurveySpendKeepsAccount(st, s, tokenHash, now, w);
      }
    }
    SameResults(st, st');
  }

  // ---- reading, finalising and editing ----

  /** A change to the row of a voting that is not finalised. */
  lemma RowChangeKeeps(st: State, v: string, row: VotingRow)
    requires Invariant(st) && v in st.votings && !st.votings[v].isFinalized && !row.isFinalized
    ensures Invariant(st.(votings := st.votings[v := row]))
  {
    var st' := st.(votings := st.votings[v := row]);
    forall w | w in st.votings ensures Undisturbed(st, st', w) {
      SameShapeAsItself(st, st', w);
    }
    QuietStep(st, st');
  }

  /** Storing what a recount gives keeps the cache in step with the ballots. */
  lemma StoreSnapshotKeeps(st: State, v: string, allowOther: bool, isClosed: bool, expiresAt: int)
    requires Invariant(st) && v in st.votings
    ensures Invariant(st.(snapshots := st.snapshots[v := Snapshot(Recount(st, v, allowOther, isClosed), expiresAt)]))
  {
    var r := Recount(st, v, allowOther, isClosed);
    var st' := st.(snapshots := st.snapshots[v := Snapshot(r, expiresAt)]);
    AccountsStay(st, st');
    SealsStay(st, st');
    forall w | w in st'.snapshots ensures SnapshotFresh(st', w) {
      var kept := st'.snapshots[w].results;
      SameShapeAsItself(st, st', w);
      UndisturbedResults(st, st', w, kept.otherTotal.Some?, kept.isClosed);
      if w != v {
        assert SnapshotFresh(st, w);
      }
    }
  }

  lemma SealsStay(st: State, st': State)
    requires AllSealed(st)
    requires st'.options == st.options && st'.ballots == st.ballots
    requires st'.votings == st.votings && st'.results == st.results
    ensures AllSealed(st')
  {
    forall v | v in st'.results ensures IsSealed(st', v) {
      assert IsSealed(st, v);
    }
  }

  lemma GetResultsKeeps(st: State, v: string, forceFresh: bool, now: int)
    requires Invariant(st)
    ensures Invariant(GetResults(st, v, forceFresh, now).0)
  {
    var found := FindVoting(st, v);
    if found.Some? && !found.value.isFinalized {
      var voting, st1 := found.value, Broadcasted(st, v, found.value, now);
      RowChangeKeeps(st, v, voting.(lastBroadcastAt := Some(now)));
      FreshKeeps(st, v, voting, now);
      FreshKeeps(st1, v, voting, now);
      ReadCases(st, v, voting, forceFresh, now);
    }
  }

  lemma FreshKeeps(st: State, v: string, voting: VotingRow, now: int)
    requires Invariant(st) && v in st.votings
    ensures Invariant(FreshResults(st, v, voting, now).0)
  {
    StoreSnapshotKeeps(st, v, voting.allowOther, IsClosed(voting, now), now + 7200 * 1000);
  }

  /** Reading an open voting writes nothing, the snapshot, or the broadcast mark and the snapshot. */
  lemma ReadCases(st: State, v: string, voting: VotingRow, forceFresh: bool, now: int)
    requires FindVoting(st, v) == Some(voting) && !voting.isFinalized
    ensures GetResults(st, v, forceFresh, now).0
         in {st, FreshResults(st, v, voting, now).0, FreshResults(Broadcasted(st, v, voting, now), v, voting, now).0}
  {
  }

  lemma SealKeeps(st: State, v: string, row: VotingRow)
    requires AllSealed(st) && v in st.votings && v !in st.results && row.isFinalized && !row.isDeleted
    ensures AllSealed(st.(votings := st.votings[v := row], results := st.results[v := Tally(st, v)]))
  {
    var st' := st.(votings := st.votings[v := row], results := st.results[v := Tally(st, v)]);
    forall w | w in st'.results ensures IsSealed(st', w) {
      assert w in st.results ==> IsSealed(st, w);
    }
  }

  lemma FinalizeKeeps(st: State, v: string, secure: bool, now: int)
    requires Invariant(st)
    ensures Invariant(Finalize(st, v, secure, now).0)
  {
    var (st', outcome) := Finalize(st, v, secure, now);
    if outcome.Ok? {
      AccountsStay(st, st');
      forall w | w in st'.snapshots ensures SnapshotFresh(st', w) {
        assert SnapshotFresh(st, w);
      }
      SealKeeps(st, v, FindVoting(st, v).value.(isFinalized := true));
    }
  }

  lemma UpdateKeeps(st: State, v: string, edit: Edit, permitted: bool, now: int)
    requires Invariant(st)
    ensures Invariant(Update(st, v, edit, permitted, now).0)
  {
    var found := FindVoting(st, v);
    if found.Some? && !found.value.isFinalized {
      RowChangeKeeps(st, v, Edited(found.value, edit));
      GetResultsKeeps(st.(votings := st.votings[v := Edited(found.value, edit)]), v, false, now);
    }
  }

  lemma RetextKeeps(st: State, id: string, text: string)
    requires Invariant(st)
    ensures Invariant(st.(options := Retext(st.options, id, text)))
  {
    var st' := st.(options := Retext(st.options, id, text));
    forall i | 0 <= i < |st'.ballots| ensures WellFormed(st'.options, st'.ballots[i]) {
      var b := st.ballots[i];
      assert WellFormed(st.options, b);
      if b.optionId.Some? {
        var k :| 0 <= k < |st.options| && st.options[k].votingId == b.votingId && st.options[k].id == b.optionId.value;
        assert st'.options[k].votingId == b.votingId && st'.options[k].id == b.optionId.value;
      }
    }
    forall w | w in st.votings ensures Undisturbed(st, st', w) {
      RetextUndisturbed(st, id, text, w);
    }
    QuietStep(st, st');
  }

  lemma UpdateOptionKeeps(st: State, v: string, optionId: string, text: string, permitted: bool, now: int)
    requires Invariant(st)
    ensures Invariant(UpdateOption(st, v, optionId, text, permitted, now).0)
  {
    RetextKeeps(st, optionId, text);
    GetResultsKeeps(st.(options := Retext(st.options, optionId, text)), v, false, now);
  }

  lemma DeleteKeeps(st: State, v: string, permitted: bool)
    requires Invariant(st)
    ensures Invariant(Delete(st, v, permitted).0)
  {
    var found := FindVoting(st, v);
    if found.Some? && !found.value.isFinalized {
      RowChangeKeeps(st, v, found.value.(isDeleted := true));
    }
  }

  lemma EvictKeeps(st: State, v: string)
    requires Invariant(st)
    ensures Invariant(st.(snapshots := st.snapshots - {v}))
  {
    var st' := st.(snapshots := st.snapshots - {v});
    forall w | w in st.votings ensures Undisturbed(st, st', w) {
      SameShapeAsItself(st, st', w);
    }
    QuietStep(st, st');
  }

  lemma StepKeeps(st: State, step: Step)
    requires Invariant(st)
    ensures Invariant(Apply(st, step))
  {
    match step
    case Creating(v, row, minChoices, drafts, permitted) => CreateKeeps(st, v, row, minChoices, drafts, permitted);
    case Signing(v, userId, tokenHash, isPractice, now) => SignKeeps(st, v, userId, tokenHash, isPractice, now);
    case SurveySigning(s, userId, tokenHash, isPractice, now) => SurveySignKeeps(st, s, userId, tokenHash, isPractice, now);
    case SurveySpending(s, tokenHash, admitted, now) => SurveySpendKeeps(st, s, tokenHash, admitted, now);
    case Voting(req, now) => VoteKeeps(st, req, now);
    case Reading(v, forceFresh, now) => GetResultsKeeps(st, v, forceFresh, now);
    case Finalizing(v, secure, now) => FinalizeKeeps(st, v, secure, now);
    case Updating(v, edit, permitted, now) => UpdateKeeps(st, v, edit, permitted, now);
    case UpdatingOption(v, optionId, text, permitted, now) => UpdateOptionKeeps(st, v, optionId, text, permitted, now);
    case Deleting(v, permitted) => DeleteKeeps(st, v, permitted);
    case Evicting(v) => EvictKeeps(st, v);
  }

  lemma {:induction false} RunKeeps(st: State, steps: seq<Step>)
    requires Invariant(st)
    ensures Invariant(Run(st, steps))
    decreases |steps|
  {
    if steps != [] {
      StepKeeps(st, steps[0]);
      RunKeeps(Apply(st, steps[0]), steps[1..]);
    }
  }

  function FromEmpty(steps: seq<Step>): State {
    Run(EMPTY, steps)
  }

  lemma ReachableHolds(steps: seq<Step>)
    ensures Invariant(FromEmpty(steps))
  {
    EmptyHolds();
    RunKeeps(EMPTY, steps);
  }
}
