/**
 * The one table of pending ballots that votings and surveys share. Each service checks only its own
 * column, so a row that a voting issued also opens a survey, and the other way round; the row is
 * gone for both once it is spent.
 */
module SharedTokens {
  import opened Base
  import opened Counting
  import opened VotingStore
  import opened VotingTallies
  import opened VotingInvariants
  import opened VotingGuarantees
  import S = SurveyStore
  import G = SurveyGuarantees

  /** The rows as the survey service reads them. */
  function SurveyRows(pending: map<string, Pending>): map<string, S.Pending> {
    map h | h in pending :: S.Pending(pending[h].surveyId, pending[h].isPractice, pending[h].expiresAt)
  }

  /** What a survey submission does to the table, by its token and whether it was accepted. */
  function AfterSubmission(st: State, req: S.Request, accepted: bool, now: int): State {
    if req.tokenHash.Some? then SurveySpend(st, req.surveyId, req.tokenHash.value, accepted, now) else st
  }

  /**
   * Whatever the survey store holds otherwise, a submission changes the shared table exactly as the
   * survey step of the voting runs does: an accepted one, and only that, spends its row.
   */
  lemma SubmissionSpends(st: State, surveys: S.State, req: S.Request, now: int)
    requires surveys.pending == SurveyRows(st.pending)
    ensures var (surveys', outcome) := S.Submit(surveys, req, now);
      && (outcome == Ok(false) ==>
            req.tokenHash.Some? && SurveyMaySpend(st, req.surveyId, req.tokenHash.value, now)
            && req.tokenHash.value !in surveys'.pending)
      && surveys'.pending == SurveyRows(AfterSubmission(st, req, outcome == Ok(false), now).pending)
  {
  }

  /** An accepted vote does the same to the table as the vote step of the survey runs. */
  lemma VoteSpends(st: State, surveys: S.State, req: Request, now: int)
    requires surveys.pending == SurveyRows(st.pending)
    ensures var (st', outcome) := Vote(st, req, now);
      (if outcome == Ok(false) then G.VoteSpend(surveys, req.tokenHash) else surveys).pending == SurveyRows(st'.pending)
  {
    var (st', outcome) := Vote(st, req, now);
    if outcome == Ok(false) {
      assert G.VoteSpend(surveys, req.tokenHash).pending == SurveyRows(st'.pending);
    }
  }

  /** A live row opens a survey exactly when no other survey issued it: a voting's row opens every one. */
  lemma RowOpensSurveyIff(st: State, surveys: S.State, req: S.Request, now: int)
    requires surveys.pending == SurveyRows(st.pending) && S.HasToken(req)
    requires req.surveyId in surveys.keys && req.signatureValid
    ensures S.CheckToken(surveys, req, now).None? <==>
              && req.tokenHash.value in st.pending
              && st.pending[req.tokenHash.value].surveyId in {None, Some(req.surveyId)}
              && now <= st.pending[req.tokenHash.value].expiresAt
  {
  }

  // ---- a participation that is neither unspent nor a vote ----

  const OPEN: VotingRow := VotingRow(false, false, None, None, false, false, 1, None, 0, 1, None)

  const DRAFTS: seq<Draft> := [Draft("x", "Yes"), Draft("y", "No")]

  function Created(): State {
    EMPTY.(votings := map["v" := OPEN], options := NewRows("v", DRAFTS))
  }

  function Signed(isPractice: bool): State {
    Sign(Created(), "v", "u", "t", isPractice, 0).0
  }

  /** Creating on an empty store, for any row without a maximum and drafts with distinct ids. */
  lemma CreateFirst(v: string, row: VotingRow, drafts: seq<Draft>)
    requires |drafts| >= 2 && DistinctIds(NewRows(v, drafts)) && row.maxChoices.None?
    requires !row.isFinalized && !row.isDeleted && row.minChoices == 1 && row.lastBroadcastAt.None?
    ensures Apply(EMPTY, Creating(v, row, None, drafts, true))
         == EMPTY.(votings := map[v := row], options := NewRows(v, drafts))
  {
    assert EMPTY.options + NewRows(v, drafts) == NewRows(v, drafts);
  }

  lemma CreatedByStep()
    ensures Apply(EMPTY, Creating("v", OPEN, None, DRAFTS, true)) == Created()
  {
    CreateFirst("v", OPEN, DRAFTS);
  }

  lemma TwoSteps(first: State, a: Step, b: Step)
    ensures Run(first, [a, b]) == Apply(Apply(first, a), b)
  {
    assert [a, b][1..] == [b] && [b][1..] == [];
    assert Run(Apply(Apply(first, a), b), []) == Apply(Apply(first, a), b);
    assert Run(Apply(first, a), [b]) == Run(Apply(Apply(first, a), b), []);
  }

  /** A public survey without questions, with a key, over the table as the voting has left it. */
  function Surveys(pending: map<string, Pending>): S.State {
    S.State(map["s" := S.SurveyRow(true, false, false, None)], [], [], [], SurveyRows(pending), {"s"},
            map[], map[], map[], [], map[])
  }

  function NoId(n: nat): string {
    ""
  }

  const ABSTENTION: S.Request := S.Request("s", "u", true, [], Some("t"), "sig", true, true, false, NoId)

  /** The steps: create a voting, issue a token for it, and spend that token in a survey. */
  const DIVERTED: seq<Step> :=
    [Creating("v", OPEN, None, DRAFTS, true), Signing("v", "u", "t", false, 0), SurveySpending("s", "t", true, 1)]

  lemma DivertedRun()
    ensures FromEmpty(DIVERTED) == SurveySpend(Signed(false), "s", "t", true, 1)
  {
    CreatedByStep();
    assert DIVERTED[1..] == [Signing("v", "u", "t", false, 0), SurveySpending("s", "t", true, 1)];
    TwoSteps(Created(), Signing("v", "u", "t", false, 0), SurveySpending("s", "t", true, 1));
  }

  lemma SurveyAccepts(pending: map<string, Pending>)
    requires "t" in pending && pending["t"].surveyId.None? && !pending["t"].isPractice && pending["t"].expiresAt >= 1
    ensures S.Submit(Surveys(pending), ABSTENTION, 1).1 == Ok(false)
  {
    var d := S.Build(Surveys(pending), ABSTENTION);
    assert d == S.EmptyDraft([]);
    assert S.NewBallots(ABSTENTION, d) == [];
  }

  /**
   * One voter signs a token in a voting and spends it in a survey, which accepts it: the voting has
   * one participation, no unspent token and no accepted vote.
   */
  lemma TokenDivertedToSurvey()
    ensures var st := FromEmpty(DIVERTED);
      && S.Submit(Surveys(Signed(false).pending), ABSTENTION, 1).1 == Ok(false)
      && S.Submit(Surveys(Signed(false).pending), ABSTENTION, 1).0.pending == SurveyRows(st.pending)
      && |Participants(st, "v")| == 1 && Outstanding(st, "v") == {} && Count(st.history, AcceptedIn("v")) == 0
  {
    var st := FromEmpty(DIVERTED);
    DivertedRun();
    SurveyAccepts(Signed(false).pending);
    SubmissionSpends(Signed(false), Surveys(Signed(false).pending), ABSTENTION, 1);
    assert Participants(st, "v") == {Participation("u", "v")};
    assert st.history[..0] == [];
  }

  // ---- a vote without a participation ----

  const VOTE: Request := Request("v", ["x"], "t", "sig", true, "", false, false, "")

  /** The key of v exists from any issue, here a practice one, and a survey issues the token. */
  const BORROWED: seq<Step> :=
    [Creating("v", OPEN, None, DRAFTS, true), Signing("v", "u", "p", true, 0),
     SurveySigning("s", "u", "t", false, 0), Voting(VOTE, 1)]

  function Borrowed(): State {
    SurveySign(Sign(Created(), "v", "u", "p", true, 0).0, "s", "u", "t", false, 0)
  }

  lemma BorrowedRun()
    ensures FromEmpty(BORROWED) == Vote(Borrowed(), VOTE, 1).0
  {
    CreatedByStep();
    var rest := BORROWED[1..];
    assert rest == [Signing("v", "u", "p", true, 0), SurveySigning("s", "u", "t", false, 0), Voting(VOTE, 1)];
    assert rest[1..] == [SurveySigning("s", "u", "t", false, 0), Voting(VOTE, 1)];
    assert Run(Created(), rest) == Run(Sign(Created(), "v", "u", "p", true, 0).0, rest[1..]);
    TwoSteps(Sign(Created(), "v", "u", "p", true, 0).0, SurveySigning("s", "u", "t", false, 0), Voting(VOTE, 1));
  }

  /** A token issued by a survey votes in a voting nobody takes part in: one vote, no participant. */
  lemma SurveyTokenVotes()
    ensures Vote(Borrowed(), VOTE, 1).1 == Ok(false)
    ensures TotalVotes(FromEmpty(BORROWED), "v") == 1 && Participants(FromEmpty(BORROWED), "v") == {}
  {
    var st := Borrowed();
    BorrowedRun();
    assert st.options[0].id == "x" && IsOptionOf(st.options, "v", "x");
    assert NewBallots(st, VOTE) == [Ballot("v", Some("x"), false, Receipt("v", "x", "sig"))];
  }
}
