/**
 * The number of responses shown, and finalising a survey: what is sealed, that neither the seal
 * nor the ballots behind it move again, and exactly when the sealed numbers are the stored ones.
 */
module SurveySealing {
  import opened Base
  import opened Counting
  import opened SurveyStore
  import opened SurveyCounters
  import opened SurveyGuarantees
  import opened SurveyResults

  // ---- the total of responses ----

  function Submissions(st: State, s: string): nat {
    Count(st.history, InSurvey(s))
  }

  /** The submissions the response counter has forgotten. */
  function ForgottenResponses(st: State, s: string): nat {
    Count(Forgotten(st, ResponsesKey(s)), InSurvey(s))
  }

  /** The stored answers of the accepted submissions to a survey. */
  function AnswersGiven(history: seq<Accepted>, s: string): nat {
    if history == [] then 0
    else
      var last := history[|history| - 1];
      AnswersGiven(history[..|history| - 1], s) + (if last.surveyId == s then |last.answers| else 0)
  }

  function Answering(questions: seq<QuestionRow>, s: string): Answer -> bool {
    (a: Answer) => FindQuestion(questions, a.questionId).Some? && FindQuestion(questions, a.questionId).value.surveyId == s
  }

  lemma {:induction false} FindOwned(questions: seq<QuestionRow>, s: string, q: string)
    requires DistinctQuestions(questions) && Owns(questions, s, q)
    ensures FindQuestion(questions, q).Some? && FindQuestion(questions, q).value.surveyId == s
  {
    var i :| 0 <= i < |questions| && questions[i].surveyId == s && questions[i].id == q;
    if questions[0].id != q {
      assert questions[1..][i - 1] == questions[i];
      FindOwned(questions[1..], s, q);
    }
  }

  lemma {:induction false} AnswersOfSurvey(st: State, history: seq<Accepted>, s: string)
    requires DistinctQuestions(st.questions)
    requires forall i | 0 <= i < |history| :: AnswersFit(st, history[i].surveyId, history[i].answers)
    ensures Count(AllAnswers(history), Answering(st.questions, s)) == AnswersGiven(history, s)
  {
    if history != [] {
      var front, e := history[..|history| - 1], history[|history| - 1];
      AnswersOfSurvey(st, front, s);
      assert AnswersFit(st, e.surveyId, e.answers);
      forall j | 0 <= j < |e.answers| ensures Answering(st.questions, s)(e.answers[j]) <==> e.surveyId == s {
        assert AnswerFits(st, e.surveyId, e.answers[j]);
        FindOwned(st.questions, e.surveyId, e.answers[j].questionId);
      }
      CountConcat(AllAnswers(front), e.answers, Answering(st.questions, s));
      if e.surveyId == s {
        CountAll(e.answers, Answering(st.questions, s));
      } else {
        CountNone(e.answers, Answering(st.questions, s));
      }
    }
  }

  lemma {:induction false} BallotsAnswer(questions: seq<QuestionRow>, ballots: seq<Ballot>, answers: seq<Answer>, s: string)
    requires |ballots| == |answers| && forall i | 0 <= i < |ballots| :: SameAnswer(ballots[i], answers[i])
    ensures Count(ballots, OfSurvey(questions, s)) == Count(answers, Answering(questions, s))
  {
    if ballots != [] {
      var last := |ballots| - 1;
      assert SameAnswer(ballots[last], answers[last]);
      BallotsAnswer(questions, ballots[..last], answers[..last], s);
    }
  }

  /**
   * With the response counter at zero, what is shown as responses is the number of answers the
   * accepted submissions gave; otherwise it is the submissions since the counter was last lost. So
   * it is the number of submissions exactly when these gave as many answers as there are, or none
   * has been forgotten.
   */
  lemma ResponsesShownIff(st: State, s: string)
    requires Invariant(st)
    ensures TotalResponses(st, s) == if Responses(st, s) == 0 then AnswersGiven(st.history, s)
                                     else Submissions(st, s) - ForgottenResponses(st, s)
    ensures TotalResponses(st, s) == Submissions(st, s) <==>
              if Responses(st, s) == 0 then AnswersGiven(st.history, s) == Submissions(st, s)
              else ForgottenResponses(st, s) == 0
  {
    var key := ResponsesKey(s);
    assert ResponsesCounted(st, s);
    CountConcat(Forgotten(st, key), Since(st, key), InSurvey(s));
    BallotsAnswer(st.questions, st.ballots, AllAnswers(st.history), s);
    AnswersOfSurvey(st, st.history, s);
  }

  lemma {:induction false} NoSubmissionNoAnswer(history: seq<Accepted>, s: string)
    requires Count(history, InSurvey(s)) == 0
    ensures AnswersGiven(history, s) == 0
  {
    if history != [] {
      NoSubmissionNoAnswer(history[..|history| - 1], s);
    }
  }

  /** While the response counter has never been lost, what is shown is the number of submissions. */
  lemma KeptResponsesAreSubmissions(st: State, s: string)
    requires Invariant(st) && ResponsesKey(s) !in st.lost
    ensures TotalResponses(st, s) == Submissions(st, s)
  {
    ResponsesShownIff(st, s);
    assert ResponsesCounted(st, s);
    if Responses(st, s) == 0 {
      NoSubmissionNoAnswer(st.history, s);
    }
  }

  // ---- the seal ----

  predicate IsFinal(st: State, s: string) {
    s in st.results && s in st.surveys && st.surveys[s].isFinalized
  }

  lemma StepKeepsFinal(st: State, step: Step, s: string)
    requires s in st.results ==> IsFinal(st, s)
    ensures s in Apply(st, step).results ==> IsFinal(Apply(st, step), s)
  {
    if step.Submitting? {
      SubmitCases(st, step.req, step.now);
    }
  }

  lemma {:induction false} RunKeepsFinal(st: State, steps: seq<Step>, s: string)
    requires s in st.results ==> IsFinal(st, s)
    ensures s in Run(st, steps).results ==> IsFinal(Run(st, steps), s)
    decreases |steps|
  {
    if steps != [] {
      StepKeepsFinal(st, steps[0], s);
      RunKeepsFinal(Apply(st, steps[0]), steps[1..], s);
    }
  }

  /** Finalising succeeds exactly on an ended, open survey with a secure chain, and seals what is shown. */
  lemma FinalizeSeals(first: State, steps: seq<Step>, s: string, secure: bool, now: int)
    requires Unanswered(first)
    ensures var st := Run(first, steps);
      var (st', outcome) := Finalize(st, s, secure, now);
      && (outcome.Ok? <==> FindSurvey(st, s).Some? && !FindSurvey(st, s).value.isFinalized && secure
                           && (FindSurvey(st, s).value.endAt.None? || now >= FindSurvey(st, s).value.endAt.value))
      && (outcome.Ok? ==> IsFinal(st', s) && st'.results[s] == LiveResults(st, s))
      && (outcome.Err? ==> st' == st)
  {
    RunKeepsFinal(first, steps, s);
  }

  /** Nothing that the survey's results could be about has changed. */
  ghost predicate Frozen(st: State, st': State, s: string) {
    && IsFinal(st, s) && IsFinal(st', s) && st'.results[s] == st.results[s] && st'.questions == st.questions
    && Submissions(st', s) == Submissions(st, s)
    && forall q | Owns(st.questions, s, q) :: Count(st'.ballots, OfQuestion(q)) == Count(st.ballots, OfQuestion(q))
  }

  lemma OwnedOnce(questions: seq<QuestionRow>, s: string, t: string, q: string)
    requires DistinctQuestions(questions) && Owns(questions, s, q) && Owns(questions, t, q)
    ensures s == t
  {
    FindOwned(questions, s, q);
    FindOwned(questions, t, q);
  }

  /** A submission to one survey adds nothing to the questions of another. */
  lemma CommitElsewhere(st: State, req: Request, s: string, q: string)
    requires ReferencesHold(st) && Owns(st.questions, s, q) && req.surveyId != s
    ensures Count(Commit(st, req, Build(st, req)).ballots, OfQuestion(q)) == Count(st.ballots, OfQuestion(q))
  {
    var d := Build(st, req);
    var added := NewBallots(req, d);
    BuildFits(st, req);
    forall i | 0 <= i < |added| ensures !OfQuestion(q)(added[i]) {
      assert Owns(st.questions, req.surveyId, d.answers[i].questionId);
      if added[i].questionId == q {
        OwnedOnce(st.questions, s, req.surveyId, q);
      }
    }
    CountConcat(st.ballots, added, OfQuestion(q));
    CountNone(added, OfQuestion(q));
  }

  lemma SubmitFreezes(st: State, req: Request, now: int, s: string)
    requires ReferencesHold(st) && IsFinal(st, s)
    ensures Frozen(st, Submit(st, req, now).0, s)
  {
    SubmitCases(st, req, now);
    var (st', outcome) := Submit(st, req, now);
    if outcome == Ok(false) {
      assert req.surveyId != s;
      CountOne(st.history, AcceptedNow(req, Build(st, req)), InSurvey(s));
      forall q | Owns(st.questions, s, q)
        ensures Count(st'.ballots, OfQuestion(q)) == Count(st.ballots, OfQuestion(q))
      {
        CommitElsewhere(st, req, s, q);
      }
    }
  }

  lemma IssueFreezes(st: State, tokenHash: string, issued: Pending, t: string, s: string)
    requires IsFinal(st, s)
    ensures Frozen(st, Issue(st, tokenHash, issued, t), s)
  {
  }

  lemma VoteFreezes(st: State, tokenHash: string, s: string)
    requires IsFinal(st, s)
    ensures Frozen(st, VoteSpend(st, tokenHash), s)
  {
  }

  lemma FinalizeFreezes(st: State, t: string, secure: bool, now: int, s: string)
    requires IsFinal(st, s)
    ensures Frozen(st, Finalize(st, t, secure, now).0, s)
  {
  }

  lemma LoseFreezes(st: State, key: Key, s: string)
    requires IsFinal(st, s)
    ensures Frozen(st, Lose(st, key), s)
  {
  }

  lemma StepFreezes(st: State, step: Step, s: string)
    requires ReferencesHold(st) && IsFinal(st, s)
    ensures Frozen(st, Apply(st, step), s)
  {
    match step
    case Issuing(tokenHash, issued, t) => IssueFreezes(st, tokenHash, issued, t, s);
    case VoteSpending(tokenHash) => VoteFreezes(st, tokenHash, s);
    case Submitting(req, now) => SubmitFreezes(st, req, now, s);
    case Finalizing(t, secure, now) => FinalizeFreezes(st, t, secure, now, s);
    case Losing(key) => LoseFreezes(st, key, s);
  }

  lemma {:induction false} RunFreezes(st: State, steps: seq<Step>, s: string)
    requires Invariant(st) && IsFinal(st, s)
    ensures Frozen(st, Run(st, steps), s)
    decreases |steps|
  {
    if steps != [] {
      StepFreezes(st, steps[0], s);
      StepKeeps(st, steps[0]);
      RunFreezes(Apply(st, steps[0]), steps[1..], s);
    }
  }

  /** What made the shown number of a question the stored one when it was read. */
  predicate ShownTrue(st: State, s: string, q: QuestionRow) {
    if FallsBack(st, s, q, TotalResponses(st, s)) then !AllowsOther(q) || DynamicBallots(st, q) == 0
    else ForgottenBallots(st, s, q.id) == 0 && NoRepeats(st, s, q.id)
  }

  /**
   * From unanswered surveys, whatever Redis loses before or after: once sealed, a survey keeps its
   * results through every later step; a question's sealed number is its stored ballots then and
   * ever after exactly when it was at the sealing, and so for the number of responses.
   */
  lemma SealedForGood(st: State, before: seq<Step>, s: string, secure: bool, now: int, after: seq<Step>, k: nat)
    requires Unanswered(st) && Finalize(Run(st, before), s, secure, now).1.Ok?
    requires k < |QuestionsOf(Run(st, before).questions, s)|
    ensures var sealing := Run(st, before);
      var st' := Run(Finalize(sealing, s, secure, now).0, after);
      var q := QuestionsOf(sealing.questions, s)[k];
      && s in st'.results && st'.results[s] == LiveResults(sealing, s)
      && st'.results[s].questions[k].questionId == q.id
      && (Shown(st'.results[s].questions[k]) == Count(st'.ballots, OfQuestion(q.id)) <==> ShownTrue(sealing, s, q))
      && (st'.results[s].totalResponses == Submissions(st', s) <==>
            if Responses(sealing, s) == 0 then AnswersGiven(sealing.history, s) == Submissions(sealing, s)
            else ForgottenResponses(sealing, s) == 0)
  {
    var sealing := Run(st, before);
    var sealed := Finalize(sealing, s, secure, now).0;
    var q := QuestionsOf(sealing.questions, s)[k];
    UnansweredHolds(st);
    RunKeeps(st, before);
    FinalizeKeeps(sealing, s, secure, now);
    RunFreezes(sealed, after, s);
    QuestionsOfOwned(sealing.questions, s);
    assert Owns(sealing.questions, s, q.id);
    ShownIsStoredIff(sealing, s, q, TotalResponses(sealing, s));
    ResponsesShownIff(sealing, s);
  }
}
