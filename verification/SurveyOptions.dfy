/**
 * Option by option: when the number shown for an option is its stored ballots. Ballots of Other
 * answers are counted under Other, and those stored before the counters were lost not at all.
 */
module SurveyOptions {
  import opened Base
  import opened Counting
  import opened SurveyStore
  import opened SurveyCounters
  import opened SurveyGuarantees
  import opened SurveyResults
  import opened SurveySealing

  /** An answer naming the option as free text on a choice question. */
  function OtherWith(id: string): Answer -> bool {
    (a: Answer) => a.optionId == id && a.other
  }

  /** The ballots of the option that are Other answers accepted since the question's key was last lost. */
  function OtherBallots(st: State, s: string, q: string, id: string): nat {
    Count(AllAnswers(Since(st, QuestionKey(s, q))), OtherWith(id))
  }

  /** The ballots of the option stored before that. */
  function ForgottenOfOption(st: State, s: string, q: string, id: string): nat {
    Count(AllAnswers(Forgotten(st, QuestionKey(s, q))), With(id))
  }

  lemma OptionOfOneQuestion(options: seq<OptionRow>, q: string, r: string, id: string)
    requires DistinctOptions(options) && IsOptionOf(options, q, id) && IsOptionOf(options, r, id)
    ensures q == r
  {
    var i :| 0 <= i < |options| && options[i].questionId == q && options[i].id == id;
    var j :| 0 <= j < |options| && options[j].questionId == r && options[j].id == id;
    assert i == j;
  }

  /** Accepted answers that name an option are to its question, in its survey. */
  lemma AnswersOfOption(st: State, s: string, q: string, id: string, n: nat, k: nat)
    requires ReferencesHold(st) && Owns(st.questions, s, q) && IsOptionOf(st.options, q, id)
    requires n < |st.history| && k < |st.history[n].answers| && st.history[n].answers[k].optionId == id
    ensures st.history[n].answers[k].questionId == q && st.history[n].surveyId == s
  {
    var e := st.history[n];
    assert AnswersFit(st, e.surveyId, e.answers);
    assert AnswerFits(st, e.surveyId, e.answers[k]);
    OptionOfOneQuestion(st.options, q, e.answers[k].questionId, id);
    OwnedOnce(st.questions, s, e.surveyId, q);
  }

  /** Every answer with the option is to q, in a submission to s. */
  predicate Belong(history: seq<Accepted>, s: string, q: string, id: string) {
    forall n, k | 0 <= n < |history| && 0 <= k < |history[n].answers| && history[n].answers[k].optionId == id ::
      history[n].answers[k].questionId == q && history[n].surveyId == s
  }

  lemma {:induction false} AnswersOfOptionSplit(answers: seq<Answer>, q: string, id: string)
    requires forall k | 0 <= k < |answers| && answers[k].optionId == id :: answers[k].questionId == q
    ensures Count(answers, With(id)) == Count(answers, PlainOption(q, id)) + Count(answers, OtherWith(id))
  {
    if answers != [] {
      AnswersOfOptionSplit(answers[..|answers| - 1], q, id);
    }
  }

  lemma {:induction false} OptionAddsUp(history: seq<Accepted>, s: string, q: string, id: string)
    requires Belong(history, s, q, id)
    ensures HistoryField(history, s, q, OptionField(id)) + Count(AllAnswers(history), OtherWith(id))
         == Count(AllAnswers(history), With(id))
  {
    if history != [] {
      var front, last := history[..|history| - 1], history[|history| - 1];
      OptionAddsUp(front, s, q, id);
      CountConcat(AllAnswers(front), last.answers, With(id));
      CountConcat(AllAnswers(front), last.answers, OtherWith(id));
      AnswersOfOptionSplit(last.answers, q, id);
      if last.surveyId != s {
        CountNone(last.answers, With(id));
      }
    }
  }

  lemma SinceBelongs(st: State, s: string, q: string, id: string)
    requires ReferencesHold(st) && Owns(st.questions, s, q) && IsOptionOf(st.options, q, id)
    ensures Belong(Since(st, QuestionKey(s, q)), s, q, id)
  {
    var past, since := Forgotten(st, QuestionKey(s, q)), Since(st, QuestionKey(s, q));
    forall n, k | 0 <= n < |since| && 0 <= k < |since[n].answers| && since[n].answers[k].optionId == id
      ensures since[n].answers[k].questionId == q && since[n].surveyId == s
    {
      assert since[n] == (past + since)[|past| + n];
      AnswersOfOption(st, s, q, id, |past| + n, k);
    }
  }

  /** An option's counter, its Other ballots and its forgotten ballots are its stored ballots. */
  lemma OptionAgainstBallots(st: State, s: string, q: string, id: string)
    requires Invariant(st) && Owns(st.questions, s, q) && IsOptionOf(st.options, q, id)
    ensures Get(HashAt(st.hashes, QuestionKey(s, q)), OptionField(id))
            + OtherBallots(st, s, q, id) + ForgottenOfOption(st, s, q, id)
         == Count(st.ballots, ForOption(id))
  {
    var past, since := Forgotten(st, QuestionKey(s, q)), Since(st, QuestionKey(s, q));
    assert FieldCounted(st, s, q, OptionField(id));
    SinceBelongs(st, s, q, id);
    OptionAddsUp(since, s, q, id);
    AllAnswersConcat(past, since);
    CountConcat(AllAnswers(past), AllAnswers(since), With(id));
    BallotsCountAsAnswers(st.ballots, AllAnswers(st.history), q, id);
  }

  lemma ListedOption(options: seq<OptionRow>, q: string, k: nat)
    requires k < |OptionsOf(options, q)|
    ensures IsOptionOf(options, q, OptionsOf(options, q)[k].id)
  {
    OptionsOfMembers(options, q);
    var x := OptionsOf(options, q)[k];
    assert x in OptionsOf(options, q);
    var i :| 0 <= i < |options| && options[i] == x;
  }

  /**
   * In every run, with Redis losing keys at will, the number shown for an option is its stored
   * ballots exactly when it is read from the ballots, or none of them precedes the last loss of the
   * question's key and none since is an Other answer.
   */
  lemma OptionShownIff(first: State, steps: seq<Step>, s: string, q: QuestionRow, k: nat)
    requires Unanswered(first) && Owns(Run(first, steps).questions, s, q.id)
    requires k < |OptionsOf(Run(first, steps).options, q.id)|
    ensures var st := Run(first, steps);
      var id, total := OptionsOf(st.options, q.id)[k].id, TotalResponses(st, s);
      LiveQuestion(st, s, q, total).counts[k] == Count(st.ballots, ForOption(id)) <==>
        FallsBack(st, s, q, total)
        || (OtherBallots(st, s, q.id, id) == 0 && ForgottenOfOption(st, s, q.id, id) == 0)
  {
    var st := Run(first, steps);
    UnansweredHolds(first);
    RunKeeps(first, steps);
    ListedOption(st.options, q.id, k);
    OptionAgainstBallots(st, s, q.id, OptionsOf(st.options, q.id)[k].id);
  }
}
