/**
 * Concrete runs in which survey counters, shown results or shown responses part from what is
 * stored: a repeated Other text, a lost question hash, and a lost response counter.
 */
module SurveyWitnesses {
  import opened Base
  import opened Counting
  import opened Rows
  import opened SurveyStore
  import opened SurveyCounters
  import opened SurveyGuarantees
  import opened SurveyResults
  import opened SurveySealing

  const QUESTION: QuestionRow := QuestionRow("q", "s", SingleChoice, false, Some(ChoiceConfig(true, None, None)))

  /** One public survey with one choice question that allows Other, and nothing submitted. */
  const PUBLISHED: State :=
    State(map["s" := SurveyRow(true, false, false, None)], [QUESTION], [], [], map[], {}, map[], map[], map[], [], map[])

  function Ids(n: nat): string {
    if n == 0 then "a" else "b"
  }

  function Submission(entries: seq<Entry>): Request {
    Request("s", "u", true, entries, Some("t"), "sig", true, false, false, Ids)
  }

  function Issued(): State {
    Issue(PUBLISHED, "t", Pending(Some("s"), false, 10), "s")
  }

  function Steps(entries: seq<Entry>): seq<Step> {
    [Issuing("t", Pending(Some("s"), false, 10), "s"), Submitting(Submission(entries), 0)]
  }

  lemma Admitted(entries: seq<Entry>)
    ensures CheckSubmission(Issued(), Submission(entries), 0).None? && !Practice(Issued(), Submission(entries))
  {
    assert QuestionsOf([QUESTION], "s") == [QUESTION];
    assert CheckQuestion(QUESTION, entries).None?;
    assert [QUESTION][1..] == [];
    assert CheckQuestions([QUESTION], entries).None?;
  }

  lemma {:induction false} RunThen(st: State, steps: seq<Step>, last: Step)
    ensures Run(st, steps + [last]) == Apply(Run(st, steps), last)
    decreases |steps|
  {
    if steps == [] {
      assert [] + [last] == [last] && [last][1..] == [];
      assert Run(Apply(st, last), []) == Apply(st, last);
    } else {
      RunThen(Apply(st, steps[0]), steps[1..], last);
      assert (steps + [last])[1..] == steps[1..] + [last];
    }
  }

  /** The run that issues a token and submits these entries commits the draft they build. */
  lemma Commits(entries: seq<Entry>, d: Draft)
    requires d == Build(Issued(), Submission(entries)) && d.refusal.None?
    requires UniqueHashes(BallotsOf("s", "sig", d.answers))
    ensures Unanswered(PUBLISHED)
    ensures Run(PUBLISHED, Steps(entries)) == Commit(Issued(), Submission(entries), d)
  {
    Admitted(entries);
    RunThen(PUBLISHED, [Steps(entries)[0]], Steps(entries)[1]);
    RunThen(PUBLISHED, [], Steps(entries)[0]);
    assert [Steps(entries)[0]] + [Steps(entries)[1]] == Steps(entries);
    assert [] + [Steps(entries)[0]] == [Steps(entries)[0]];
    assert [] + NewBallots(Submission(entries), d) == NewBallots(Submission(entries), d);
  }

  lemma AllOfQuestion(d: Draft, entries: seq<Entry>)
    requires forall i | 0 <= i < |d.answers| :: d.answers[i].questionId == "q"
    ensures Count(Commit(Issued(), Submission(entries), d).ballots, OfQuestion("q")) == |d.answers|
    ensures |Commit(Issued(), Submission(entries), d).ballots| == |d.answers|
  {
    CountAll(Commit(Issued(), Submission(entries), d).ballots, OfQuestion("q"));
  }

  function Texts(n: nat): seq<Entry> {
    if n == 1 then [Entry("q", [], "x")] else [Entry("q", [], "x"), Entry("q", [], "y")]
  }

  function Created(id: string, text: string): OptionRow {
    OptionRow(id, "q", text, true)
  }

  lemma BuildOneText()
    ensures var d := Build(Issued(), Submission(Texts(1)));
      && d.options == [Created("a", "x")] && d.answers == [Answer("q", "a", true)] && d.refusal.None?
  {
    var items := [Begin("q"), Text("q", "x", false)];
    assert QuestionsOf([QUESTION], "s") == [QUESTION];
    assert Texts(1)[1..] == [];
    assert Items([QUESTION], Texts(1)) == items;
    var d0 := EmptyDraft([]);
    var d1 := Take([], d0, items[0], Ids);
    var d2 := Take([], d1, items[1], Ids);
    assert items[1..] == [items[1]] && [items[1]][1..] == [];
    assert TakeAll([], d2, [], Ids) == d2;
    assert TakeAll([], d1, [items[1]], Ids) == d2;
    assert TakeAll([], d0, items, Ids) == d2;
  }

  lemma BuildTwoTexts()
    ensures var d := Build(Issued(), Submission(Texts(2)));
      d.answers == [Answer("q", "a", true), Answer("q", "b", true)] && d.refusal.None?
  {
    var items := [Begin("q"), Text("q", "x", false), Begin("q"), Text("q", "y", false)];
    assert QuestionsOf([QUESTION], "s") == [QUESTION];
    assert Texts(2)[1..] == [Entry("q", [], "y")] && [Entry("q", [], "y")][1..] == [];
    assert Items([QUESTION], [Entry("q", [], "y")]) == [Begin("q"), Text("q", "y", false)];
    assert Items([QUESTION], Texts(2)) == items;
    var d0 := EmptyDraft([]);
    var d1 := Take([], d0, items[0], Ids);
    var d2 := Take([], d1, items[1], Ids);
    assert d2.options == [Created("a", "x")];
    var d3 := Take([], d2, items[2], Ids);
    assert FindText(d3.options[1..], "q", "y") == None;
    var d4 := Take([], d3, items[3], Ids);
    assert items[1..] == [items[1], items[2], items[3]] && items[1..][1..] == [items[2], items[3]];
    assert [items[2], items[3]][1..] == [items[3]] && [items[3]][1..] == [];
    assert TakeAll([], d4, [], Ids) == d4;
    assert TakeAll([], d3, [items[3]], Ids) == d4;
    assert TakeAll([], d2, [items[2], items[3]], Ids) == d4;
    assert TakeAll([], d1, items[1..], Ids) == d4;
    assert TakeAll([], d0, items, Ids) == d4;
  }

  lemma TwoReceipts(d: Draft)
    requires d.answers == [Answer("q", "a", true), Answer("q", "b", true)]
    ensures UniqueHashes(BallotsOf("s", "sig", d.answers))
  {
  }

  lemma OthersCounted(entries: seq<Entry>, d: Draft)
    requires d == Build(Issued(), Submission(entries)) && d.answers != []
    requires forall i | 0 <= i < |d.answers| :: d.answers[i].questionId == "q" && d.answers[i].other
    ensures var st := Commit(Issued(), Submission(entries), d);
      && Count(st.ballots, OfQuestion("q")) == |d.answers|
      && SumOf(HashAt(st.hashes, QuestionKey("s", "q"))) == 1
  {
    AllOfQuestion(d, entries);
    SumAfterCommit(Submission(entries), d);
    OthersCountOnce(d.answers);
  }

  /** Two Other texts for one question in one submission: two ballots, one counted. */
  lemma RepeatedOtherText()
    ensures var st := Run(PUBLISHED, Steps(Texts(2)));
      && Count(st.ballots, OfQuestion("q")) == 2
      && SumOf(HashAt(st.hashes, QuestionKey("s", "q"))) == 1
  {
    var d := Build(Issued(), Submission(Texts(2)));
    BuildTwoTexts();
    TwoReceipts(d);
    Commits(Texts(2), d);
    OthersCounted(Texts(2), d);
  }

  lemma SumAfterCommit(req: Request, d: Draft)
    requires d == Build(Issued(), req) && req.surveyId == "s" && !req.isAbstention
    ensures SumOf(HashAt(Commit(Issued(), req, d).hashes, QuestionKey("s", "q"))) == AnswerSize(d.answers, "q")
  {
    CommitCounts(Issued(), req, "s", "q", OtherCount);
  }

  lemma OthersCountOnce(answers: seq<Answer>)
    requires answers != [] && forall i | 0 <= i < |answers| :: answers[i].questionId == "q" && answers[i].other
    ensures AnswerSize(answers, "q") == 1
  {
    CountNone(answers, Plain("q"));
    CountAll(answers, Other("q"));
  }

  /** After the run and a loss, the store is the committed one without the key. */
  lemma CommitsThenLoses(entries: seq<Entry>, d: Draft, key: Key)
    requires d == Build(Issued(), Submission(entries)) && d.refusal.None?
    requires UniqueHashes(BallotsOf("s", "sig", d.answers))
    ensures Run(PUBLISHED, Steps(entries) + [Losing(key)]) == Lose(Commit(Issued(), Submission(entries), d), key)
    ensures Invariant(Lose(Commit(Issued(), Submission(entries), d), key))
  {
    Commits(entries, d);
    RunThen(PUBLISHED, Steps(entries), Losing(key));
    UnansweredHolds(PUBLISHED);
    RunKeeps(PUBLISHED, Steps(entries) + [Losing(key)]);
  }

  /** One ballot under Other, then the question's hash is lost: the fallback shows it twice. */
  lemma LostHashShowsTwice()
    ensures var st := Run(PUBLISHED, Steps(Texts(1)) + [Losing(QuestionKey("s", "q"))]);
      && Count(st.ballots, OfQuestion("q")) == 1
      && Shown(LiveQuestion(st, "s", QUESTION, TotalResponses(st, "s"))) == 2
  {
    var key, d := QuestionKey("s", "q"), Build(Issued(), Submission(Texts(1)));
    BuildOneText();
    CommitsThenLoses(Texts(1), d, key);
    AllOfQuestion(d, Texts(1));
    var st := Lose(Commit(Issued(), Submission(Texts(1)), d), key);
    FallbackShows(st, "s", QUESTION, TotalResponses(st, "s"));
    DynamicOnce(st);
  }

  lemma DynamicOnce(st: State)
    requires st.options == [Created("a", "x")] && |st.ballots| == 1
    requires st.ballots[0].questionId == "q" && st.ballots[0].optionId == "a"
    ensures DynamicBallots(st, QUESTION) == 1
  {
    assert st.options[0].id == st.ballots[0].optionId && st.options[0].isDynamic;
    CountAll(st.ballots, DynamicBallot(st.options, "q"));
  }

  /** One submission of two ballots, then the response counter is lost: two responses are shown. */
  lemma LostCounterShowsBallots()
    ensures var st := Run(PUBLISHED, Steps(Texts(2)) + [Losing(ResponsesKey("s"))]);
      Submissions(st, "s") == 1 && TotalResponses(st, "s") == 2
  {
    var key, d := ResponsesKey("s"), Build(Issued(), Submission(Texts(2)));
    BuildTwoTexts();
    TwoReceipts(d);
    CommitsThenLoses(Texts(2), d, key);
    var st := Lose(Commit(Issued(), Submission(Texts(2)), d), key);
    LostCommit(d);
    OneSubmission(st);
    OneSurvey(st);
  }

  lemma LostCommit(d: Draft)
    requires d.answers == [Answer("q", "a", true), Answer("q", "b", true)]
    ensures var st := Lose(Commit(Issued(), Submission(Texts(2)), d), ResponsesKey("s"));
      && st.questions == [QUESTION] && |st.ballots| == 2 && Responses(st, "s") == 0
      && (forall i | 0 <= i < 2 :: st.ballots[i].questionId == "q")
      && |st.history| == 1 && st.history[0].surveyId == "s"
  {
  }

  lemma OneSubmission(st: State)
    requires |st.history| == 1 && st.history[0].surveyId == "s"
    ensures Submissions(st, "s") == 1
  {
    CountAll(st.history, InSurvey("s"));
  }

  lemma OneSurvey(st: State)
    requires st.questions == [QUESTION] && forall i | 0 <= i < |st.ballots| :: st.ballots[i].questionId == "q"
    ensures Count(st.ballots, OfSurvey(st.questions, "s")) == |st.ballots|
  {
    CountAll(st.ballots, OfSurvey(st.questions, "s"));
  }
}
