/**
 * The counter cache against the stored ballots, over every run of submissions in which Redis may
 * lose any of its keys at any time. The counters of a question add up to the ballots stored since
 * its key was last lost, less one for every repeated Other text of a submission.
 */
module SurveyGuarantees {
  import opened Base
  import opened Counting
  import opened FiniteSets
  import opened SurveyStore
  import opened SurveyCounters
  import opened SurveyEntries

  datatype Step =
    | Issuing(tokenHash: string, issued: Pending, surveyId: string)
    | VoteSpending(tokenHash: string)
    | Submitting(req: Request, now: int)
    | Finalizing(surveyId: string, secure: bool, now: int)
    | Losing(key: Key)

  function Issue(st: State, tokenHash: string, issued: Pending, s: string): State {
    var keyed := st.(keys := st.keys + {s});
    if tokenHash in st.pending then keyed else keyed.(pending := st.pending[tokenHash := issued])
  }

  /** A vote deletes the row of the token it spends from the table both services share. */
  function VoteSpend(st: State, tokenHash: string): State {
    st.(pending := st.pending - {tokenHash})
  }

  function Apply(st: State, step: Step): State {
    match step
    case Issuing(tokenHash, issued, s) => Issue(st, tokenHash, issued, s)
    case VoteSpending(tokenHash) => VoteSpend(st, tokenHash)
    case Submitting(req, now) => Submit(st, req, now).0
    case Finalizing(s, secure, now) => Finalize(st, s, secure, now).0
    case Losing(key) => Lose(st, key)
  }

  function Run(st: State, steps: seq<Step>): State
    decreases |steps|
  {
    if steps == [] then st else Run(Apply(st, steps[0]), steps[1..])
  }

  // ---- which submissions pass the guards ----

  /** A required question is answered, and the choices of an answered one are within its limits. */
  predicate AnsweredWell(question: QuestionRow, entries: seq<Entry>) {
    var entry := FindEntry(entries, question.id);
    && (question.isRequired ==> Responded(entry))
    && (Responded(entry) && question.kind.MultipleChoice? && question.choiceConfig.Some? ==>
          var config, selected := question.choiceConfig.value, |entry.value.optionIds|;
          && (config.minChoices.Some? ==> config.minChoices.value <= selected)
          && (config.maxChoices.Some? ==> selected <= config.maxChoices.value))
  }

  lemma {:induction false} QuestionsPassIff(questions: seq<QuestionRow>, entries: seq<Entry>)
    ensures CheckQuestions(questions, entries).None? <==>
              forall i | 0 <= i < |questions| :: AnsweredWell(questions[i], entries)
  {
    if questions != [] {
      QuestionsPassIff(questions[1..], entries);
      assert CheckQuestion(questions[0], entries).None? <==> AnsweredWell(questions[0], entries);
      assert forall i | 0 < i < |questions| :: questions[i] == questions[1..][i - 1];
    }
  }

  predicate OpenFor(survey: SurveyRow, req: Request, now: int) {
    && !survey.isFinalized
    && (req.isPractice || (survey.isPublic && (survey.endAt.Some? ==> now <= survey.endAt.value)))
    && (survey.isPublic || req.isMember)
  }

  predicate TokenGood(st: State, req: Request, now: int)
    requires HasToken(req)
  {
    && req.tokenHash.value in st.pending && now <= st.pending[req.tokenHash.value].expiresAt
    && (st.pending[req.tokenHash.value].surveyId.Some? ==> st.pending[req.tokenHash.value].surveyId.value == req.surveyId)
    && req.surveyId in st.keys && req.signatureValid
  }

  predicate AllAnsweredWell(questions: seq<QuestionRow>, entries: seq<Entry>) {
    forall i | 0 <= i < |questions| :: AnsweredWell(questions[i], entries)
  }

  /** Only a practice submission may come without a token; an abstention skips the questions. */
  lemma AdmittedIff(st: State, req: Request, now: int)
    ensures CheckSubmission(st, req, now).None? <==>
              && FindSurvey(st, req.surveyId).Some? && OpenFor(FindSurvey(st, req.surveyId).value, req, now)
              && (if HasToken(req) then TokenGood(st, req, now) else req.isPractice)
              && (req.isAbstention || AllAnsweredWell(QuestionsOf(st.questions, req.surveyId), req.entries))
  {
    QuestionsPassIff(QuestionsOf(st.questions, req.surveyId), req.entries);
    TokenIff(st, req, now);
    var found := FindSurvey(st, req.surveyId);
    if found.Some? {
      assert CheckSurvey(found.value, req, now).None? <==> OpenFor(found.value, req, now);
    }
  }

  lemma TokenIff(st: State, req: Request, now: int)
    ensures CheckToken(st, req, now).None? <==> if HasToken(req) then TokenGood(st, req, now) else req.isPractice
  {
  }

  // ---- what the accepted submissions come to ----

  function HistoryField(history: seq<Accepted>, s: string, q: string, f: Field): nat {
    if history == [] then 0
    else
      var last := history[|history| - 1];
      HistoryField(history[..|history| - 1], s, q, f) + (if last.surveyId == s then AnswerField(last.answers, q, f) else 0)
  }

  function HistorySize(history: seq<Accepted>, s: string, q: string): nat {
    if history == [] then 0
    else
      var last := history[|history| - 1];
      HistorySize(history[..|history| - 1], s, q) + (if last.surveyId == s then AnswerSize(last.answers, q) else 0)
  }

  function AllAnswers(history: seq<Accepted>): seq<Answer> {
    if history == [] then [] else AllAnswers(history[..|history| - 1]) + history[|history| - 1].answers
  }

  /** Other texts of a submission beyond the first, which the counters do not see. */
  function Repeats(answers: seq<Answer>, q: string): nat {
    if Count(answers, Other(q)) > 1 then Count(answers, Other(q)) - 1 else 0
  }

  function Surplus(history: seq<Accepted>, s: string, q: string): nat {
    if history == [] then 0
    else
      var last := history[|history| - 1];
      Surplus(history[..|history| - 1], s, q) + (if last.surveyId == s then Repeats(last.answers, q) else 0)
  }

  function InSurvey(s: string): Accepted -> bool {
    (a: Accepted) => a.surveyId == s
  }

  // ---- what happened since a key was last lost ----

  function LostAt(st: State, key: Key): nat {
    if key in st.lost then st.lost[key] else 0
  }

  /** The submissions accepted up to the last loss of the key, which its counters have forgotten. */
  function Forgotten(st: State, key: Key): seq<Accepted> {
    if LostAt(st, key) <= |st.history| then st.history[..LostAt(st, key)] else st.history
  }

  function Since(st: State, key: Key): (r: seq<Accepted>)
    ensures Forgotten(st, key) + r == st.history
  {
    if LostAt(st, key) <= |st.history| then st.history[LostAt(st, key)..] else []
  }

  ghost predicate LossesPast(st: State) {
    forall key | key in st.lost :: st.lost[key] <= |st.history|
  }

  // ---- references ----

  predicate Owns(questions: seq<QuestionRow>, s: string, q: string) {
    exists i | 0 <= i < |questions| :: questions[i].surveyId == s && questions[i].id == q
  }

  predicate DistinctQuestions(questions: seq<QuestionRow>) {
    forall i, j | 0 <= i < j < |questions| :: questions[i].id != questions[j].id
  }

  predicate DistinctOptions(options: seq<OptionRow>) {
    forall i, j | 0 <= i < j < |options| :: options[i].id != options[j].id
  }

  /** An answer is to a question of the survey, with an option of that question. */
  predicate AnswerFits(st: State, s: string, a: Answer) {
    Owns(st.questions, s, a.questionId) && IsOptionOf(st.options, a.questionId, a.optionId)
  }

  predicate AnswersFit(st: State, s: string, answers: seq<Answer>) {
    forall j | 0 <= j < |answers| :: AnswerFits(st, s, answers[j])
  }

  predicate HistoryFits(st: State) {
    forall i | 0 <= i < |st.history| :: AnswersFit(st, st.history[i].surveyId, st.history[i].answers)
  }

  predicate SameAnswer(b: Ballot, a: Answer) {
    b.questionId == a.questionId && b.optionId == a.optionId
  }

  /** The stored ballots are the answers of the accepted submissions, in order. */
  predicate BallotsAreAnswers(st: State) {
    && |st.ballots| == |AllAnswers(st.history)|
    && forall i | 0 <= i < |st.ballots| :: SameAnswer(st.ballots[i], AllAnswers(st.history)[i])
  }

  /** What is recorded of a submission's Other answers is what its entries asked for. */
  predicate EntriesRecorded(st: State, i: nat, q: string)
    requires i < |st.history|
  {
    Count(st.history[i].answers, Other(q))
      == OtherTexts(QuestionsOf(st.questions, st.history[i].surveyId), st.history[i].entries, q)
  }

  // ---- the invariant ----

  ghost predicate SizeCounted(st: State, s: string, q: string) {
    SumOf(HashAt(st.hashes, QuestionKey(s, q))) == HistorySize(Since(st, QuestionKey(s, q)), s, q)
  }

  predicate FieldCounted(st: State, s: string, q: string, f: Field) {
    Get(HashAt(st.hashes, QuestionKey(s, q)), f) == HistoryField(Since(st, QuestionKey(s, q)), s, q, f)
  }

  predicate ResponsesCounted(st: State, s: string) {
    Responses(st, s) == Count(Since(st, ResponsesKey(s)), InSurvey(s))
  }

  ghost predicate CountersHold(st: State) {
    && AllPositive(st.hashes) && LossesPast(st)
    && (forall s, q :: SizeCounted(st, s, q))
    && (forall s, q, f :: FieldCounted(st, s, q, f))
    && (forall s :: ResponsesCounted(st, s))
  }

  ghost predicate ReferencesHold(st: State) {
    && DistinctQuestions(st.questions) && DistinctOptions(st.options)
    && HistoryFits(st) && BallotsAreAnswers(st)
    && (forall i: nat, q: string | i < |st.history| :: EntriesRecorded(st, i, q))
  }

  ghost predicate Invariant(st: State) {
    ReferencesHold(st) && CountersHold(st)
  }

  /** Surveys, questions and options as they were published, before any response. */
  predicate Unanswered(st: State) {
    && DistinctQuestions(st.questions) && DistinctOptions(st.options)
    && st.ballots == [] && st.hashes == map[] && st.responses == map[] && st.results == map[] && st.history == []
    && st.lost == map[]
  }

  lemma UnansweredHolds(st: State)
    requires Unanswered(st)
    ensures Invariant(st)
  {
  }

  // ---- the answers of a submission fit the survey ----

  lemma {:induction false} QuestionsOfOwned(questions: seq<QuestionRow>, s: string)
    ensures forall x | x in QuestionsOf(questions, s) :: Owns(questions, s, x.id)
  {
    if questions != [] {
      QuestionsOfOwned(questions[1..], s);
      forall x | x in QuestionsOf(questions, s) ensures Owns(questions, s, x.id) {
        if x in QuestionsOf(questions[1..], s) {
          var i :| 0 <= i < |questions[1..]| && questions[1..][i].surveyId == s && questions[1..][i].id == x.id;
          assert questions[i + 1].id == x.id;
        } else {
          assert questions[0].id == x.id;
        }
      }
    }
  }

  predicate ItemsOwned(questions: seq<QuestionRow>, s: string, items: seq<Item>) {
    forall i | 0 <= i < |items| :: Owns(questions, s, items[i].questionId)
  }

  lemma {:induction false} ItemsAreOwned(questions: seq<QuestionRow>, s: string, entries: seq<Entry>)
    ensures ItemsOwned(questions, s, Items(QuestionsOf(questions, s), entries))
  {
    if entries != [] {
      ItemsAreOwned(questions, s, entries[1..]);
      QuestionsOfOwned(questions, s);
    }
  }

  predicate DraftFits(known: seq<OptionRow>, questions: seq<QuestionRow>, s: string, d: Draft) {
    && known <= d.options && DistinctOptions(d.options)
    && forall j | 0 <= j < |d.answers| ::
         Owns(questions, s, d.answers[j].questionId)
         && IsOptionOf(d.options, d.answers[j].questionId, d.answers[j].optionId)
  }

  lemma OptionStays(options: seq<OptionRow>, options': seq<OptionRow>, q: string, id: string)
    requires options <= options' && IsOptionOf(options, q, id)
    ensures IsOptionOf(options', q, id)
  {
    var i :| 0 <= i < |options| && options[i].questionId == q && options[i].id == id;
    assert options'[i] == options[i];
  }

  lemma {:induction false} FoundText(options: seq<OptionRow>, q: string, text: string)
    ensures FindText(options, q, text).Some? ==> IsOptionOf(options, q, FindText(options, q, text).value)
  {
    if options == [] {
    } else if options[0].questionId == q && options[0].text == text {
      assert IsOptionOf(options, q, options[0].id);
    } else {
      FoundText(options[1..], q, text);
      var found := FindText(options[1..], q, text);
      if found.Some? {
        var i :| 0 <= i < |options[1..]| && options[1..][i].questionId == q && options[1..][i].id == found.value;
        assert options[i + 1] == options[1..][i];
      }
    }
  }

  lemma ResolveFits(known: seq<OptionRow>, options: seq<OptionRow>, item: Item, id: string)
    requires !item.Begin? && known <= options && DistinctOptions(options)
    ensures var (options', resolved) := Resolve(known, options, item, id);
      && options <= options' && DistinctOptions(options')
      && (resolved.Ok? ==> IsOptionOf(options', item.questionId, resolved.value))
  {
    if item.Value? && IsUuid(item.value) {
      if IsOptionOf(known, item.questionId, item.value) {
        OptionStays(known, options, item.questionId, item.value);
      }
    } else {
      var text := if item.Value? then item.value else item.text;
      FoundText(options, item.questionId, text);
      if FindText(options, item.questionId, text).None? && !IdTaken(options, id) {
        assert (options + [OptionRow(id, item.questionId, text, true)])[|options|].id == id;
      }
    }
  }

  lemma TakeFits(known: seq<OptionRow>, questions: seq<QuestionRow>, s: string, d: Draft, item: Item, mint: nat -> string)
    requires DraftFits(known, questions, s, d) && Owns(questions, s, item.questionId)
    ensures DraftFits(known, questions, s, Take(known, d, item, mint))
  {
    if !item.Begin? {
      var (options, resolved) := Resolve(known, d.options, item, mint(|d.options|));
      ResolveFits(known, d.options, item, mint(|d.options|));
      forall j | 0 <= j < |d.answers| ensures IsOptionOf(options, d.answers[j].questionId, d.answers[j].optionId) {
        OptionStays(d.options, options, d.answers[j].questionId, d.answers[j].optionId);
      }
    }
  }

  lemma {:induction false} TakeAllFits(
      known: seq<OptionRow>, questions: seq<QuestionRow>, s: string, d: Draft, items: seq<Item>, mint: nat -> string)
    requires DraftFits(known, questions, s, d) && ItemsOwned(questions, s, items)
    ensures DraftFits(known, questions, s, TakeAll(known, d, items, mint))
    decreases |items|
  {
    if items != [] && d.refusal.None? {
      TakeFits(known, questions, s, d, items[0], mint);
      TakeAllFits(known, questions, s, Take(known, d, items[0], mint), items[1..], mint);
    }
  }

  lemma BuildFits(st: State, req: Request)
    requires DistinctOptions(st.options)
    ensures DraftFits(st.options, st.questions, req.surveyId, Build(st, req))
  {
    ItemsAreOwned(st.questions, req.surveyId, req.entries);
    TakeAllFits(st.options, st.questions, req.surveyId, EmptyDraft(st.options),
                Items(QuestionsOf(st.questions, req.surveyId), req.entries), req.mint);
  }

  // ---- each step keeps the invariant ----

  lemma MoreOptionsFit(st: State, st': State)
    requires ReferencesHold(st) && st.options <= st'.options && DistinctOptions(st'.options)
    requires st'.questions == st.questions && st'.ballots == st.ballots && st'.history == st.history
    ensures ReferencesHold(st')
  {
    forall i | 0 <= i < |st.history| ensures AnswersFit(st', st.history[i].surveyId, st.history[i].answers) {
      var e := st.history[i];
      assert AnswersFit(st, e.surveyId, e.answers);
      forall j | 0 <= j < |e.answers| ensures AnswerFits(st', e.surveyId, e.answers[j]) {
        assert AnswerFits(st, e.surveyId, e.answers[j]);
        OptionStays(st.options, st'.options, e.answers[j].questionId, e.answers[j].optionId);
      }
    }
    forall i: nat, q: string | i < |st'.history| ensures EntriesRecorded(st', i, q) {
      assert EntriesRecorded(st, i, q);
    }
  }

  lemma CommitHistoryFits(st: State, req: Request)
    requires ReferencesHold(st)
    ensures HistoryFits(Commit(st, req, Build(st, req)))
  {
    var d := Build(st, req);
    var created, st' := st.(options := d.options), Commit(st, req, d);
    BuildFits(st, req);
    MoreOptionsFit(st, created);
    forall i | 0 <= i < |st'.history| ensures AnswersFit(st', st'.history[i].surveyId, st'.history[i].answers) {
      var e := st'.history[i];
      assert i < |st.history| ==> e == created.history[i] && AnswersFit(created, e.surveyId, e.answers);
      forall j | 0 <= j < |e.answers| ensures AnswerFits(st', e.surveyId, e.answers[j]) {
        assert i < |st.history| ==> AnswerFits(created, e.surveyId, e.answers[j]);
      }
    }
  }

  lemma CommitBallots(st: State, req: Request)
    requires BallotsAreAnswers(st)
    ensures BallotsAreAnswers(Commit(st, req, Build(st, req)))
  {
    var st', answers := Commit(st, req, Build(st, req)), StoredAnswers(req, Build(st, req));
    assert st'.history[..|st'.history| - 1] == st.history;
    assert AllAnswers(st'.history) == AllAnswers(st.history) + answers;
    forall i | 0 <= i < |st'.ballots| ensures SameAnswer(st'.ballots[i], AllAnswers(st'.history)[i]) {
      if i < |st.ballots| {
        assert SameAnswer(st.ballots[i], AllAnswers(st.history)[i]);
      }
    }
  }

  lemma CommitReferences(st: State, req: Request)
    requires ReferencesHold(st) && Build(st, req).refusal.None?
    ensures ReferencesHold(Commit(st, req, Build(st, req)))
  {
    var st' := Commit(st, req, Build(st, req));
    BuildFits(st, req);
    CommitHistoryFits(st, req);
    CommitBallots(st, req);
    forall i: nat, q: string | i < |st'.history| ensures EntriesRecorded(st', i, q) {
      if i < |st.history| {
        assert EntriesRecorded(st, i, q);
      } else {
        RecordedOthers(st, req, q);
      }
    }
  }

  lemma SinceGrows(st: State, st': State, key: Key, entry: Accepted)
    requires LossesPast(st) && st'.lost == st.lost && st'.history == st.history + [entry]
    ensures Since(st', key) == Since(st, key) + [entry]
  {
  }

  lemma HistoryGrows(history: seq<Accepted>, entry: Accepted, s: string, q: string, f: Field)
    ensures HistorySize(history + [entry], s, q)
         == HistorySize(history, s, q) + (if s == entry.surveyId then AnswerSize(entry.answers, q) else 0)
    ensures HistoryField(history + [entry], s, q, f)
         == HistoryField(history, s, q, f) + (if s == entry.surveyId then AnswerField(entry.answers, q, f) else 0)
  {
    assert (history + [entry])[..|history|] == history;
  }

  /** Counters that grow by what one more submission answers keep counting the submissions. */
  lemma CountsFollow(st: State, st': State, entry: Accepted, s: string, q: string, f: Field)
    requires LossesPast(st) && SizeCounted(st, s, q) && FieldCounted(st, s, q, f)
    requires st'.lost == st.lost && st'.history == st.history + [entry]
    requires var h, h' := HashAt(st.hashes, QuestionKey(s, q)), HashAt(st'.hashes, QuestionKey(s, q));
      && Get(h', f) == Get(h, f) + (if s == entry.surveyId then AnswerField(entry.answers, q, f) else 0)
      && SumOf(h') == SumOf(h) + (if s == entry.surveyId then AnswerSize(entry.answers, q) else 0)
    ensures SizeCounted(st', s, q) && FieldCounted(st', s, q, f)
  {
    SinceGrows(st, st', QuestionKey(s, q), entry);
    HistoryGrows(Since(st, QuestionKey(s, q)), entry, s, q, f);
  }

  lemma CommitField(st: State, req: Request, s: string, q: string, f: Field)
    requires LossesPast(st) && SizeCounted(st, s, q) && FieldCounted(st, s, q, f)
    ensures var st' := Commit(st, req, Build(st, req));
      SizeCounted(st', s, q) && FieldCounted(st', s, q, f)
  {
    CommitCounts(st, req, s, q, f);
    CountsFollow(st, Commit(st, req, Build(st, req)), AcceptedNow(req, Build(st, req)), s, q, f);
  }

  lemma CommitResponses(st: State, req: Request, s: string)
    requires LossesPast(st) && ResponsesCounted(st, s)
    ensures ResponsesCounted(Commit(st, req, Build(st, req)), s)
  {
    var entry := AcceptedNow(req, Build(st, req));
    SinceGrows(st, Commit(st, req, Build(st, req)), ResponsesKey(s), entry);
    CountOne(Since(st, ResponsesKey(s)), entry, InSurvey(s));
  }

  lemma CommitKeeps(st: State, req: Request)
    requires Invariant(st) && Build(st, req).refusal.None?
    ensures Invariant(Commit(st, req, Build(st, req)))
  {
    var st' := Commit(st, req, Build(st, req));
    CommitReferences(st, req);
    CommitCounts(st, req, "", "", OtherCount);
    forall s, q, f ensures SizeCounted(st', s, q) && FieldCounted(st', s, q, f) {
      assert SizeCounted(st, s, q) && FieldCounted(st, s, q, f);
      CommitField(st, req, s, q, f);
    }
    forall s, q ensures SizeCounted(st', s, q) {
      assert FieldCounted(st', s, q, OtherCount);
    }
    forall s ensures ResponsesCounted(st', s) {
      assert ResponsesCounted(st, s);
      CommitResponses(st, req, s);
    }
  }

  lemma CountersStay(st: State, st': State)
    requires CountersHold(st)
    requires st'.hashes == st.hashes && st'.history == st.history && st'.responses == st.responses
    requires st'.lost == st.lost
    ensures CountersHold(st')
  {
    forall s, q ensures SizeCounted(st', s, q) {
      assert SizeCounted(st, s, q);
    }
    forall s, q, f ensures FieldCounted(st', s, q, f) {
      assert FieldCounted(st, s, q, f);
    }
    forall s ensures ResponsesCounted(st', s) {
      assert ResponsesCounted(st, s);
    }
  }

  lemma ConcludeCases(st: State, req: Request, d: Draft)
    ensures var (st', outcome) := Conclude(st, req, d);
      if outcome == Ok(false) then st' == Commit(st, req, d) && d.refusal.None? else st' == st.(options := d.options)
  {
  }

  /** A submission is refused outright, keeps the options it created, or commits. */
  lemma SubmitCases(st: State, req: Request, now: int)
    ensures var (st', outcome) := Submit(st, req, now);
      && (CheckSubmission(st, req, now).Some? ==> st' == st && outcome.Err?)
      && (CheckSubmission(st, req, now).None? ==>
            if outcome == Ok(false) then st' == Commit(st, req, Build(st, req)) && Build(st, req).refusal.None?
            else st' == st.(options := Build(st, req).options))
  {
    ConcludeCases(st, req, Build(st, req));
  }

  lemma SubmitKeeps(st: State, req: Request, now: int)
    requires Invariant(st)
    ensures Invariant(Submit(st, req, now).0)
  {
    SubmitCases(st, req, now);
    if CheckSubmission(st, req, now).None? {
      BuildFits(st, req);
      var created := st.(options := Build(st, req).options);
      MoreOptionsFit(st, created);
      CountersStay(st, created);
      if Build(st, req).refusal.None? {
        CommitKeeps(st, req);
      }
    }
  }

  /** The invariant is about these tables and records only. */
  lemma QuietKeeps(st: State, st': State)
    requires Invariant(st)
    requires st'.questions == st.questions && st'.options == st.options && st'.ballots == st.ballots
    requires st'.hashes == st.hashes && st'.responses == st.responses
    requires st'.history == st.history && st'.lost == st.lost
    ensures Invariant(st')
  {
    MoreOptionsFit(st, st');
    CountersStay(st, st');
  }

  lemma IssueKeeps(st: State, tokenHash: string, issued: Pending, s: string)
    requires Invariant(st)
    ensures Invariant(Issue(st, tokenHash, issued, s))
  {
    QuietKeeps(st, Issue(st, tokenHash, issued, s));
  }

  lemma FinalizeKeeps(st: State, s: string, secure: bool, now: int)
    requires Invariant(st)
    ensures Invariant(Finalize(st, s, secure, now).0)
  {
    FinalizeFrame(st, s, secure, now);
    QuietKeeps(st, Finalize(st, s, secure, now).0);
  }

  lemma FinalizeFrame(st: State, s: string, secure: bool, now: int)
    ensures var st' := Finalize(st, s, secure, now).0;
      st' == st.(surveys := st'.surveys, results := st'.results)
  {
  }

  /** A lost key counts nothing, and nothing has happened since; the other keys are as they were. */
  lemma LoseKeeps(st: State, key: Key)
    requires Invariant(st)
    ensures Invariant(Lose(st, key))
  {
    MoreOptionsFit(st, Lose(st, key));
    LoseCounters(st, key);
  }

  lemma LoseCounters(st: State, key: Key)
    requires CountersHold(st)
    ensures CountersHold(Lose(st, key))
  {
    var st' := Lose(st, key);
    forall s, q ensures SizeCounted(st', s, q) {
      assert SizeCounted(st, s, q);
      LoseQuestion(st, key, s, q);
    }
    forall s, q, f ensures FieldCounted(st', s, q, f) {
      assert FieldCounted(st, s, q, f);
      LoseQuestion(st, key, s, q);
    }
    forall s ensures ResponsesCounted(st', s) {
      assert ResponsesCounted(st, s);
      LoseResponses(st, key, s);
    }
  }

  lemma LoseQuestion(st: State, key: Key, s: string, q: string)
    ensures var st', k := Lose(st, key), QuestionKey(s, q);
      if key == k then HashAt(st'.hashes, k) == map[] && Since(st', k) == []
      else HashAt(st'.hashes, k) == HashAt(st.hashes, k) && Since(st', k) == Since(st, k)
  {
  }

  lemma LoseResponses(st: State, key: Key, s: string)
    ensures var st', k := Lose(st, key), ResponsesKey(s);
      if key == k then Responses(st', s) == 0 && Since(st', k) == []
      else Responses(st', s) == Responses(st, s) && Since(st', k) == Since(st, k)
  {
  }

  lemma StepKeeps(st: State, step: Step)
    requires Invariant(st)
    ensures Invariant(Apply(st, step))
  {
    match step
    case Issuing(tokenHash, issued, s) => IssueKeeps(st, tokenHash, issued, s);
    case VoteSpending(tokenHash) => QuietKeeps(st, VoteSpend(st, tokenHash));
    case Submitting(req, now) => SubmitKeeps(st, req, now);
    case Finalizing(s, secure, now) => FinalizeKeeps(st, s, secure, now);
    case Losing(key) => LoseKeeps(st, key);
  }

  lemma {:induction false} RunKeeps(st: State, steps: seq<Step>)
    requires Invariant(st)
    ensures Invariant(Run(st, steps))
    decreases |steps|
  {
    if steps != [] {
      StepKeeps(st, steps[0]);
      RunKeeps(Apply(st, steps[0]), steps[1..]);
    }
  }

  // ---- counters against ballots ----

  function Of(q: string): Answer -> bool {
    (a: Answer) => a.questionId == q
  }

  function With(id: string): Answer -> bool {
    (a: Answer) => a.optionId == id
  }

  lemma {:induction false} AnswersSplit(answers: seq<Answer>, q: string)
    ensures Count(answers, Of(q)) == Count(answers, Plain(q)) + Count(answers, Other(q))
    ensures Count(answers, Of(q)) == AnswerSize(answers, q) + Repeats(answers, q)
  {
    if answers != [] {
      AnswersSplit(answers[..|answers| - 1], q);
    }
  }

  lemma {:induction false} BallotsCountAsAnswers(ballots: seq<Ballot>, answers: seq<Answer>, q: string, id: string)
    requires |ballots| == |answers| && forall i | 0 <= i < |ballots| :: SameAnswer(ballots[i], answers[i])
    ensures Count(ballots, OfQuestion(q)) == Count(answers, Of(q))
    ensures Count(ballots, ForOption(id)) == Count(answers, With(id))
  {
    if ballots != [] {
      var last := |ballots| - 1;
      assert SameAnswer(ballots[last], answers[last]);
      BallotsCountAsAnswers(ballots[..last], answers[..last], q, id);
    }
  }

  lemma ForeignAnswers(st: State, s: string, q: string, i: nat)
    requires ReferencesHold(st) && Owns(st.questions, s, q) && i < |st.history| && st.history[i].surveyId != s
    ensures Count(st.history[i].answers, Of(q)) == 0
  {
    var e := st.history[i];
    assert AnswersFit(st, e.surveyId, e.answers);
    forall j | 0 <= j < |e.answers| ensures !Of(q)(e.answers[j]) {
      assert AnswerFits(st, e.surveyId, e.answers[j]);
    }
    CountNone(e.answers, Of(q));
  }

  lemma {:induction false} HistoryAddsUp(history: seq<Accepted>, s: string, q: string)
    requires forall i | 0 <= i < |history| && history[i].surveyId != s :: Count(history[i].answers, Of(q)) == 0
    ensures Count(AllAnswers(history), Of(q)) == HistorySize(history, s, q) + Surplus(history, s, q)
  {
    if history != [] {
      var front, last := history[..|history| - 1], history[|history| - 1];
      HistoryAddsUp(front, s, q);
      CountConcat(AllAnswers(front), last.answers, Of(q));
      AnswersSplit(last.answers, q);
    }
  }

  lemma {:induction false} AllAnswersConcat(a: seq<Accepted>, b: seq<Accepted>)
    ensures AllAnswers(a + b) == AllAnswers(a) + AllAnswers(b)
    decreases |b|
  {
    if b == [] {
      assert a + b == a;
    } else {
      var front := b[..|b| - 1];
      AllAnswersConcat(a, front);
      assert (a + b)[..|a + b| - 1] == a + front;
    }
  }

  /** The ballots of the question stored before its counters were last lost. */
  function ForgottenBallots(st: State, s: string, q: string): nat {
    Count(AllAnswers(Forgotten(st, QuestionKey(s, q))), Of(q))
  }

  function SurplusSince(st: State, s: string, q: string): nat {
    Surplus(Since(st, QuestionKey(s, q)), s, q)
  }

  lemma SinceAddsUp(st: State, s: string, q: string)
    requires ReferencesHold(st) && Owns(st.questions, s, q)
    ensures var since := Since(st, QuestionKey(s, q));
      Count(AllAnswers(since), Of(q)) == HistorySize(since, s, q) + Surplus(since, s, q)
  {
    var past, since := Forgotten(st, QuestionKey(s, q)), Since(st, QuestionKey(s, q));
    forall i | 0 <= i < |since| && since[i].surveyId != s ensures Count(since[i].answers, Of(q)) == 0 {
      assert since[i] == (past + since)[|past| + i];
      ForeignAnswers(st, s, q, |past| + i);
    }
    HistoryAddsUp(since, s, q);
  }

  /**
   * For every question of a survey: its counters, plus the Other texts they do not see, plus the
   * ballots they have forgotten, are its ballots.
   */
  lemma CountersAgainstBallots(st: State, s: string, q: string)
    requires Invariant(st) && Owns(st.questions, s, q)
    ensures SumOf(HashAt(st.hashes, QuestionKey(s, q))) + SurplusSince(st, s, q) + ForgottenBallots(st, s, q)
         == Count(st.ballots, OfQuestion(q))
  {
    var key := QuestionKey(s, q);
    var past, since := Forgotten(st, key), Since(st, key);
    assert SizeCounted(st, s, q);
    SinceAddsUp(st, s, q);
    AllAnswersConcat(past, since);
    CountConcat(AllAnswers(past), AllAnswers(since), Of(q));
    BallotsCountAsAnswers(st.ballots, AllAnswers(st.history), q, "");
  }

  lemma {:induction false} SurplusIsZeroIff(history: seq<Accepted>, s: string, q: string)
    ensures Surplus(history, s, q) == 0 <==>
              forall i | 0 <= i < |history| && history[i].surveyId == s :: Count(history[i].answers, Other(q)) <= 1
  {
    if history != [] {
      SurplusIsZeroIff(history[..|history| - 1], s, q);
    }
  }

  lemma {:induction false} FieldIsBounded(history: seq<Accepted>, s: string, q: string, id: string)
    ensures HistoryField(history, s, q, OptionField(id)) <= Count(AllAnswers(history), With(id))
  {
    if history != [] {
      var front, last := history[..|history| - 1], history[|history| - 1];
      FieldIsBounded(front, s, q, id);
      CountConcat(AllAnswers(front), last.answers, With(id));
      CountImplies(last.answers, PlainOption(q, id), With(id));
    }
  }

  /** Every accepted submission to s since q's counters were last lost gave q at most one Other text. */
  predicate NoRepeats(st: State, s: string, q: string) {
    var since := Since(st, QuestionKey(s, q));
    forall i | 0 <= i < |since| && since[i].surveyId == s ::
      OtherTexts(QuestionsOf(st.questions, s), since[i].entries, q) <= 1
  }

  lemma SurplusIffRepeats(st: State, s: string, q: string)
    requires ReferencesHold(st)
    ensures SurplusSince(st, s, q) == 0 <==> NoRepeats(st, s, q)
  {
    var since := Since(st, QuestionKey(s, q));
    SurplusIsZeroIff(since, s, q);
    forall i | 0 <= i < |since| && since[i].surveyId == s
      ensures Count(since[i].answers, Other(q)) == OtherTexts(QuestionsOf(st.questions, s), since[i].entries, q)
    {
      SinceRecorded(st, QuestionKey(s, q), i, q);
    }
  }

  lemma SinceRecorded(st: State, key: Key, i: nat, q: string)
    requires ReferencesHold(st) && i < |Since(st, key)|
    ensures var e := Since(st, key)[i];
      Count(e.answers, Other(q)) == OtherTexts(QuestionsOf(st.questions, e.surveyId), e.entries, q)
  {
    var n := |Forgotten(st, key)| + i;
    assert Since(st, key)[i] == (Forgotten(st, key) + Since(st, key))[n];
    assert EntriesRecorded(st, n, q);
  }

  /**
   * Over every run from unanswered surveys, with Redis losing keys at will: the counters of a
   * question are its stored ballots less the forgotten ones and the repeated Other texts. They
   * agree exactly when no ballot was stored before the key was last lost and every submission
   * accepted since has at most one entry with an Other text for the question. An option's counter
   * never exceeds its stored ballots, and the response counter counts the submissions since it was
   * last lost.
   */
  lemma CountersAgreeIff(st: State, steps: seq<Step>, s: string, q: string, id: string)
    requires Unanswered(st) && Owns(Run(st, steps).questions, s, q)
    ensures var st' := Run(st, steps);
      var hash, stored := HashAt(st'.hashes, QuestionKey(s, q)), Count(st'.ballots, OfQuestion(q));
      && SumOf(hash) + SurplusSince(st', s, q) + ForgottenBallots(st', s, q) == stored
      && (SumOf(hash) == stored <==> ForgottenBallots(st', s, q) == 0 && NoRepeats(st', s, q))
      && Get(hash, OptionField(id)) <= Count(st'.ballots, ForOption(id))
      && Responses(st', s) == Count(Since(st', ResponsesKey(s)), InSurvey(s))
  {
    var st' := Run(st, steps);
    UnansweredHolds(st);
    RunKeeps(st, steps);
    CountersAgainstBallots(st', s, q);
    SurplusIffRepeats(st', s, q);
    OptionIsBounded(st', s, q, id);
    assert ResponsesCounted(st', s);
  }

  lemma OptionIsBounded(st: State, s: string, q: string, id: string)
    requires Invariant(st)
    ensures Get(HashAt(st.hashes, QuestionKey(s, q)), OptionField(id)) <= Count(st.ballots, ForOption(id))
  {
    var past, since := Forgotten(st, QuestionKey(s, q)), Since(st, QuestionKey(s, q));
    assert FieldCounted(st, s, q, OptionField(id));
    FieldIsBounded(since, s, q, id);
    AllAnswersConcat(past, since);
    CountConcat(AllAnswers(past), AllAnswers(since), With(id));
    BallotsCountAsAnswers(st.ballots, AllAnswers(st.history), q, id);
  }
}
