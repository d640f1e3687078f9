/**
 * What survey results show against the stored ballots: exactly when the two agree, for results read
 * from the counters and for results read from the ballots when the counters are gone.
 */
module SurveyResults {
  import opened Base
  import opened Counting
  import opened FiniteSets
  import opened SurveyStore
  import opened SurveyCounters
  import opened SurveyEntries
  import opened SurveyGuarantees

  // ---- one entry per question, and no lost key ----

  predicate Steady(st: State) {
    st.lost == map[] && forall i | 0 <= i < |st.history| :: OneEntryEach(st.history[i].entries)
  }

  predicate IsSteady(step: Step) {
    !step.Losing? && (step.Submitting? ==> OneEntryEach(step.req.entries))
  }

  lemma SubmitHistory(st: State, req: Request, now: int)
    ensures var st' := Submit(st, req, now).0;
      st'.lost == st.lost
      && (st'.history == st.history || st'.history == st.history + [AcceptedNow(req, Build(st, req))])
  {
    SubmitCases(st, req, now);
  }

  lemma StepKeepsSteady(st: State, step: Step)
    requires Steady(st) && IsSteady(step)
    ensures Steady(Apply(st, step))
  {
    if step.Submitting? {
      SubmitHistory(st, step.req, step.now);
    }
  }

  lemma {:induction false} RunKeepsSteady(st: State, steps: seq<Step>)
    requires Steady(st) && forall i | 0 <= i < |steps| :: IsSteady(steps[i])
    ensures Steady(Run(st, steps))
    decreases |steps|
  {
    if steps != [] {
      StepKeepsSteady(st, steps[0]);
      RunKeepsSteady(Apply(st, steps[0]), steps[1..]);
    }
  }

  lemma SteadyHasNoRepeats(st: State, s: string, q: string)
    requires Steady(st)
    ensures NoRepeats(st, s, q) && ForgottenBallots(st, s, q) == 0
  {
    var since := Since(st, QuestionKey(s, q));
    forall i | 0 <= i < |since| && since[i].surveyId == s
      ensures OtherTexts(QuestionsOf(st.questions, s), since[i].entries, q) <= 1
    {
      OneEntryOneOther(QuestionsOf(st.questions, s), since[i].entries, q);
    }
  }

  /** With Redis intact and no submission answering a question twice, the counters are the ballots. */
  lemma SingleEntriesAgree(st: State, steps: seq<Step>, s: string, q: string)
    requires Unanswered(st) && Owns(Run(st, steps).questions, s, q)
    requires forall i | 0 <= i < |steps| :: IsSteady(steps[i])
    ensures SumOf(HashAt(Run(st, steps).hashes, QuestionKey(s, q))) == Count(Run(st, steps).ballots, OfQuestion(q))
  {
    CountersAgreeIff(st, steps, s, q, "");
    RunKeepsSteady(st, steps);
    SteadyHasNoRepeats(Run(st, steps), s, q);
  }

  // ---- what practice, refusal and abstention leave alone ----

  /**
   * A refused or practice submission leaves ballots, counters, responses and tokens alone; an
   * abstention stores no ballot and touches no counter of any question.
   */
  lemma QuietSubmissions(st: State, req: Request, now: int, s: string, q: string)
    ensures var (st', outcome) := Submit(st, req, now);
      && (outcome != Ok(false) ==> st' == st.(options := st'.options))
      && (outcome == Ok(false) && req.isAbstention ==>
            && st'.ballots == st.ballots
            && HashAt(st'.hashes, QuestionKey(s, q)) == HashAt(st.hashes, QuestionKey(s, q))
            && Get(HashAt(st'.hashes, GlobalKey(req.surveyId)), AbstentionCount)
                 == Get(HashAt(st.hashes, GlobalKey(req.surveyId)), AbstentionCount) + 1)
      && (outcome == Ok(false) ==> Responses(st', req.surveyId) == Responses(st, req.surveyId) + 1)
  {
    var (st', outcome) := Submit(st, req, now);
    SubmitCases(st, req, now);
    if outcome == Ok(false) && req.isAbstention {
      assert NewBallots(req, Build(st, req)) == [];
    }
  }

  // ---- results ----

  function SumSeq(counts: seq<nat>): nat {
    if counts == [] then 0 else counts[0] + SumSeq(counts[1..])
  }

  function Shown(r: QuestionResult): nat {
    SumSeq(r.counts) + (if r.otherCount.Some? then r.otherCount.value else 0)
  }

  predicate HasId(rows: seq<OptionRow>, id: string) {
    exists i | 0 <= i < |rows| :: rows[i].id == id
  }

  predicate FieldsListed(rows: seq<OptionRow>, hash: Hash) {
    forall f | f in hash :: f == OtherCount || (f.OptionField? && HasId(rows, f.optionId))
  }

  lemma CachedWithout(rows: seq<OptionRow>, hash: Hash, id: string)
    requires !HasId(rows, id)
    ensures CachedCounts(rows, hash) == CachedCounts(rows, hash - {OptionField(id)})
  {
  }

  /** Listing every option once shows every field of the hash once. */
  lemma {:induction false} CachedAddsUp(rows: seq<OptionRow>, hash: Hash)
    requires DistinctOptions(rows) && FieldsListed(rows, hash)
    ensures SumSeq(CachedCounts(rows, hash)) + Get(hash, OtherCount) == SumOf(hash)
    decreases |rows|
  {
    if rows == [] {
      assert hash - {OtherCount} == map[];
      if OtherCount in hash {
        SumRemove(hash, OtherCount);
      } else {
        assert hash == map[];
      }
    } else {
      var f, rest := OptionField(rows[0].id), rows[1..];
      var hash' := hash - {f};
      forall g | g in hash' ensures g == OtherCount || (g.OptionField? && HasId(rest, g.optionId)) {
        if g != OtherCount {
          var i :| 0 <= i < |rows| && rows[i].id == g.optionId;
          assert rest[i - 1].id == g.optionId;
        }
      }
      CachedAddsUp(rest, hash');
      assert !HasId(rest, rows[0].id);
      CachedWithout(rest, hash, rows[0].id);
      assert CachedCounts(rows, hash)[1..] == CachedCounts(rest, hash);
      if f in hash {
        SumRemove(hash, f);
      } else {
        assert hash' == hash;
      }
    }
  }

  lemma {:induction false} OptionsOfMembers(options: seq<OptionRow>, q: string)
    ensures forall x | x in OptionsOf(options, q) :: x in options && x.questionId == q
    ensures forall x | x in options && x.questionId == q :: x in OptionsOf(options, q)
    ensures DistinctOptions(options) ==> DistinctOptions(OptionsOf(options, q))
  {
    if options != [] {
      OptionsOfMembers(options[1..], q);
      var rest := OptionsOf(options[1..], q);
      assert OptionsOf(options, q) == (if options[0].questionId == q then [options[0]] else []) + rest;
      if DistinctOptions(options) {
        forall i | 0 <= i < |rest| ensures rest[i].id != options[0].id {
          assert rest[i] in options[1..];
        }
      }
    }
  }

  lemma {:induction false} CountedWasAnswered(history: seq<Accepted>, s: string, q: string, id: string)
    requires HistoryField(history, s, q, OptionField(id)) > 0
    ensures exists i | 0 <= i < |history| :: Count(history[i].answers, PlainOption(q, id)) > 0
  {
    var last := |history| - 1;
    if Count(history[last].answers, PlainOption(q, id)) == 0 {
      CountedWasAnswered(history[..last], s, q, id);
      var i :| 0 <= i < |history[..last]| && Count(history[..last][i].answers, PlainOption(q, id)) > 0;
      assert Count(history[i].answers, PlainOption(q, id)) > 0;
    }
  }

  lemma {:induction false} Counted<T>(s: seq<T>, p: T -> bool) returns (i: nat)
    requires Count(s, p) > 0
    ensures i < |s| && p(s[i])
  {
    i := |s| - 1;
    if !p(s[i]) {
      i := Counted(s[..|s| - 1], p);
    }
  }

  lemma {:induction false} NoAbstentions(history: seq<Accepted>, s: string, q: string)
    ensures HistoryField(history, s, q, AbstentionCount) == 0
  {
    if history != [] {
      NoAbstentions(history[..|history| - 1], s, q);
    }
  }

  /** Every counter of a question is its Other count or names one of its options. */
  lemma FieldsAreListed(st: State, s: string, q: string)
    requires Invariant(st)
    ensures FieldsListed(OptionsOf(st.options, q), HashAt(st.hashes, QuestionKey(s, q)))
  {
    var rows, hash := OptionsOf(st.options, q), HashAt(st.hashes, QuestionKey(s, q));
    var past, since := Forgotten(st, QuestionKey(s, q)), Since(st, QuestionKey(s, q));
    assert Positive(hash);
    forall f | f in hash ensures f == OtherCount || (f.OptionField? && HasId(rows, f.optionId)) {
      assert FieldCounted(st, s, q, f);
      NoAbstentions(since, s, q);
      if f.OptionField? {
        CountedWasAnswered(since, s, q, f.optionId);
        var i :| 0 <= i < |since| && Count(since[i].answers, PlainOption(q, f.optionId)) > 0;
        assert since[i] == (past + since)[|past| + i];
        AnsweredIsListed(st, q, f.optionId, |past| + i);
      }
    }
  }

  lemma AnsweredIsListed(st: State, q: string, id: string, i: nat)
    requires ReferencesHold(st) && i < |st.history| && Count(st.history[i].answers, PlainOption(q, id)) > 0
    ensures HasId(OptionsOf(st.options, q), id)
  {
    var e := st.history[i];
    var j := Counted(e.answers, PlainOption(q, id));
    OptionsOfMembers(st.options, q);
    assert AnswersFit(st, e.surveyId, e.answers);
    assert AnswerFits(st, e.surveyId, e.answers[j]);
    var k :| 0 <= k < |st.options| && st.options[k].questionId == q && st.options[k].id == id;
    assert st.options[k] in OptionsOf(st.options, q);
  }

  // ---- the fallback ----

  lemma {:induction false} AnswersFitAll(st: State, history: seq<Accepted>)
    requires forall i | 0 <= i < |history| :: AnswersFit(st, history[i].surveyId, history[i].answers)
    ensures forall k | 0 <= k < |AllAnswers(history)| ::
              IsOptionOf(st.options, AllAnswers(history)[k].questionId, AllAnswers(history)[k].optionId)
  {
    if history != [] {
      var last := |history| - 1;
      AnswersFitAll(st, history[..last]);
      assert AnswersFit(st, history[last].surveyId, history[last].answers);
      forall j | 0 <= j < |history[last].answers|
        ensures IsOptionOf(st.options, history[last].answers[j].questionId, history[last].answers[j].optionId)
      {
        assert AnswerFits(st, history[last].surveyId, history[last].answers[j]);
      }
    }
  }

  /** A ballot names a listed option exactly when it is for the question. */
  predicate ListedBy(rows: seq<OptionRow>, q: string, b: Ballot) {
    b.questionId == q <==> HasId(rows, b.optionId)
  }

  lemma BallotsAreListed(st: State, q: string, k: nat)
    requires ReferencesHold(st) && k < |st.ballots|
    ensures ListedBy(OptionsOf(st.options, q), q, st.ballots[k])
  {
    var rows, b, a := OptionsOf(st.options, q), st.ballots[k], AllAnswers(st.history)[k];
    AnswersFitAll(st, st.history);
    OptionsOfMembers(st.options, q);
    assert SameAnswer(b, a);
    var m :| 0 <= m < |st.options| && st.options[m].questionId == a.questionId && st.options[m].id == a.optionId;
    assert b.questionId == q ==> st.options[m] in rows;
    if HasId(rows, b.optionId) {
      var i :| 0 <= i < |rows| && rows[i].id == b.optionId;
      assert rows[i] in st.options;
    }
  }

  lemma {:induction false} CountsAfterBallot(rows: seq<OptionRow>, ballots: seq<Ballot>, b: Ballot)
    requires DistinctOptions(rows)
    ensures SumSeq(BallotCounts(rows, ballots + [b]))
         == SumSeq(BallotCounts(rows, ballots)) + (if HasId(rows, b.optionId) then 1 else 0)
  {
    if rows != [] {
      var first, rest := rows[0], rows[1..];
      CountsAfterBallot(rest, ballots, b);
      CountOne(ballots, b, ForOption(first.id));
      CountsFirst(rows, ballots);
      CountsFirst(rows, ballots + [b]);
      HasIdFirst(rows, b.optionId);
      assert first.id == b.optionId ==> !HasId(rest, b.optionId);
    }
  }

  lemma CountsFirst(rows: seq<OptionRow>, ballots: seq<Ballot>)
    requires rows != []
    ensures SumSeq(BallotCounts(rows, ballots))
         == Count(ballots, ForOption(rows[0].id)) + SumSeq(BallotCounts(rows[1..], ballots))
  {
    assert BallotCounts(rows, ballots)[1..] == BallotCounts(rows[1..], ballots);
  }

  lemma HasIdFirst(rows: seq<OptionRow>, id: string)
    requires rows != []
    ensures HasId(rows, id) <==> rows[0].id == id || HasId(rows[1..], id)
  {
    if HasId(rows, id) && rows[0].id != id {
      var i :| 0 <= i < |rows| && rows[i].id == id;
      assert rows[1..][i - 1].id == id;
    }
    if HasId(rows[1..], id) {
      var i :| 0 <= i < |rows[1..]| && rows[1..][i].id == id;
      assert rows[i + 1].id == id;
    }
  }

  lemma {:induction false} NoBallotsNoCounts(rows: seq<OptionRow>)
    ensures SumSeq(BallotCounts(rows, [])) == 0
  {
    if rows != [] {
      NoBallotsNoCounts(rows[1..]);
      CountsFirst(rows, []);
    }
  }

  /** Counting the ballots option by option counts each ballot of the question once. */
  lemma {:induction false} OptionCountsAddUp(rows: seq<OptionRow>, q: string, ballots: seq<Ballot>)
    requires DistinctOptions(rows) && forall k | 0 <= k < |ballots| :: ListedBy(rows, q, ballots[k])
    ensures SumSeq(BallotCounts(rows, ballots)) == Count(ballots, OfQuestion(q))
    decreases |ballots|
  {
    if ballots == [] {
      NoBallotsNoCounts(rows);
    } else {
      var front, b := ballots[..|ballots| - 1], ballots[|ballots| - 1];
      assert ballots == front + [b];
      OptionCountsAddUp(rows, q, front);
      CountsAfterBallot(rows, front, b);
      assert ListedBy(rows, q, b);
    }
  }

  /** Results are read from the stored ballots when the hash is gone but there are responses. */
  predicate FallsBack(st: State, s: string, q: QuestionRow, total: nat) {
    HashAt(st.hashes, QuestionKey(s, q.id)) == map[] && total > 0
  }

  predicate AllowsOther(q: QuestionRow) {
    q.choiceConfig.Some? && q.choiceConfig.value.allowOther
  }

  function DynamicBallots(st: State, q: QuestionRow): nat {
    Count(st.ballots, DynamicBallot(st.options, q.id))
  }

  /** The fallback counts each ballot under its option, and the dynamic ones again under Other. */
  lemma FallbackShows(st: State, s: string, q: QuestionRow, total: nat)
    requires ReferencesHold(st) && FallsBack(st, s, q, total)
    ensures Shown(LiveQuestion(st, s, q, total))
         == Count(st.ballots, OfQuestion(q.id)) + (if AllowsOther(q) then DynamicBallots(st, q) else 0)
  {
    var rows := OptionsOf(st.options, q.id);
    OptionsOfMembers(st.options, q.id);
    forall k | 0 <= k < |st.ballots| ensures ListedBy(rows, q.id, st.ballots[k]) {
      BallotsAreListed(st, q.id, k);
    }
    OptionCountsAddUp(rows, q.id, st.ballots);
  }

  lemma CacheShows(st: State, s: string, q: QuestionRow, total: nat)
    requires Invariant(st) && Owns(st.questions, s, q.id) && !FallsBack(st, s, q, total)
    ensures Shown(LiveQuestion(st, s, q, total)) + SurplusSince(st, s, q.id) + ForgottenBallots(st, s, q.id)
         == Count(st.ballots, OfQuestion(q.id))
  {
    CountersAgainstBallots(st, s, q.id);
    OptionsOfMembers(st.options, q.id);
    FieldsAreListed(st, s, q.id);
    CachedAddsUp(OptionsOf(st.options, q.id), HashAt(st.hashes, QuestionKey(s, q.id)));
  }

  /**
   * What is shown for a question is its stored ballots exactly when, read from the ballots, Other
   * is off or no ballot names a dynamic option; or, read from the counters, no ballot precedes
   * their last loss and no submission since repeats an Other text.
   */
  lemma ShownIsStoredIff(st: State, s: string, q: QuestionRow, total: nat)
    requires Invariant(st) && Owns(st.questions, s, q.id)
    ensures Shown(LiveQuestion(st, s, q, total)) == Count(st.ballots, OfQuestion(q.id)) <==>
              if FallsBack(st, s, q, total) then !AllowsOther(q) || DynamicBallots(st, q) == 0
              else ForgottenBallots(st, s, q.id) == 0 && NoRepeats(st, s, q.id)
  {
    SurplusIffRepeats(st, s, q.id);
    if FallsBack(st, s, q, total) {
      FallbackShows(st, s, q, total);
    } else {
      CacheShows(st, s, q, total);
    }
  }

  lemma {:induction false} NoCountersNoSurplus(history: seq<Accepted>, s: string, q: string)
    ensures HistorySize(history, s, q) == 0 ==> Surplus(history, s, q) == 0
  {
    if history != [] {
      NoCountersNoSurplus(history[..|history| - 1], s, q);
    }
  }

  /**
   * While the question's key has never been lost, what is shown falls short of the stored ballots
   * by the repeated Other texts only, from whichever source it is read.
   */
  lemma KeptShownIsStored(st: State, s: string, q: QuestionRow, total: nat)
    requires Invariant(st) && Owns(st.questions, s, q.id) && QuestionKey(s, q.id) !in st.lost
    ensures Shown(LiveQuestion(st, s, q, total)) + SurplusSince(st, s, q.id) == Count(st.ballots, OfQuestion(q.id))
  {
    if FallsBack(st, s, q, total) {
      FallbackShows(st, s, q, total);
      CountersAgainstBallots(st, s, q.id);
      assert SizeCounted(st, s, q.id);
      NoCountersNoSurplus(Since(st, QuestionKey(s, q.id)), s, q.id);
      CountImplies(st.ballots, DynamicBallot(st.options, q.id), OfQuestion(q.id));
    } else {
      CacheShows(st, s, q, total);
    }
  }
}
