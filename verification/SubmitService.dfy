/**
 * The survey submission service as the object it is: stored tables and Redis hashes are fields
 * that a submission updates in place through nested loops. Every method is proved to have exactly
 * the effect of its state function.
 */
module SubmitServices {
  import opened Base
  import opened Counting
  import opened Rows
  import opened SurveyStore
  import opened SurveyGuarantees
  import opened SurveyAnswers

  function Hashes(ballots: seq<Ballot>): seq<Receipt> {
    Project(ballots, HashOf())
  }

  lemma TakeFirst(known: seq<OptionRow>, d: Draft, item: Item, rest: seq<Item>, mint: nat -> string)
    requires d.refusal.None?
    ensures TakeAll(known, d, [item] + rest, mint) == TakeAll(known, Take(known, d, item, mint), rest, mint)
  {
    assert ([item] + rest)[1..] == rest;
  }

  /** The items still to come after the first k values of an entry. */
  function ItemsFrom(q: string, values: seq<string>, k: nat, rest: seq<Item>): seq<Item>
    requires k <= |values|
  {
    Values(q, values[k..]) + rest
  }

  lemma NextValue(q: string, values: seq<string>, k: nat, rest: seq<Item>)
    requires k < |values|
    ensures ItemsFrom(q, values, k, rest) == [Value(q, values[k])] + ItemsFrom(q, values, k + 1, rest)
  {
    assert Values(q, values[k..]) == [Value(q, values[k])] + Values(q, values[k + 1..]);
  }

  lemma ValueBounds(q: string, values: seq<string>, rest: seq<Item>)
    ensures ItemsFrom(q, values, 0, rest) == Values(q, values) + rest
    ensures ItemsFrom(q, values, |values|, rest) == rest
  {
    assert values[0..] == values;
    assert Values(q, values[|values|..]) == [];
  }

  lemma NextEntry(questions: seq<QuestionRow>, entries: seq<Entry>, i: nat)
    requires i < |entries|
    ensures Items(questions, entries[i..]) == EntryItems(questions, entries[i]) + Items(questions, entries[i + 1..])
  {
    assert entries[i..][1..] == entries[i + 1..];
  }

  /**
   * The receipts returned: those of the built ballots in order, with the abstention's at the end,
   * whether or not the ballots are stored.
   */
  function Receipts(req: Request, d: Draft): seq<Receipt> {
    Hashes(BallotsOf(req.surveyId, Secret(req), d.answers))
    + (if req.isAbstention then [Receipt(req.surveyId, "abstention", Secret(req))] else [])
  }

  /** A draft's options replace whatever the store had meanwhile. */
  lemma CommitAfterBuild(st: State, req: Request, d: Draft)
    ensures Commit(st.(options := d.options), req, d) == Commit(st, req, d)
  {
  }

  /**
   * One receipt for each value and text of the submission, under the signature or, without one, the
   * user's id; and at the end one for an abstention.
   */
  lemma ReceiptsOfSubmission(st: State, req: Request)
    requires Build(st, req).refusal.None?
    ensures var receipts := Receipts(req, Build(st, req));
      var n := |Wants(st.questions, req.surveyId, req.entries, UuidForm)|;
      && |receipts| == n + (if req.isAbstention then 1 else 0)
      && (forall k | 0 <= k < |receipts| ::
            receipts[k].surveyId == req.surveyId
            && receipts[k].secret == if req.signature != "" then req.signature else req.userId)
      && (forall k | 0 <= k < n :: receipts[k].choice == Build(st, req).answers[k].optionId)
      && (req.isAbstention ==> receipts[n].choice == "abstention")
  {
    BuildMeets(st, req);
  }

  class SubmitService {
    var surveys: map<string, SurveyRow>
    var questions: seq<QuestionRow>
    var options: seq<OptionRow>
    var ballots: seq<Ballot>
    var pending: map<string, Pending>
    var keys: set<string>
    var hashes: map<Key, Hash>
    var responses: map<string, nat>
    var results: map<string, Results>
    ghost var history: seq<Accepted>
    ghost var lost: map<Key, nat>

    /** What is stored, without the records kept for the proofs. */
    function Stored(): State
      reads this
    {
      State(surveys, questions, options, ballots, pending, keys, hashes, responses, results, [], map[])
    }

    ghost function Current(): State
      reads this
    {
      Stored().(history := history, lost := lost)
    }

    /** The unique index on ballot hashes holds. */
    ghost predicate Valid()
      reads this
    {
      UniqueHashes(ballots)
    }

    /** The published surveys, before any response; row ids are primary keys. */
    constructor (surveys: map<string, SurveyRow>, questions: seq<QuestionRow>, options: seq<OptionRow>)
      requires DistinctQuestions(questions) && DistinctOptions(options)
      ensures Valid() && Unanswered(Current())
      ensures this.surveys == surveys && this.questions == questions && this.options == options
    {
      this.surveys, this.questions, this.options := surveys, questions, options;
      ballots, pending, keys, hashes, responses, results := [], map[], {}, map[], map[], map[];
      history, lost := [], map[];
    }

    // ---- validation ----

    /** Required questions and choice limits, question by question. */
    method ValidateAnswers(rows: seq<QuestionRow>, entries: seq<Entry>) returns (refusal: Option<Refusal>)
      ensures refusal == CheckQuestions(rows, entries)
    {
      var i := 0;
      while i < |rows|
        invariant 0 <= i <= |rows|
        invariant CheckQuestions(rows, entries) == CheckQuestions(rows[i..], entries)
      {
        refusal := CheckQuestion(rows[i], entries);
        if refusal.Some? {
          return;
        }
        i := i + 1;
      }
      refusal := None;
    }

    // ---- building ----

    method GetOrCreateDynamicOption(q: string, text: string, id: string) returns (r: Result<string, Refusal>)
      modifies this`options
      ensures (options, r) == GetOrCreate(old(options), q, text, id)
    {
      var i := 0;
      while i < |options|
        invariant 0 <= i <= |options|
        invariant FindText(options, q, text) == FindText(options[i..], q, text)
      {
        if options[i].questionId == q && options[i].text == text {
          return Ok(options[i].id);
        }
        i := i + 1;
      }
      if IdTaken(options, id) {
        return Err(IdInUse);
      }
      options := options + [OptionRow(id, q, text, true)];
      return Ok(id);
    }

    /** A chosen value: the id of a known option of the question, or a text to find or create. */
    method ResolveValue(known: seq<OptionRow>, q: string, value: string, id: string) returns (r: Result<string, Refusal>)
      modifies this`options
      ensures (options, r) == Resolve(known, old(options), Value(q, value), id)
    {
      if IsUuid(value) {
        return if IsOptionOf(known, q, value) then Ok(value) else Err(InvalidOption);
      }
      r := GetOrCreateDynamicOption(q, value, id);
    }

    /** One chosen value: a ballot and a counter field. */
    method BuildChoice(
        known: seq<OptionRow>, req: Request, q: string, value: string,
        added0: seq<Ballot>, ghost answers0: seq<Answer>, ghost order: seq<string>, groups0: map<string, Group>)
      returns (added: seq<Ballot>, ghost answers: seq<Answer>, groups: map<string, Group>, refusal: Option<Refusal>)
      requires q in groups0 && added0 == BallotsOf(req.surveyId, Secret(req), answers0)
      modifies this`options
      ensures added == BallotsOf(req.surveyId, Secret(req), answers) && q in groups
      ensures Draft(options, answers, order, groups, refusal)
           == Take(known, Draft(old(options), answers0, order, groups0, None), Value(q, value), req.mint)
    {
      added, answers, groups, refusal := added0, answers0, groups0, None;
      var resolved := ResolveValue(known, q, value, req.mint(|options|));
      if resolved.Err? {
        refusal := Some(resolved.error);
        return;
      }
      var optionId := resolved.value;
      added := added + [Ballot(q, optionId, Receipt(req.surveyId, optionId, Secret(req)))];
      answers := answers + [Answer(q, optionId, false)];
      groups := groups[q := groups[q].(optionIds := groups[q].optionIds + [optionId])];
    }

    /** The choices of one entry, in order. */
    method BuildChoices(
        known: seq<OptionRow>, req: Request, q: string, ids: seq<string>, ghost rest: seq<Item>,
        added0: seq<Ballot>, ghost answers0: seq<Answer>, ghost order: seq<string>, groups0: map<string, Group>)
      returns (added: seq<Ballot>, ghost answers: seq<Answer>, groups: map<string, Group>, refusal: Option<Refusal>)
      requires q in groups0 && added0 == BallotsOf(req.surveyId, Secret(req), answers0)
      modifies this`options
      ensures added == BallotsOf(req.surveyId, Secret(req), answers) && q in groups
      ensures TakeAll(known, Draft(options, answers, order, groups, refusal), rest, req.mint)
           == TakeAll(known, Draft(old(options), answers0, order, groups0, None), Values(q, ids) + rest, req.mint)
    {
      added, answers, groups, refusal := added0, answers0, groups0, None;
      ghost var goal := TakeAll(known, Draft(options, answers, order, groups, None), Values(q, ids) + rest, req.mint);
      var k := 0;
      ValueBounds(q, ids, rest);
      while k < |ids|
        invariant 0 <= k <= |ids| && q in groups && refusal.None?
        invariant added == BallotsOf(req.surveyId, Secret(req), answers)
        invariant TakeAll(known, Draft(options, answers, order, groups, None), ItemsFrom(q, ids, k, rest), req.mint) == goal
      {
        NextValue(q, ids, k, rest);
        TakeFirst(known, Draft(options, answers, order, groups, None), Value(q, ids[k]),
                  ItemsFrom(q, ids, k + 1, rest), req.mint);
        added, answers, groups, refusal := BuildChoice(known, req, q, ids[k], added, answers, order, groups);
        if refusal.Some? {
          return;
        }
        k := k + 1;
      }
    }

    /** Free text of one entry: an answer of its own for a freeform question, else the Other field. */
    method BuildText(
        known: seq<OptionRow>, req: Request, q: QuestionRow, text: string,
        added0: seq<Ballot>, ghost answers0: seq<Answer>, ghost order: seq<string>, groups0: map<string, Group>)
      returns (added: seq<Ballot>, ghost answers: seq<Answer>, groups: map<string, Group>, refusal: Option<Refusal>)
      requires q.id in groups0 && added0 == BallotsOf(req.surveyId, Secret(req), answers0)
      modifies this`options
      ensures added == BallotsOf(req.surveyId, Secret(req), answers)
      ensures Draft(options, answers, order, groups, refusal)
           == Take(known, Draft(old(options), answers0, order, groups0, None), Text(q.id, text, q.kind.Freeform?), req.mint)
    {
      added, answers, groups, refusal := added0, answers0, groups0, None;
      var resolved := GetOrCreateDynamicOption(q.id, text, req.mint(|options|));
      if resolved.Err? {
        refusal := Some(resolved.error);
        return;
      }
      var optionId := resolved.value;
      added := added + [Ballot(q.id, optionId, Receipt(req.surveyId, optionId, Secret(req)))];
      answers := answers + [Answer(q.id, optionId, !q.kind.Freeform?)];
      if q.kind.Freeform? {
        groups := groups[q.id := groups[q.id].(optionIds := groups[q.id].optionIds + [optionId])];
      } else {
        groups := groups[q.id := groups[q.id].(hasOther := true)];
      }
    }

    /** One entry: choices first, then the text; an entry for an unknown question is skipped. */
    method BuildEntry(
        known: seq<OptionRow>, req: Request, rows: seq<QuestionRow>, e: Entry, ghost rest: seq<Item>,
        added0: seq<Ballot>, ghost answers0: seq<Answer>, order0: seq<string>, groups0: map<string, Group>)
      returns (added: seq<Ballot>, ghost answers: seq<Answer>, order: seq<string>, groups: map<string, Group>,
               refusal: Option<Refusal>)
      requires added0 == BallotsOf(req.surveyId, Secret(req), answers0)
      modifies this`options
      ensures added == BallotsOf(req.surveyId, Secret(req), answers)
      ensures TakeAll(known, Draft(options, answers, order, groups, refusal), rest, req.mint)
           == TakeAll(known, Draft(old(options), answers0, order0, groups0, None), EntryItems(rows, e) + rest, req.mint)
    {
      added, answers, order, groups, refusal := added0, answers0, order0, groups0, None;
      var found := FindQuestion(rows, e.questionId);
      if found.None? {
        assert EntryItems(rows, e) + rest == rest;
        return;
      }
      var q := found.value;
      ghost var text := if e.text != "" then [Text(q.id, e.text, q.kind.Freeform?)] else [];
      assert EntryItems(rows, e) + rest == [Begin(q.id)] + (Values(q.id, e.optionIds) + (text + rest));
      TakeFirst(known, Draft(options, answers, order, groups, None), Begin(q.id),
                Values(q.id, e.optionIds) + (text + rest), req.mint);
      if q.id !in groups {
        order := order + [q.id];
        groups := groups[q.id := Group([], false)];
      }
      added, answers, groups, refusal := BuildChoices(known, req, q.id, e.optionIds, text + rest, added, answers, order, groups);
      if e.text != "" && refusal.None? {
        TakeFirst(known, Draft(options, answers, order, groups, None), Text(q.id, e.text, q.kind.Freeform?),
                  rest, req.mint);
        added, answers, groups, refusal := BuildText(known, req, q, e.text, added, answers, order, groups);
      } else {
        assert e.text == "" ==> text + rest == rest;
      }
    }

    /** The loop over the entries of a submission; options it creates are stored as it goes. */
    method BuildBallots(req: Request)
      returns (added: seq<Ballot>, ghost d: Draft, order: seq<string>, groups: map<string, Group>, refusal: Option<Refusal>)
      modifies this`options
      ensures d == Build(old(Stored()), req)
      ensures options == d.options && order == d.order && groups == d.groups && refusal == d.refusal
      ensures added == BallotsOf(req.surveyId, Secret(req), d.answers)
    {
      var known, rows := options, QuestionsOf(questions, req.surveyId);
      added, order, groups, refusal := [], [], map[], None;
      ghost var answers: seq<Answer> := [];
      ghost var goal := Build(Stored(), req);
      var i := 0;
      assert req.entries[0..] == req.entries;
      while i < |req.entries|
        invariant 0 <= i <= |req.entries|
        invariant added == BallotsOf(req.surveyId, Secret(req), answers)
        invariant TakeAll(known, Draft(options, answers, order, groups, refusal), Items(rows, req.entries[i..]), req.mint)
               == goal
      {
        if refusal.Some? {
          break;
        }
        NextEntry(rows, req.entries, i);
        added, answers, order, groups, refusal :=
          BuildEntry(known, req, rows, req.entries[i], Items(rows, req.entries[i + 1..]), added, answers, order, groups);
        i := i + 1;
      }
      d := Draft(options, answers, order, groups, refusal);
    }

    // ---- committing ----

    /** All ballots are stored, or none when a receipt is taken. */
    method CreateBallots(added: seq<Ballot>) returns (stored: bool)
      requires Valid()
      modifies this`ballots
      ensures Valid()
      ensures stored <==> UniqueHashes(old(ballots) + added)
      ensures ballots == if stored then old(ballots) + added else old(ballots)
    {
      stored, ballots := InsertAll(ballots, added, HashOf());
    }

    /** HINCRBY for every chosen option of a question, and once for Other. */
    method CountAnswer(key: Key, group: Group)
      modifies this`hashes
      ensures hashes == CountGroup(old(hashes), key, group)
    {
      ghost var goal := IncrementAll(hashes, key, group.optionIds);
      var i := 0;
      assert group.optionIds[0..] == group.optionIds;
      while i < |group.optionIds|
        invariant 0 <= i <= |group.optionIds|
        invariant IncrementAll(hashes, key, group.optionIds[i..]) == goal
      {
        hashes := Increment(hashes, key, OptionField(group.optionIds[i]));
        assert group.optionIds[i..][1..] == group.optionIds[i + 1..];
        i := i + 1;
      }
      if group.hasOther {
        hashes := Increment(hashes, key, OtherCount);
      }
    }

    /** The Redis side of an accepted submission. */
    method PerformSurveySubmission(s: string, order: seq<string>, groups: map<string, Group>, isAbstention: bool)
      modifies this`responses, this`hashes
      ensures responses == old(responses)[s := Responses(old(Stored()), s) + 1]
      ensures hashes == if isAbstention then Increment(old(hashes), GlobalKey(s), AbstentionCount)
                        else CountGroups(old(hashes), s, order, groups)
    {
      responses := responses[s := (if s in responses then responses[s] else 0) + 1];
      if isAbstention {
        hashes := Increment(hashes, GlobalKey(s), AbstentionCount);
        return;
      }
      ghost var goal := CountGroups(hashes, s, order, groups);
      var i := 0;
      assert order[0..] == order;
      while i < |order|
        invariant 0 <= i <= |order|
        invariant CountGroups(hashes, s, order[i..], groups) == goal
        invariant responses == old(responses)[s := Responses(old(Stored()), s) + 1]
      {
        CountAnswer(QuestionKey(s, order[i]), if order[i] in groups then groups[order[i]] else Group([], false));
        assert order[i..][1..] == order[i + 1..];
        i := i + 1;
      }
    }

    // ---- submitting ----

    /** The guards of a submission, in their order. */
    method Admit(req: Request, now: int) returns (refusal: Option<Refusal>)
      ensures refusal == CheckSubmission(Stored(), req, now)
    {
      if req.surveyId !in surveys || surveys[req.surveyId].isDeleted {
        return Some(NotFound);
      }
      refusal := CheckSurvey(surveys[req.surveyId], req, now);
      if refusal.Some? {
        return;
      }
      refusal := CheckToken(Stored(), req, now);
      if refusal.None? && !req.isAbstention {
        refusal := ValidateAnswers(QuestionsOf(questions, req.surveyId), req.entries);
      }
    }

    lemma GuardsIgnoreHistory(a: State, b: State, req: Request, now: int)
      requires a.(history := [], lost := map[]) == b.(history := [], lost := map[])
      ensures CheckSubmission(a, req, now) == CheckSubmission(b, req, now)
      ensures Practice(a, req) == Practice(b, req)
      ensures Build(a, req) == Build(b, req)
    {
    }

    /** The transaction and, once it is through, the counters. */
    method Store(req: Request, added: seq<Ballot>, ghost d: Draft, order: seq<string>, groups: map<string, Group>)
      returns (stored: bool)
      requires Valid() && added == BallotsOf(req.surveyId, Secret(req), d.answers)
      requires options == d.options && order == d.order && groups == d.groups
      modifies this
      ensures Valid()
      ensures stored <==> UniqueHashes(old(ballots) + NewBallots(req, d))
      ensures Current() == if stored then Commit(old(Current()), req, d) else old(Current())
    {
      var inserted := if req.isAbstention then [] else added;
      assert inserted == NewBallots(req, d);
      stored := CreateBallots(inserted);
      if stored {
        if req.tokenHash.Some? {
          pending := pending - {req.tokenHash.value};
        }
        RecordSubmission(req, d, order, groups);
      }
    }

    method RecordSubmission(req: Request, ghost d: Draft, order: seq<string>, groups: map<string, Group>)
      requires order == d.order && groups == d.groups
      modifies this`responses, this`hashes, this`history
      ensures responses == old(responses)[req.surveyId := Responses(old(Stored()), req.surveyId) + 1]
      ensures hashes == if req.isAbstention then Increment(old(hashes), GlobalKey(req.surveyId), AbstentionCount)
                        else CountGroups(old(hashes), req.surveyId, d.order, d.groups)
      ensures history == old(history) + [AcceptedNow(req, d)]
    {
      PerformSurveySubmission(req.surveyId, order, groups, req.isAbstention);
      history := history + [AcceptedNow(req, d)];
    }

    /** Builds the ballots of an admitted submission and, unless it is for practice, stores them. */
    method Process(req: Request) returns (outcome: Result<bool, Refusal>, receipts: seq<Receipt>)
      requires Valid()
      modifies this
      ensures Valid() && (Current(), outcome) == Conclude(old(Current()), req, Build(old(Stored()), req))
      ensures outcome.Ok? ==> receipts == Receipts(req, Build(old(Stored()), req))
    {
      receipts := [];
      var practice := Practice(Stored(), req);
      var added, d, order, groups, failure := BuildBallots(req);
      if failure.Some? {
        return Err(failure.value), receipts;
      }
      receipts := Hashes(added);
      if req.isAbstention {
        receipts := receipts + [Receipt(req.surveyId, "abstention", Secret(req))];
      }
      assert Current() == old(Current()).(options := d.options);
      CommitAfterBuild(old(Current()), req, d);
      if practice {
        return Ok(true), receipts;
      }
      var stored := Store(req, added, d, order, groups);
      outcome := if stored then Ok(false) else Err(DuplicateBallot);
    }

    method SubmitResponse(req: Request, now: int) returns (outcome: Result<bool, Refusal>, receipts: seq<Receipt>)
      requires Valid()
      modifies this
      ensures Valid() && (Current(), outcome) == Submit(old(Current()), req, now)
      ensures outcome.Ok? ==> receipts == Receipts(req, Build(old(Current()), req))
    {
      receipts := [];
      GuardsIgnoreHistory(Current(), Stored(), req, now);
      var refusal := Admit(req, now);
      if refusal.Some? {
        return Err(refusal.value), receipts;
      }
      outcome, receipts := Process(req);
    }

    // ---- sealing ----

    method FinalizeSurvey(s: string, secure: bool, now: int) returns (outcome: Result<Results, Refusal>)
      requires Valid()
      modifies this`surveys, this`results
      ensures Valid() && (Current(), outcome) == Finalize(old(Current()), s, secure, now)
    {
      if s !in surveys || surveys[s].isDeleted {
        return Err(NotFound);
      }
      var survey := surveys[s];
      if survey.isFinalized {
        return Err(IsFinalized);
      }
      if survey.endAt.Some? && now < survey.endAt.value {
        return Err(NotEnded);
      }
      if !secure {
        return Err(NotSecure);
      }
      var sealed := LiveResults(Stored(), s);
      assert sealed.questions == LiveResults(Current(), s).questions;
      if s in results {
        return Err(IdInUse);
      }
      surveys := surveys[s := survey.(isFinalized := true)];
      results := results[s := sealed];
      return Ok(sealed);
    }
  }
}
