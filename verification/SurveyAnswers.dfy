/**
 * What an accepted submission stores for what it asked: each chosen value and each text, in order,
 * becomes one ballot, for the option it names or for an option with its text; and when that is
 * enough for the submission to be accepted.
 */
module SurveyAnswers {
  import opened Base
  import opened Rows
  import opened SurveyStore
  import opened SurveyGuarantees

  // ---- what a submission asks for ----

  /** An answer asked for: an option by its id, or whatever option of the question has the text. */
  datatype Want = Want(questionId: string, value: string, byId: bool)

  predicate AllHex(s: string) {
    forall i | 0 <= i < |s| :: s[i] in "0123456789abcdefABCDEF"
  }

  /** Five groups of hexadecimal digits joined by hyphens. */
  predicate UuidForm(id: string) {
    && |id| == 8 + 1 + 4 + 1 + 4 + 1 + 4 + 1 + 12
    && id[8] == id[13] == id[18] == id[23] == '-'
    && AllHex(id[..8]) && AllHex(id[9..13]) && AllHex(id[14..18]) && AllHex(id[19..23]) && AllHex(id[24..])
  }

  function ValueWants(q: string, values: seq<string>, isId: string -> bool): (r: seq<Want>)
    ensures |r| == |values| && forall i | 0 <= i < |r| :: r[i] == Want(q, values[i], isId(values[i]))
  {
    seq(|values|, i requires 0 <= i < |values| => Want(q, values[i], isId(values[i])))
  }

  /**
   * The chosen values and then the text of an entry for a question of the survey; `isId` tells
   * which values are ids.
   */
  function EntryWants(questions: seq<QuestionRow>, s: string, e: Entry, isId: string -> bool): seq<Want> {
    if !Owns(questions, s, e.questionId) then []
    else
      ValueWants(e.questionId, e.optionIds, isId) + (if e.text != "" then [Want(e.questionId, e.text, false)] else [])
  }

  function Wants(questions: seq<QuestionRow>, s: string, entries: seq<Entry>, isId: string -> bool): seq<Want> {
    if entries == [] then []
    else EntryWants(questions, s, entries[0], isId) + Wants(questions, s, entries[1..], isId)
  }

  /** The option row is what the answer asks for. */
  predicate StandsFor(row: OptionRow, w: Want) {
    row.questionId == w.questionId && (if w.byId then row.id == w.value else row.text == w.value)
  }

  /** The ballot is for such a row, one that was known before the submission if it is asked for by id. */
  predicate Given(known: seq<OptionRow>, options: seq<OptionRow>, w: Want, optionId: string) {
    exists k | 0 <= k < |options| ::
      options[k].id == optionId && StandsFor(options[k], w) && (w.byId ==> k < |known|)
  }

  /** Options are only added, each for a text asked for that no earlier option of the question has. */
  predicate AddedForTexts(known: seq<OptionRow>, options: seq<OptionRow>, wants: seq<Want>) {
    && known <= options
    && forall k | |known| <= k < |options| ::
         && options[k].isDynamic
         && Want(options[k].questionId, options[k].text, false) in wants
         && forall j | 0 <= j < k :: options[j].questionId != options[k].questionId || options[j].text != options[k].text
  }

  // ---- what the loops make of it ----

  lemma HexDigits(c: char)
    ensures IsHex(c) <==> c in "0123456789abcdefABCDEF"
  {
  }

  lemma UuidIff(id: string)
    ensures IsUuid(id) <==> UuidForm(id)
  {
    forall i | 0 <= i < |id| ensures IsHex(id[i]) <==> id[i] in "0123456789abcdefABCDEF" {
      HexDigits(id[i]);
    }
    if UuidForm(id) {
      forall i | 0 <= i < 36 && i !in {8, 13, 18, 23} ensures IsHex(id[i]) {
        assert i < 8 ==> id[i] == id[..8][i];
        assert 9 <= i < 13 ==> id[i] == id[9..13][i - 9];
        assert 14 <= i < 18 ==> id[i] == id[14..18][i - 14];
        assert 19 <= i < 23 ==> id[i] == id[19..23][i - 19];
        assert 24 <= i ==> id[i] == id[24..][i - 24];
      }
    }
  }

  lemma UuidsAre()
    ensures forall v :: UuidForm(v) == IsUuid(v)
  {
    forall v ensures UuidForm(v) == IsUuid(v) {
      UuidIff(v);
    }
  }

  function WantOf(item: Item, isId: string -> bool): Want
    requires !item.Begin?
  {
    if item.Value? then Want(item.questionId, item.value, isId(item.value))
    else Want(item.questionId, item.text, false)
  }

  function ItemWants(items: seq<Item>, isId: string -> bool): seq<Want> {
    if items == [] then []
    else
      var last := items[|items| - 1];
      ItemWants(items[..|items| - 1], isId) + (if last.Begin? then [] else [WantOf(last, isId)])
  }

  lemma {:induction false} ItemWantsConcat(a: seq<Item>, b: seq<Item>, isId: string -> bool)
    ensures ItemWants(a + b, isId) == ItemWants(a, isId) + ItemWants(b, isId)
  {
    if b == [] {
      assert a + b == a;
    } else {
      var front := b[..|b| - 1];
      ItemWantsConcat(a, front, isId);
      assert (a + b)[..|a + b| - 1] == a + front;
    }
  }

  lemma ItemWantsFirst(items: seq<Item>, isId: string -> bool)
    requires items != []
    ensures ItemWants(items, isId) == ItemWants([items[0]], isId) + ItemWants(items[1..], isId)
  {
    ItemWantsConcat([items[0]], items[1..], isId);
    assert items == [items[0]] + items[1..];
  }

  lemma {:induction false} WantsOfValues(q: string, values: seq<string>, isId: string -> bool)
    ensures ItemWants(Values(q, values), isId) == ValueWants(q, values, isId)
  {
    if values != [] {
      var front := values[..|values| - 1];
      WantsOfValues(q, front, isId);
      assert Values(q, values)[..|values| - 1] == Values(q, front);
    }
  }

  lemma OwnsFirst(questions: seq<QuestionRow>, s: string, id: string)
    requires questions != []
    ensures Owns(questions, s, id) <==> (questions[0].surveyId == s && questions[0].id == id) || Owns(questions[1..], s, id)
  {
    var rest := questions[1..];
    if Owns(rest, s, id) {
      var i :| 0 <= i < |rest| && rest[i].surveyId == s && rest[i].id == id;
      assert questions[i + 1] == rest[i];
    }
    if Owns(questions, s, id) {
      var i :| 0 <= i < |questions| && questions[i].surveyId == s && questions[i].id == id;
      assert i > 0 ==> rest[i - 1] == questions[i];
    }
  }

  lemma {:induction false} FoundIffOwned(questions: seq<QuestionRow>, s: string, id: string)
    ensures FindQuestion(QuestionsOf(questions, s), id).Some? <==> Owns(questions, s, id)
  {
    if questions != [] {
      var rest := QuestionsOf(questions[1..], s);
      FoundIffOwned(questions[1..], s, id);
      OwnsFirst(questions, s, id);
      assert ([questions[0]] + rest)[1..] == rest;
      assert QuestionsOf(questions, s) == if questions[0].surveyId == s then [questions[0]] + rest else rest;
    }
  }

  lemma WantsOfOne(item: Item, isId: string -> bool)
    ensures ItemWants([item], isId) == if item.Begin? then [] else [WantOf(item, isId)]
  {
    assert [item][..0] == [];
  }

  lemma WantsOfChoices(q: string, values: seq<string>, isId: string -> bool)
    ensures ItemWants([Begin(q)] + Values(q, values), isId) == ValueWants(q, values, isId)
  {
    WantsOfOne(Begin(q), isId);
    WantsOfValues(q, values, isId);
    ItemWantsConcat([Begin(q)], Values(q, values), isId);
  }

  lemma WantsOfFound(q: string, e: Entry, freeform: bool, isId: string -> bool)
    ensures var text := if e.text != "" then [Text(q, e.text, freeform)] else [];
      ItemWants([Begin(q)] + Values(q, e.optionIds) + text, isId)
        == ValueWants(q, e.optionIds, isId) + (if e.text != "" then [Want(q, e.text, false)] else [])
  {
    var choices := [Begin(q)] + Values(q, e.optionIds);
    WantsOfChoices(q, e.optionIds, isId);
    if e.text != "" {
      WantsOfOne(Text(q, e.text, freeform), isId);
      ItemWantsConcat(choices, [Text(q, e.text, freeform)], isId);
    } else {
      assert choices + [] == choices;
    }
  }

  lemma WantsOfEntry(questions: seq<QuestionRow>, s: string, e: Entry, isId: string -> bool)
    ensures ItemWants(EntryItems(QuestionsOf(questions, s), e), isId) == EntryWants(questions, s, e, isId)
  {
    FoundIffOwned(questions, s, e.questionId);
    var found := FindQuestion(QuestionsOf(questions, s), e.questionId);
    if found.Some? {
      WantsOfFound(e.questionId, e, found.value.kind.Freeform?, isId);
    }
  }

  lemma {:induction false} WantsOfItems(questions: seq<QuestionRow>, s: string, entries: seq<Entry>, isId: string -> bool)
    ensures ItemWants(Items(QuestionsOf(questions, s), entries), isId) == Wants(questions, s, entries, isId)
  {
    if entries != [] {
      var own := QuestionsOf(questions, s);
      WantsOfEntry(questions, s, entries[0], isId);
      WantsOfItems(questions, s, entries[1..], isId);
      ItemWantsConcat(EntryItems(own, entries[0]), Items(own, entries[1..]), isId);
    }
  }

  /** The draft has one answer for each want so far, and only the options it needed. */
  predicate Met(known: seq<OptionRow>, d: Draft, wants: seq<Want>) {
    && AddedForTexts(known, d.options, wants)
    && |d.answers| == |wants|
    && forall i | 0 <= i < |wants| ::
         d.answers[i].questionId == wants[i].questionId && Given(known, d.options, wants[i], d.answers[i].optionId)
  }

  lemma {:induction false} FoundTextRow(options: seq<OptionRow>, q: string, text: string)
    ensures var found := FindText(options, q, text);
      && (found.Some? ==> exists k | 0 <= k < |options| ::
            options[k].id == found.value && options[k].questionId == q && options[k].text == text)
      && (found.None? ==> forall k | 0 <= k < |options| :: options[k].questionId != q || options[k].text != text)
  {
    if options != [] && !(options[0].questionId == q && options[0].text == text) {
      var rest := options[1..];
      FoundTextRow(rest, q, text);
      var found := FindText(rest, q, text);
      if found.Some? {
        var k :| 0 <= k < |rest| && rest[k].id == found.value && rest[k].questionId == q && rest[k].text == text;
        assert options[k + 1] == rest[k];
      } else {
        assert forall k | 0 < k < |options| :: options[k] == rest[k - 1];
      }
    }
  }

  lemma GivenStays(known: seq<OptionRow>, options: seq<OptionRow>, options': seq<OptionRow>, w: Want, id: string)
    requires options <= options' && Given(known, options, w, id)
    ensures Given(known, options', w, id)
  {
    var k :| 0 <= k < |options| && options[k].id == id && StandsFor(options[k], w) && (w.byId ==> k < |known|);
    assert options'[k] == options[k];
  }

  lemma ResolveGives(
      known: seq<OptionRow>, options: seq<OptionRow>, item: Item, id: string, wants: seq<Want>, isId: string -> bool)
    requires forall v :: isId(v) == IsUuid(v)
    requires !item.Begin? && AddedForTexts(known, options, wants)
    ensures var (options', resolved) := Resolve(known, options, item, id);
      && options <= options'
      && (resolved.Ok? ==>
            && Given(known, options', WantOf(item, isId), resolved.value)
            && AddedForTexts(known, options', wants + [WantOf(item, isId)]))
  {
    var w := WantOf(item, isId);
    if w.byId {
      if IsOptionOf(known, w.questionId, w.value) {
        var k :| 0 <= k < |known| && known[k].questionId == w.questionId && known[k].id == w.value;
        assert options[k] == known[k];
      }
    } else {
      FoundTextRow(options, w.questionId, w.value);
      var row := OptionRow(id, w.questionId, w.value, true);
      assert StandsFor(row, w) && (options + [row])[|options|] == row && (wants + [w])[|wants|] == w;
    }
  }

  lemma TakeMeets(known: seq<OptionRow>, d: Draft, item: Item, mint: nat -> string, wants: seq<Want>, isId: string -> bool)
    requires forall v :: isId(v) == IsUuid(v)
    requires Met(known, d, wants) && Take(known, d, item, mint).refusal.None?
    ensures Met(known, Take(known, d, item, mint), wants + ItemWants([item], isId))
  {
    assert ItemWants([item], isId) == if item.Begin? then [] else [WantOf(item, isId)];
    if item.Begin? {
      assert wants + [] == wants;
    } else {
      var d', all := Take(known, d, item, mint), wants + [WantOf(item, isId)];
      ResolveGives(known, d.options, item, mint(|d.options|), wants, isId);
      forall i | 0 <= i < |all|
        ensures d'.answers[i].questionId == all[i].questionId && Given(known, d'.options, all[i], d'.answers[i].optionId)
      {
        if i < |wants| {
          GivenStays(known, d.options, d'.options, wants[i], d.answers[i].optionId);
        }
      }
    }
  }

  lemma TakeAllFirst(known: seq<OptionRow>, d: Draft, items: seq<Item>, mint: nat -> string)
    requires items != [] && TakeAll(known, d, items, mint).refusal.None?
    ensures Take(known, d, items[0], mint).refusal.None?
    ensures TakeAll(known, d, items, mint) == TakeAll(known, Take(known, d, items[0], mint), items[1..], mint)
  {
  }

  lemma WantsAfterFirst(wants: seq<Want>, items: seq<Item>, isId: string -> bool)
    requires items != []
    ensures wants + ItemWants([items[0]], isId) + ItemWants(items[1..], isId) == wants + ItemWants(items, isId)
  {
    ItemWantsFirst(items, isId);
  }

  lemma {:induction false} TakeAllMeets(
      known: seq<OptionRow>, d: Draft, items: seq<Item>, mint: nat -> string, wants: seq<Want>, isId: string -> bool)
    requires forall v :: isId(v) == IsUuid(v)
    requires Met(known, d, wants) && TakeAll(known, d, items, mint).refusal.None?
    ensures Met(known, TakeAll(known, d, items, mint), wants + ItemWants(items, isId))
    decreases |items|
  {
    if items == [] {
      assert wants + [] == wants;
    } else {
      TakeAllFirst(known, d, items, mint);
      TakeMeets(known, d, items[0], mint, wants, isId);
      TakeAllMeets(known, Take(known, d, items[0], mint), items[1..], mint, wants + ItemWants([items[0]], isId), isId);
      WantsAfterFirst(wants, items, isId);
    }
  }

  lemma NothingMet(known: seq<OptionRow>)
    ensures Met(known, EmptyDraft(known), [])
  {
  }

  /** The same from nothing on, for items that stand for these wants. */
  lemma ItemsMeet(known: seq<OptionRow>, items: seq<Item>, mint: nat -> string, wants: seq<Want>, isId: string -> bool)
    requires forall v :: isId(v) == IsUuid(v)
    requires ItemWants(items, isId) == wants && TakeAll(known, EmptyDraft(known), items, mint).refusal.None?
    ensures Met(known, TakeAll(known, EmptyDraft(known), items, mint), wants)
  {
    NothingMet(known);
    TakeAllMeets(known, EmptyDraft(known), items, mint, [], isId);
    assert [] + wants == wants;
  }

  lemma BuildMeets(st: State, req: Request)
    requires Build(st, req).refusal.None?
    ensures Met(st.options, Build(st, req), Wants(st.questions, req.surveyId, req.entries, UuidForm))
  {
    var items := Items(QuestionsOf(st.questions, req.surveyId), req.entries);
    WantsOfItems(st.questions, req.surveyId, req.entries, UuidForm);
    UuidsAre();
    ItemsMeet(st.options, items, req.mint, Wants(st.questions, req.surveyId, req.entries, UuidForm), UuidForm);
  }

  /**
   * What an accepted submission stores, by position: for each value of UUID form a ballot for
   * exactly that known option of the question, for any other value and any text a ballot for an
   * option of the question whose text it is; each with the receipt over the signature. Options are
   * added only for texts that no option of the question has. An abstention stores no ballot.
   */
  lemma AcceptedSubmissionStores(st: State, req: Request, now: int)
    requires Submit(st, req, now).1 == Ok(false)
    ensures var st', n := Submit(st, req, now).0, |st.ballots|;
      var wants := Wants(st.questions, req.surveyId, req.entries, UuidForm);
      && AddedForTexts(st.options, st'.options, wants)
      && |st'.ballots| == n + (if req.isAbstention then 0 else |wants|) && st'.ballots[..n] == st.ballots
      && forall i | 0 <= i < |st'.ballots| - n ::
           var b := st'.ballots[n + i];
           && b.questionId == wants[i].questionId && Given(st.options, st'.options, wants[i], b.optionId)
           && b.ballotHash == Receipt(req.surveyId, b.optionId, req.signature)
    ensures var st' := Submit(st, req, now).0;
      && req.tokenHash.Some? && st'.pending == st.pending - {req.tokenHash.value}
      && Responses(st', req.surveyId) == Responses(st, req.surveyId) + 1
      && st'.surveys == st.surveys && st'.questions == st.questions && st'.keys == st.keys && st'.results == st.results
  {
    BuildMeets(st, req);
    AdmittedIff(st, req, now);
  }

  predicate Held(options: seq<OptionRow>, w: Want) {
    exists k | 0 <= k < |options| :: StandsFor(options[k], w)
  }

  /** A practice submission stores no answer, but the options its texts stand for are there afterwards. */
  lemma PracticeLeavesOptions(st: State, req: Request, now: int)
    requires Submit(st, req, now).1 == Ok(true)
    ensures var st', wants := Submit(st, req, now).0, Wants(st.questions, req.surveyId, req.entries, UuidForm);
      && st' == st.(options := st'.options) && AddedForTexts(st.options, st'.options, wants)
      && forall i | 0 <= i < |wants| :: Held(st'.options, wants[i])
  {
    BuildMeets(st, req);
    var d, wants := Build(st, req), Wants(st.questions, req.surveyId, req.entries, UuidForm);
    forall i | 0 <= i < |wants| ensures Held(d.options, wants[i]) {
      assert Given(st.options, d.options, wants[i], d.answers[i].optionId);
    }
  }

  /** So two texts answered to one question are never counted together. */
  lemma DifferentTextsDifferentOptions(
      known: seq<OptionRow>, options: seq<OptionRow>, v: Want, w: Want, first: string, second: string)
    requires DistinctOptions(options) && Given(known, options, v, first) && Given(known, options, w, second)
    requires !v.byId && !w.byId && v != w
    ensures first != second
  {
    var i :| 0 <= i < |options| && options[i].id == first && StandsFor(options[i], v);
    var j :| 0 <= j < |options| && options[j].id == second && StandsFor(options[j], w);
    assert i != j;
  }

  // ---- when a submission is accepted ----

  /** Options asked for by id are known. */
  predicate ChoicesKnown(known: seq<OptionRow>, wants: seq<Want>) {
    forall i | 0 <= i < |wants| && wants[i].byId ::
      exists k | 0 <= k < |known| :: known[k].questionId == wants[i].questionId && known[k].id == wants[i].value
  }

  /** No two wants ask for the same option. */
  predicate NoRepeat(known: seq<OptionRow>, wants: seq<Want>) {
    forall i, j | 0 <= i < j < |wants| ::
      && wants[i] != wants[j]
      && forall k | 0 <= k < |known| :: !(StandsFor(known[k], wants[i]) && StandsFor(known[k], wants[j]))
  }

  /** The store gives new options ids of their own. */
  ghost predicate FreshIds(known: seq<OptionRow>, mint: nat -> string) {
    && (forall n, k | 0 <= k < |known| :: known[k].id != mint(n))
    && (forall m, n | m < n :: mint(m) != mint(n))
  }

  predicate Minted(known: seq<OptionRow>, options: seq<OptionRow>, mint: nat -> string) {
    known <= options && forall k | |known| <= k < |options| :: options[k].id == mint(k)
  }

  lemma TakeIsNotRefused(known: seq<OptionRow>, d: Draft, item: Item, mint: nat -> string, isId: string -> bool)
    requires forall v :: isId(v) == IsUuid(v)
    requires FreshIds(known, mint) && Minted(known, d.options, mint) && d.refusal.None?
    requires ChoicesKnown(known, ItemWants([item], isId))
    ensures var d' := Take(known, d, item, mint);
      d'.refusal.None? && Minted(known, d'.options, mint)
  {
    assert ItemWants([item], isId) == if item.Begin? then [] else [WantOf(item, isId)];
    if !item.Begin? {
      var w := WantOf(item, isId);
        if w.byId {
        assert ItemWants([item], isId)[0] == w;
        var k :| 0 <= k < |known| && known[k].questionId == w.questionId && known[k].id == w.value;
        assert IsOptionOf(known, w.questionId, w.value);
      } else {
        forall k | 0 <= k < |d.options| ensures d.options[k].id != mint(|d.options|) {
          assert k < |known| ==> d.options[k] == known[k];
        }
      }
    }
  }

  lemma {:induction false} TakeAllIsNotRefused(
      known: seq<OptionRow>, d: Draft, items: seq<Item>, mint: nat -> string, isId: string -> bool)
    requires forall v :: isId(v) == IsUuid(v)
    requires FreshIds(known, mint) && Minted(known, d.options, mint) && d.refusal.None?
    requires ChoicesKnown(known, ItemWants(items, isId))
    ensures TakeAll(known, d, items, mint).refusal.None?
    decreases |items|
  {
    if items != [] {
      var first, rest := ItemWants([items[0]], isId), ItemWants(items[1..], isId);
      ItemWantsFirst(items, isId);
      forall i | 0 <= i < |first| && first[i].byId
        ensures exists k | 0 <= k < |known| :: known[k].questionId == first[i].questionId && known[k].id == first[i].value
      {
        assert ItemWants(items, isId)[i] == first[i];
      }
      forall i | 0 <= i < |rest| && rest[i].byId
        ensures exists k | 0 <= k < |known| :: known[k].questionId == rest[i].questionId && known[k].id == rest[i].value
      {
        assert ItemWants(items, isId)[|first| + i] == rest[i];
      }
      TakeIsNotRefused(known, d, items[0], mint, isId);
      TakeAllIsNotRefused(known, Take(known, d, items[0], mint), items[1..], mint, isId);
    }
  }

  /** No one row is what two of the wants ask for. */
  lemma OneRowOneWant(known: seq<OptionRow>, wants: seq<Want>, i: nat, j: nat, row: OptionRow)
    requires NoRepeat(known, wants) && i < j < |wants|
    requires wants[i].byId || wants[j].byId ==> row in known
    ensures !(StandsFor(row, wants[i]) && StandsFor(row, wants[j]))
  {
  }

  lemma GivenDiffer(
      known: seq<OptionRow>, options: seq<OptionRow>, wants: seq<Want>, i: nat, j: nat, first: string, second: string)
    requires DistinctOptions(options) && known <= options && NoRepeat(known, wants) && i < j < |wants|
    requires Given(known, options, wants[i], first) && Given(known, options, wants[j], second)
    ensures first != second
  {
    var k :| 0 <= k < |options| && options[k].id == first && StandsFor(options[k], wants[i])
             && (wants[i].byId ==> k < |known|);
    var l :| 0 <= l < |options| && options[l].id == second && StandsFor(options[l], wants[j])
             && (wants[j].byId ==> l < |known|);
    assert k < |known| ==> options[k] == known[k];
    if wants[i].byId || wants[j].byId ==> options[k] in known {
      OneRowOneWant(known, wants, i, j, options[k]);
    }
  }

  /** Answers to different wants name different options. */
  lemma AnswersDiffer(known: seq<OptionRow>, d: Draft, wants: seq<Want>, i: nat, j: nat)
    requires DistinctOptions(d.options) && Met(known, d, wants) && NoRepeat(known, wants) && i < j < |wants|
    ensures d.answers[i].optionId != d.answers[j].optionId
  {
    GivenDiffer(known, d.options, wants, i, j, d.answers[i].optionId, d.answers[j].optionId);
  }

  predicate Unused(ballots: seq<Ballot>, signature: string) {
    forall i | 0 <= i < |ballots| :: ballots[i].ballotHash.secret != signature
  }

  /** The ballots built of different wants under an unused signature can be stored. */
  lemma BallotsFit(st: State, req: Request)
    requires DistinctOptions(st.options) && UniqueHashes(st.ballots) && Build(st, req).refusal.None?
    requires Unused(st.ballots, req.signature) && req.signature != ""
    requires req.isAbstention || NoRepeat(st.options, Wants(st.questions, req.surveyId, req.entries, UuidForm))
    ensures UniqueHashes(st.ballots + NewBallots(req, Build(st, req)))
  {
    var d, wants := Build(st, req), Wants(st.questions, req.surveyId, req.entries, UuidForm);
    BuildMeets(st, req);
    BuildFits(st, req);
    var added := NewBallots(req, d);
    forall i, j | 0 <= i < j < |added| ensures HashOf()(added[i]) != HashOf()(added[j]) {
      AnswersDiffer(st.options, d, wants, i, j);
    }
    forall j | 0 <= j < |added| ensures !Taken(st.ballots, HashOf(), HashOf()(added[j])) {
      assert added[j].ballotHash.secret == req.signature;
    }
    FitsIff(st.ballots, added, HashOf());
  }

  /**
   * A signature that no stored ballot carries is enough: whatever a submission asks for, if it
   * meets the guards, its choices are options of their questions and it repeats none, it is accepted.
   */
  lemma FreshSignatureIsAccepted(st: State, req: Request, now: int)
    requires DistinctOptions(st.options) && UniqueHashes(st.ballots)
    requires Unused(st.ballots, req.signature) && FreshIds(st.options, req.mint)
    requires FindSurvey(st, req.surveyId).Some? && OpenFor(FindSurvey(st, req.surveyId).value, req, now)
    requires HasToken(req) && TokenGood(st, req, now) && !Practice(st, req)
    requires req.isAbstention || AllAnsweredWell(QuestionsOf(st.questions, req.surveyId), req.entries)
    requires var wants := Wants(st.questions, req.surveyId, req.entries, UuidForm);
      ChoicesKnown(st.options, wants) && (req.isAbstention || NoRepeat(st.options, wants))
    ensures Submit(st, req, now).1 == Ok(false)
  {
    AdmittedIff(st, req, now);
    UuidsAre();
    WantsOfItems(st.questions, req.surveyId, req.entries, UuidForm);
    TakeAllIsNotRefused(st.options, EmptyDraft(st.options),
                        Items(QuestionsOf(st.questions, req.surveyId), req.entries), req.mint, UuidForm);
    BallotsFit(st, req);
  }

  // ---- practice, refusals and empty answers ----

  /** An accepted submission is a practice one exactly when the request or the row of its token says so. */
  lemma PracticeIff(st: State, req: Request, now: int)
    requires Submit(st, req, now).1.Ok?
    ensures Submit(st, req, now).1.value <==>
              || req.isPractice
              || (req.tokenHash.Some? && req.tokenHash.value in st.pending && req.signature != ""
                  && st.pending[req.tokenHash.value].isPractice)
  {
  }

  /** White space and line terminators of sections 12.2 and 12.3 of ECMA-262. */
  predicate IsBlank(c: char) {
    || c in "\t\n\r " || c as int == 0x0B || c as int == 0x0C || c as int == 0xA0 || c as int == 0x1680
    || (0x2000 <= c as int && c as int <= 0x200A)
    || c as int == 0x2028 || c as int == 0x2029 || c as int == 0x202F || c as int == 0x205F
    || c as int == 0x3000 || c as int == 0xFEFF
  }

  lemma SpacesAre(c: char)
    ensures IsSpace(c) <==> IsBlank(c)
  {
  }

  /** The entry is the first one for the question. */
  predicate IsFirst(entries: seq<Entry>, q: string, i: nat)
    requires i < |entries|
  {
    entries[i].questionId == q && forall j | 0 <= j < i :: entries[j].questionId != q
  }

  lemma {:induction false} FoundEntryIsFirst(entries: seq<Entry>, q: string)
    ensures match FindEntry(entries, q)
      case None => forall i | 0 <= i < |entries| :: entries[i].questionId != q
      case Some(e) => exists i :: 0 <= i < |entries| && IsFirst(entries, q, i) && entries[i] == e
  {
    if entries == [] {
    } else if entries[0].questionId == q {
      assert IsFirst(entries, q, 0);
    } else {
      var rest := entries[1..];
      FoundEntryIsFirst(rest, q);
      if FindEntry(rest, q).Some? {
        var i :| 0 <= i < |rest| && IsFirst(rest, q, i) && rest[i] == FindEntry(rest, q).value;
        assert entries[i + 1] == rest[i];
        assert IsFirst(entries, q, i + 1) by {
          assert forall j | 0 < j <= i :: entries[j] == rest[j - 1];
        }
      } else {
        assert forall i | 0 < i < |entries| :: entries[i] == rest[i - 1];
      }
    }
  }

  lemma InkIff(text: string)
    ensures HasInk(text) <==> exists k | 0 <= k < |text| :: !IsBlank(text[k])
  {
    forall k | 0 <= k < |text| ensures IsSpace(text[k]) <==> IsBlank(text[k]) {
      SpacesAre(text[k]);
    }
    if HasInk(text) {
      var k :| 0 <= k < |text| && !IsSpace(text[k]);
      assert !IsBlank(text[k]);
    }
  }

  /** A question is responded to exactly when its first entry has a choice or a text that is not blank. */
  lemma RespondedIff(entries: seq<Entry>, q: string)
    ensures Responded(FindEntry(entries, q)) <==>
              exists i :: 0 <= i < |entries| && IsFirst(entries, q, i)
                && (entries[i].optionIds != [] || exists k | 0 <= k < |entries[i].text| :: !IsBlank(entries[i].text[k]))
  {
    FoundEntryIsFirst(entries, q);
    forall i | 0 <= i < |entries|
      ensures HasInk(entries[i].text) <==> exists k | 0 <= k < |entries[i].text| :: !IsBlank(entries[i].text[k])
    {
      InkIff(entries[i].text);
    }
  }

  /** The multiple-choice question is responded to with fewer choices than its lower limit. */
  predicate Below(question: QuestionRow, entries: seq<Entry>) {
    var entry, config := FindEntry(entries, question.id), question.choiceConfig;
    && question.kind.MultipleChoice? && Responded(entry) && config.Some? && config.value.minChoices.Some?
    && |entry.value.optionIds| < config.value.minChoices.value
  }

  /** And with more than its upper limit. */
  predicate Above(question: QuestionRow, entries: seq<Entry>) {
    var entry, config := FindEntry(entries, question.id), question.choiceConfig;
    && question.kind.MultipleChoice? && Responded(entry) && config.Some? && config.value.maxChoices.Some?
    && |entry.value.optionIds| > config.value.maxChoices.value
  }

  /** What each refusal of a submission says is so. */
  ghost predicate Explains(st: State, req: Request, now: int, refusal: Refusal) {
    var s, questions := req.surveyId, QuestionsOf(st.questions, req.surveyId);
    var wants := Wants(st.questions, s, req.entries, UuidForm);
    var exists', sent := s in st.surveys && !st.surveys[s].isDeleted, req.tokenHash.Some? && req.signature != "";
    match refusal
    case NotFound => !exists'
    case IsFinalized => exists' && st.surveys[s].isFinalized
    case IsClosed => exists' && !req.isPractice && !st.surveys[s].isPublic
    case HasEnded => exists' && !req.isPractice && st.surveys[s].endAt.Some? && st.surveys[s].endAt.value < now
    case NotMember => exists' && !st.surveys[s].isPublic && !req.isMember
    case TokenRequired => !sent && !req.isPractice
    case InvalidToken =>
      sent && (req.tokenHash.value !in st.pending
               || (st.pending[req.tokenHash.value].surveyId != None && st.pending[req.tokenHash.value].surveyId != Some(s)))
    case TokenExpired => sent && req.tokenHash.value in st.pending && st.pending[req.tokenHash.value].expiresAt < now
    case NoSigningKey => sent && s !in st.keys
    case InvalidSignature => sent && !req.signatureValid
    case Required =>
      !req.isAbstention && exists i :: 0 <= i < |questions| && questions[i].isRequired
                                       && !Responded(FindEntry(req.entries, questions[i].id))
    case TooFewChoices => !req.isAbstention && exists i :: 0 <= i < |questions| && Below(questions[i], req.entries)
    case TooManyChoices => !req.isAbstention && exists i :: 0 <= i < |questions| && Above(questions[i], req.entries)
    case InvalidOption => !ChoicesKnown(st.options, wants)
    case IdInUse => !FreshIds(st.options, req.mint)
    case DuplicateBallot => !Unused(st.ballots, req.signature) || !NoRepeat(st.options, wants)
    case _ => false
  }

  /** The order in which the reasons are looked for; questions are checked one after another. */
  function Rank(refusal: Refusal): nat {
    match refusal
    case NotFound => 0
    case IsFinalized => 1
    case IsClosed => 2
    case HasEnded => 3
    case NotMember => 4
    case InvalidToken => 5
    case TokenRequired => 5
    case TokenExpired => 6
    case NoSigningKey => 7
    case InvalidSignature => 8
    case Required => 9
    case TooFewChoices => 9
    case TooManyChoices => 9
    case _ => 10
  }

  lemma {:induction false} RefusedQuestion(questions: seq<QuestionRow>, entries: seq<Entry>)
    ensures var r := CheckQuestions(questions, entries);
      r.Some? ==> exists i :: 0 <= i < |questions| && CheckQuestion(questions[i], entries) == r
  {
    if questions == [] {
    } else if CheckQuestion(questions[0], entries).Some? {
      assert CheckQuestion(questions[0], entries) == CheckQuestions(questions, entries);
    } else {
      RefusedQuestion(questions[1..], entries);
      var r := CheckQuestions(questions[1..], entries);
      if r.Some? {
        var i :| 0 <= i < |questions[1..]| && CheckQuestion(questions[1..][i], entries) == r;
        assert questions[i + 1] == questions[1..][i];
      }
    }
  }

  lemma PassedQuestions(st: State, req: Request, now: int, refusal: Refusal)
    requires Explains(st, req, now, refusal) && Rank(refusal) == 9
    ensures var r := CheckQuestions(QuestionsOf(st.questions, req.surveyId), req.entries);
      !req.isAbstention && r.Some? && Rank(r.value) == 9
  {
    QuestionsPassIff(QuestionsOf(st.questions, req.surveyId), req.entries);
    RefusedQuestion(QuestionsOf(st.questions, req.surveyId), req.entries);
  }

  lemma PassedGuards(st: State, req: Request, now: int, refusal: Refusal)
    requires Explains(st, req, now, refusal) && Rank(refusal) <= 9
    ensures CheckSubmission(st, req, now).Some? && Rank(CheckSubmission(st, req, now).value) <= Rank(refusal)
  {
    if Rank(refusal) == 9 {
      PassedQuestions(st, req, now, refusal);
    }
  }

  lemma RefusedQuestionSaysWhy(st: State, req: Request, now: int)
    requires !req.isAbstention
    ensures var r := CheckQuestions(QuestionsOf(st.questions, req.surveyId), req.entries);
      r.Some? ==> Explains(st, req, now, r.value)
  {
    var questions := QuestionsOf(st.questions, req.surveyId);
    RefusedQuestion(questions, req.entries);
    forall i | 0 <= i < |questions|
      ensures CheckQuestion(questions[i], req.entries) == Some(TooFewChoices) ==> Below(questions[i], req.entries)
      ensures CheckQuestion(questions[i], req.entries) == Some(TooManyChoices) ==> Above(questions[i], req.entries)
    {
    }
  }

  lemma RefusedGuardSaysWhy(st: State, req: Request, now: int)
    ensures CheckSubmission(st, req, now).Some? ==> Explains(st, req, now, CheckSubmission(st, req, now).value)
  {
    if !req.isAbstention {
      RefusedQuestionSaysWhy(st, req, now);
    }
  }

  /** A choice asked for by id is refused exactly when it is not a known option of the question. */
  lemma TakeById(known: seq<OptionRow>, d: Draft, item: Item, mint: nat -> string)
    requires item.Value? && IsUuid(item.value) && d.refusal.None?
    ensures var d' := Take(known, d, item, mint);
      && d'.options == d.options
      && d'.refusal == if IsOptionOf(known, item.questionId, item.value) then None else Some(InvalidOption)
  {
  }

  lemma UnknownChoice(known: seq<OptionRow>, item: Item, isId: string -> bool)
    requires item.Value? && isId(item.value) && !IsOptionOf(known, item.questionId, item.value)
    ensures !ChoicesKnown(known, ItemWants([item], isId))
  {
    WantsOfOne(item, isId);
    assert ItemWants([item], isId)[0] == Want(item.questionId, item.value, true);
  }

  /** A text is refused only over the id for a new option. */
  lemma TakeText(known: seq<OptionRow>, d: Draft, item: Item, mint: nat -> string)
    requires !item.Begin? && !(item.Value? && IsUuid(item.value)) && d.refusal.None? && Minted(known, d.options, mint)
    ensures var d' := Take(known, d, item, mint);
      && (d'.refusal.None? ==> Minted(known, d'.options, mint))
      && (d'.refusal.Some? ==> d'.refusal.value == IdInUse && IdTaken(d.options, mint(|d.options|)))
  {
  }

  lemma MintedIdsAreFree(known: seq<OptionRow>, options: seq<OptionRow>, mint: nat -> string)
    requires Minted(known, options, mint) && IdTaken(options, mint(|options|))
    ensures !FreshIds(known, mint)
  {
    var k :| 0 <= k < |options| && options[k].id == mint(|options|);
    assert k < |known| ==> options[k] == known[k];
  }

  /** Why the loops stop: an unknown choice, or an id for a new option that is in use. */
  lemma TakeSaysWhy(known: seq<OptionRow>, d: Draft, item: Item, mint: nat -> string, isId: string -> bool)
    requires forall v :: isId(v) == IsUuid(v)
    requires d.refusal.None? && Minted(known, d.options, mint)
    ensures var d' := Take(known, d, item, mint);
      && (d'.refusal.None? ==> Minted(known, d'.options, mint))
      && (d'.refusal.Some? ==>
            || (d'.refusal.value == InvalidOption && !ChoicesKnown(known, ItemWants([item], isId)))
            || (d'.refusal.value == IdInUse && !FreshIds(known, mint)))
  {
    if item.Begin? {
    } else if item.Value? && isId(item.value) {
      TakeById(known, d, item, mint);
      if !IsOptionOf(known, item.questionId, item.value) {
        UnknownChoice(known, item, isId);
      }
    } else {
      TakeText(known, d, item, mint);
      if IdTaken(d.options, mint(|d.options|)) {
        MintedIdsAreFree(known, d.options, mint);
      }
    }
  }

  lemma KnownInParts(known: seq<OptionRow>, a: seq<Want>, b: seq<Want>)
    ensures ChoicesKnown(known, a + b) ==> ChoicesKnown(known, a) && ChoicesKnown(known, b)
  {
    if ChoicesKnown(known, a + b) {
      assert forall i | 0 <= i < |a| :: a[i] == (a + b)[i];
      assert forall i | 0 <= i < |b| :: b[i] == (a + b)[|a| + i];
    }
  }

  lemma {:induction false} TakeAllSaysWhy(
      known: seq<OptionRow>, d: Draft, items: seq<Item>, mint: nat -> string, isId: string -> bool)
    requires forall v :: isId(v) == IsUuid(v)
    requires d.refusal.None? && Minted(known, d.options, mint)
    ensures var r := TakeAll(known, d, items, mint).refusal;
      r.Some? ==>
        || (r.value == InvalidOption && !ChoicesKnown(known, ItemWants(items, isId)))
        || (r.value == IdInUse && !FreshIds(known, mint))
    decreases |items|
  {
    if items != [] {
      var next := Take(known, d, items[0], mint);
      TakeSaysWhy(known, d, items[0], mint, isId);
      ItemWantsFirst(items, isId);
      KnownInParts(known, ItemWants([items[0]], isId), ItemWants(items[1..], isId));
      if next.refusal.None? {
        TakeAllSaysWhy(known, next, items[1..], mint, isId);
      } else {
        assert TakeAll(known, next, items[1..], mint) == next;
      }
    }
  }

  lemma RefusedDraftSaysWhy(st: State, req: Request)
    ensures var r := Build(st, req).refusal;
      r.Some? ==>
        || (r.value == InvalidOption
            && !ChoicesKnown(st.options, Wants(st.questions, req.surveyId, req.entries, UuidForm)))
        || (r.value == IdInUse && !FreshIds(st.options, req.mint))
  {
    UuidsAre();
    WantsOfItems(st.questions, req.surveyId, req.entries, UuidForm);
    TakeAllSaysWhy(st.options, EmptyDraft(st.options),
                   Items(QuestionsOf(st.questions, req.surveyId), req.entries), req.mint, UuidForm);
  }

  /** A refused submission stores no answer, what its refusal says is so, and no earlier guard would have refused it. */
  lemma RefusedSubmissionSaysWhy(st: State, req: Request, now: int)
    requires DistinctOptions(st.options) && UniqueHashes(st.ballots) && Submit(st, req, now).1.Err?
    ensures var (st', outcome) := Submit(st, req, now);
      && st' == st.(options := st'.options) && Explains(st, req, now, outcome.error)
      && forall e | Explains(st, req, now, e) && Rank(e) <= 9 :: Rank(outcome.error) <= Rank(e)
  {
    forall e | Explains(st, req, now, e) && Rank(e) <= 9 ensures Rank(Submit(st, req, now).1.error) <= Rank(e) {
      PassedGuards(st, req, now, e);
    }
    RefusedGuardSaysWhy(st, req, now);
    RefusedDraftSaysWhy(st, req);
    if CheckSubmission(st, req, now).None? && Submit(st, req, now).1.error == DuplicateBallot {
      AdmittedIff(st, req, now);
      if Unused(st.ballots, req.signature)
         && NoRepeat(st.options, Wants(st.questions, req.surveyId, req.entries, UuidForm)) {
        BallotsFit(st, req);
      }
    }
  }
}
