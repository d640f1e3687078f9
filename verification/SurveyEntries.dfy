/**
 * How many Other answers a submission gives a question, read off its entries before the call and
 * off the answers its loops build.
 */
module SurveyEntries {
  import opened Base
  import opened Counting
  import opened SurveyStore
  import opened SurveyCounters

  /** An entry that gives the question an Other text: it has text and the question is not freeform. */
  function OtherEntry(questions: seq<QuestionRow>, q: string): Entry -> bool {
    (e: Entry) => e.questionId == q && e.text != ""
                  && FindQuestion(questions, q).Some? && !FindQuestion(questions, q).value.kind.Freeform?
  }

  function OtherTexts(questions: seq<QuestionRow>, entries: seq<Entry>, q: string): nat {
    Count(entries, OtherEntry(questions, q))
  }

  function OtherText(q: string): Item -> bool {
    (item: Item) => item.Text? && !item.freeform && item.questionId == q
  }

  lemma CountFirst<T>(x: T, rest: seq<T>, p: T -> bool)
    ensures Count([x] + rest, p) == (if p(x) then 1 else 0) + Count(rest, p)
  {
    CountConcat([x], rest, p);
    CountOne([], x, p);
    assert [] + [x] == [x];
  }

  lemma TakeOthers(known: seq<OptionRow>, d: Draft, item: Item, mint: nat -> string, q: string)
    requires Take(known, d, item, mint).refusal.None?
    ensures Count(Take(known, d, item, mint).answers, Other(q))
         == Count(d.answers, Other(q)) + (if OtherText(q)(item) then 1 else 0)
  {
    if !item.Begin? {
      var resolved := Resolve(known, d.options, item, mint(|d.options|)).1;
      CountOne(d.answers, Answer(item.questionId, resolved.value, item.Text? && !item.freeform), Other(q));
    }
  }

  lemma RefusedStaysRefused(known: seq<OptionRow>, d: Draft, items: seq<Item>, mint: nat -> string)
    ensures d.refusal.Some? ==> TakeAll(known, d, items, mint).refusal.Some?
  {
  }

  /** Every Other text of an unrefused draft is an answer of its own. */
  lemma {:induction false} TakeAllOthers(known: seq<OptionRow>, d: Draft, items: seq<Item>, mint: nat -> string, q: string)
    requires TakeAll(known, d, items, mint).refusal.None?
    ensures Count(TakeAll(known, d, items, mint).answers, Other(q))
         == Count(d.answers, Other(q)) + Count(items, OtherText(q))
    decreases |items|
  {
    RefusedStaysRefused(known, d, items, mint);
    if items != [] {
      var next := Take(known, d, items[0], mint);
      RefusedStaysRefused(known, next, items[1..], mint);
      TakeOthers(known, d, items[0], mint, q);
      TakeAllOthers(known, next, items[1..], mint, q);
      CountFirst(items[0], items[1..], OtherText(q));
      assert items == [items[0]] + items[1..];
    }
  }

  lemma EntryOthers(questions: seq<QuestionRow>, e: Entry, q: string)
    ensures Count(EntryItems(questions, e), OtherText(q)) == if OtherEntry(questions, q)(e) then 1 else 0
  {
    var found := FindQuestion(questions, e.questionId);
    if found.Some? {
      var start := [Begin(found.value.id)] + Values(found.value.id, e.optionIds);
      CountNone(start, OtherText(q));
      if e.text != "" {
        CountOne(start, Text(found.value.id, e.text, found.value.kind.Freeform?), OtherText(q));
      } else {
        assert EntryItems(questions, e) == start;
      }
    }
  }

  lemma {:induction false} ItemsOthers(questions: seq<QuestionRow>, entries: seq<Entry>, q: string)
    ensures Count(Items(questions, entries), OtherText(q)) == OtherTexts(questions, entries, q)
  {
    if entries != [] {
      EntryOthers(questions, entries[0], q);
      ItemsOthers(questions, entries[1..], q);
      CountConcat(EntryItems(questions, entries[0]), Items(questions, entries[1..]), OtherText(q));
      CountFirst(entries[0], entries[1..], OtherEntry(questions, q));
      assert entries == [entries[0]] + entries[1..];
    }
  }

  /** What an accepted submission records of a question's Other answers is what its entries ask for. */
  lemma RecordedOthers(st: State, req: Request, q: string)
    requires Build(st, req).refusal.None?
    ensures var record := AcceptedNow(req, Build(st, req));
      Count(record.answers, Other(q)) == OtherTexts(QuestionsOf(st.questions, req.surveyId), record.entries, q)
  {
    var questions := QuestionsOf(st.questions, req.surveyId);
    if !req.isAbstention {
      TakeAllOthers(st.options, EmptyDraft(st.options), Items(questions, req.entries), req.mint, q);
      ItemsOthers(questions, req.entries, q);
    }
  }

  // ---- one entry per question ----

  predicate OneEntryEach(entries: seq<Entry>) {
    forall i, j | 0 <= i < j < |entries| :: entries[i].questionId != entries[j].questionId
  }

  lemma {:induction false} OneEntryOneOther(questions: seq<QuestionRow>, entries: seq<Entry>, q: string)
    requires OneEntryEach(entries)
    ensures OtherTexts(questions, entries, q) <= 1
  {
    if entries != [] {
      var last := |entries| - 1;
      OneEntryOneOther(questions, entries[..last], q);
      if entries[last].questionId == q {
        CountNone(entries[..last], OtherEntry(questions, q));
      }
    }
  }
}
