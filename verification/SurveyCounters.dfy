/**
 * How the Redis counters of one submission relate to the answers its loops have built.
 */
module SurveyCounters {
  import opened Base
  import opened Counting
  import opened FiniteSets
  import opened SurveyStore

  // ---- the sum of a hash ----

  ghost function SumOf(hash: Hash): nat
    decreases |hash|
  {
    if hash == map[] then 0
    else
      var f := Pick(hash.Keys);
      hash[f] + SumOf(hash - {f})
  }

  lemma {:induction false} SumRemove(hash: Hash, f: Field)
    requires f in hash
    ensures SumOf(hash) == hash[f] + SumOf(hash - {f})
    decreases |hash|
  {
    var g := Pick(hash.Keys);
    if g != f {
      SumRemove(hash - {g}, f);
      SumRemove(hash - {f}, g);
      assert hash - {g} - {f} == hash - {f} - {g};
    }
  }

  lemma SumIncrement(hash: Hash, f: Field)
    ensures SumOf(hash[f := Get(hash, f) + 1]) == SumOf(hash) + 1
  {
    var hash' := hash[f := Get(hash, f) + 1];
    SumRemove(hash', f);
    if f in hash {
      SumRemove(hash, f);
      assert hash' - {f} == hash - {f};
    } else {
      assert hash' - {f} == hash;
    }
  }

  // ---- what a group adds ----

  function Is(id: string): string -> bool {
    (x: string) => x == id
  }

  function GroupField(group: Group, f: Field): nat {
    match f
    case OptionField(id) => Count(group.optionIds, Is(id))
    case OtherCount => if group.hasOther then 1 else 0
    case AbstentionCount => 0
  }

  function GroupSize(group: Group): nat {
    |group.optionIds| + (if group.hasOther then 1 else 0)
  }

  predicate Positive(hash: Hash) {
    forall f | f in hash :: hash[f] >= 1
  }

  ghost predicate AllPositive(hashes: map<Key, Hash>) {
    forall key | key in hashes :: Positive(hashes[key])
  }

  lemma IncrementEffect(hashes: map<Key, Hash>, key: Key, field: Field, k: Key, f: Field)
    ensures var h, h' := HashAt(hashes, k), HashAt(Increment(hashes, key, field), k);
      && Get(h', f) == Get(h, f) + (if k == key && f == field then 1 else 0)
      && SumOf(h') == SumOf(h) + (if k == key then 1 else 0)
    ensures AllPositive(hashes) ==> AllPositive(Increment(hashes, key, field))
  {
    SumIncrement(HashAt(hashes, key), field);
  }

  lemma FirstField(id: string, rest: seq<string>, f: Field)
    ensures GroupField(Group([id] + rest, false), f)
         == (if f == OptionField(id) then 1 else 0) + GroupField(Group(rest, false), f)
  {
    if f.OptionField? {
      CountConcat([id], rest, Is(f.optionId));
      CountOne([], id, Is(f.optionId));
      assert [] + [id] == [id];
    }
  }

  lemma {:induction false} IncrementAllEffect(hashes: map<Key, Hash>, key: Key, ids: seq<string>, k: Key, f: Field)
    ensures var h, h' := HashAt(hashes, k), HashAt(IncrementAll(hashes, key, ids), k);
      && Get(h', f) == Get(h, f) + (if k == key then GroupField(Group(ids, false), f) else 0)
      && SumOf(h') == SumOf(h) + (if k == key then |ids| else 0)
    ensures AllPositive(hashes) ==> AllPositive(IncrementAll(hashes, key, ids))
    decreases |ids|
  {
    if ids != [] {
      var id, rest := ids[0], ids[1..];
      IncrementEffect(hashes, key, OptionField(id), k, f);
      IncrementAllEffect(Increment(hashes, key, OptionField(id)), key, rest, k, f);
      assert ids == [id] + rest;
      FirstField(id, rest, f);
    }
  }

  lemma CountGroupEffect(hashes: map<Key, Hash>, key: Key, group: Group, k: Key, f: Field)
    ensures var h, h' := HashAt(hashes, k), HashAt(CountGroup(hashes, key, group), k);
      && Get(h', f) == Get(h, f) + (if k == key then GroupField(group, f) else 0)
      && SumOf(h') == SumOf(h) + (if k == key then GroupSize(group) else 0)
    ensures AllPositive(hashes) ==> AllPositive(CountGroup(hashes, key, group))
  {
    IncrementAllEffect(hashes, key, group.optionIds, k, f);
    IncrementEffect(IncrementAll(hashes, key, group.optionIds), key, OtherCount, k, f);
  }

  predicate Distinct(order: seq<string>) {
    forall i, j | 0 <= i < j < |order| :: order[i] != order[j]
  }

  /** Each question of the submission is counted once, whatever the others. */
  lemma {:induction false} CountGroupsEffect(
      hashes: map<Key, Hash>, s: string, order: seq<string>, groups: map<string, Group>, k: Key, f: Field)
    requires Distinct(order)
    ensures var h, h' := HashAt(hashes, k), HashAt(CountGroups(hashes, s, order, groups), k);
      var counted := k.QuestionKey? && k.surveyId == s && k.questionId in order;
      && Get(h', f) == Get(h, f) + (if counted then GroupField(GroupAt(groups, k.questionId), f) else 0)
      && SumOf(h') == SumOf(h) + (if counted then GroupSize(GroupAt(groups, k.questionId)) else 0)
    ensures AllPositive(hashes) ==> AllPositive(CountGroups(hashes, s, order, groups))
    decreases |order|
  {
    if order != [] {
      var key := QuestionKey(s, order[0]);
      CountGroupEffect(hashes, key, GroupAt(groups, order[0]), k, f);
      CountGroupsEffect(CountGroup(hashes, key, GroupAt(groups, order[0])), s, order[1..], groups, k, f);
    }
  }

  // ---- groups and answers ----

  function Plain(q: string): Answer -> bool {
    (a: Answer) => a.questionId == q && !a.other
  }

  function PlainOption(q: string, id: string): Answer -> bool {
    (a: Answer) => a.questionId == q && !a.other && a.optionId == id
  }

  function Other(q: string): Answer -> bool {
    (a: Answer) => a.questionId == q && a.other
  }

  /** What the answers of one submission come to in the counters of q. */
  function AnswerField(answers: seq<Answer>, q: string, f: Field): nat {
    match f
    case OptionField(id) => Count(answers, PlainOption(q, id))
    case OtherCount => if Count(answers, Other(q)) > 0 then 1 else 0
    case AbstentionCount => 0
  }

  function AnswerSize(answers: seq<Answer>, q: string): nat {
    Count(answers, Plain(q)) + (if Count(answers, Other(q)) > 0 then 1 else 0)
  }

  predicate SizeMatches(d: Draft, q: string) {
    GroupSize(GroupAt(d.groups, q)) == AnswerSize(d.answers, q)
    && (GroupAt(d.groups, q).hasOther <==> Count(d.answers, Other(q)) > 0)
  }

  predicate FieldMatches(d: Draft, q: string, f: Field) {
    GroupField(GroupAt(d.groups, q), f) == AnswerField(d.answers, q, f)
  }

  predicate InOrder(d: Draft) {
    Distinct(d.order) && (forall q | q in d.groups :: q in d.order) && (forall q | q in d.order :: q in d.groups)
  }

  lemma AnsweredKeepsSize(d: Draft, item: Item, optionId: string, q: string)
    requires !item.Begin? && SizeMatches(d, q)
    ensures SizeMatches(Answered(d, item, optionId), q)
  {
    var a := Answer(item.questionId, optionId, item.Text? && !item.freeform);
    CountOne(d.answers, a, Plain(q));
    CountOne(d.answers, a, Other(q));
  }

  lemma OptionCounted(answers: seq<Answer>, a: Answer, ids: seq<string>, q: string, id: string)
    requires Count(ids, Is(id)) == Count(answers, PlainOption(q, id))
    ensures Count(if a.questionId == q && !a.other then ids + [a.optionId] else ids, Is(id))
         == Count(answers + [a], PlainOption(q, id))
  {
    CountOne(answers, a, PlainOption(q, id));
    CountOne(ids, a.optionId, Is(id));
  }

  lemma AnsweredKeepsField(d: Draft, item: Item, optionId: string, q: string, f: Field)
    requires !item.Begin? && SizeMatches(d, q) && FieldMatches(d, q, f)
    ensures FieldMatches(Answered(d, item, optionId), q, f)
  {
    var a := Answer(item.questionId, optionId, item.Text? && !item.freeform);
    match f
    case OptionField(id) =>
      OptionCounted(d.answers, a, GroupAt(d.groups, q).optionIds, q, id);
    case OtherCount =>
      AnsweredKeepsSize(d, item, optionId, q);
    case AbstentionCount =>
  }

  predicate BegunAt(d: Draft, items: seq<Item>, i: nat)
    requires i < |items|
  {
    items[i].Begin? || items[i].questionId in d.groups || exists j | 0 <= j < i :: items[j] == Begin(items[i].questionId)
  }

  /** Every value and text of a question comes after the start of one of its entries. */
  predicate Begun(d: Draft, items: seq<Item>) {
    forall i | 0 <= i < |items| :: BegunAt(d, items, i)
  }

  lemma BegunNext(known: seq<OptionRow>, d: Draft, items: seq<Item>, mint: nat -> string)
    requires items != [] && Begun(d, items)
    ensures Begun(Take(known, d, items[0], mint), items[1..])
  {
    var d', rest := Take(known, d, items[0], mint), items[1..];
    forall i | 0 <= i < |rest| ensures BegunAt(d', rest, i) {
      assert BegunAt(d, items, i + 1);
      if !rest[i].Begin? && rest[i].questionId !in d.groups {
        var j :| 0 <= j < i + 1 && items[j] == Begin(items[i + 1].questionId);
        assert j > 0 ==> rest[j - 1] == items[j];
      }
    }
  }

  lemma TakeKeeps(known: seq<OptionRow>, d: Draft, items: seq<Item>, mint: nat -> string, q: string, f: Field)
    requires items != [] && Begun(d, items)
    requires InOrder(d) && SizeMatches(d, q) && FieldMatches(d, q, f)
    ensures var d' := Take(known, d, items[0], mint);
      InOrder(d') && SizeMatches(d', q) && FieldMatches(d', q, f)
  {
    var item := items[0];
    assert BegunAt(d, items, 0);
    if !item.Begin? {
      var (options, resolved) := Resolve(known, d.options, item, mint(|d.options|));
      assert item.questionId in d.groups;
      if resolved.Ok? {
        AnsweredKeepsSize(d.(options := options), item, resolved.value, q);
        AnsweredKeepsField(d.(options := options), item, resolved.value, q, f);
      }
    }
  }

  lemma {:induction false} TakeAllKeeps(
      known: seq<OptionRow>, d: Draft, items: seq<Item>, mint: nat -> string, q: string, f: Field)
    requires Begun(d, items) && InOrder(d) && SizeMatches(d, q) && FieldMatches(d, q, f)
    ensures var d' := TakeAll(known, d, items, mint);
      InOrder(d') && SizeMatches(d', q) && FieldMatches(d', q, f)
    decreases |items|
  {
    if items != [] && d.refusal.None? {
      TakeKeeps(known, d, items, mint, q, f);
      BegunNext(known, d, items, mint);
      TakeAllKeeps(known, Take(known, d, items[0], mint), items[1..], mint, q, f);
    }
  }

  lemma EntryBegins(questions: seq<QuestionRow>, e: Entry, d: Draft)
    ensures Begun(d, EntryItems(questions, e))
  {
    var items := EntryItems(questions, e);
    forall i | 0 <= i < |items| ensures BegunAt(d, items, i) {
      assert items[0] == Begin(items[i].questionId);
    }
  }

  lemma BegunConcat(d: Draft, a: seq<Item>, b: seq<Item>)
    requires Begun(d, a) && Begun(d, b)
    ensures Begun(d, a + b)
  {
    var items := a + b;
    forall i | 0 <= i < |items| ensures BegunAt(d, items, i) {
      if i < |a| {
        assert BegunAt(d, a, i);
        if !a[i].Begin? && a[i].questionId !in d.groups {
          var j :| 0 <= j < i && a[j] == Begin(a[i].questionId);
          assert items[j] == a[j];
        }
      } else {
        assert BegunAt(d, b, i - |a|);
        if !items[i].Begin? && items[i].questionId !in d.groups {
          var j :| 0 <= j < i - |a| && b[j] == Begin(b[i - |a|].questionId);
          assert items[|a| + j] == b[j];
        }
      }
    }
  }

  lemma {:induction false} ItemsBegin(questions: seq<QuestionRow>, entries: seq<Entry>, d: Draft)
    ensures Begun(d, Items(questions, entries))
  {
    if entries != [] {
      EntryBegins(questions, entries[0], d);
      ItemsBegin(questions, entries[1..], d);
      BegunConcat(d, EntryItems(questions, entries[0]), Items(questions, entries[1..]));
    }
  }

  /** The counters of a submission are those of its answers, for every question and field. */
  lemma GroupsCountAnswers(st: State, req: Request, q: string, f: Field)
    ensures var d := Build(st, req);
      && InOrder(d) && SizeMatches(d, q) && FieldMatches(d, q, f)
  {
    ItemsBegin(QuestionsOf(st.questions, req.surveyId), req.entries, EmptyDraft(st.options));
    TakeAllKeeps(st.options, EmptyDraft(st.options),
                 Items(QuestionsOf(st.questions, req.surveyId), req.entries), req.mint, q, f);
  }

  /** What a committed submission does to the counters of question q of survey s. */
  lemma CommitCounts(st: State, req: Request, s: string, q: string, f: Field)
    ensures var d := Build(st, req);
      var h, h' := HashAt(st.hashes, QuestionKey(s, q)), HashAt(Commit(st, req, d).hashes, QuestionKey(s, q));
      var answers := StoredAnswers(req, d);
      && Get(h', f) == Get(h, f) + (if s == req.surveyId then AnswerField(answers, q, f) else 0)
      && SumOf(h') == SumOf(h) + (if s == req.surveyId then AnswerSize(answers, q) else 0)
    ensures AllPositive(st.hashes) ==> AllPositive(Commit(st, req, Build(st, req)).hashes)
  {
    var d := Build(st, req);
    GroupsCountAnswers(st, req, q, f);
    if req.isAbstention {
      IncrementEffect(st.hashes, GlobalKey(req.surveyId), AbstentionCount, QuestionKey(s, q), f);
    } else {
      CountGroupsEffect(st.hashes, req.surveyId, d.order, d.groups, QuestionKey(s, q), f);
    }
  }
}
