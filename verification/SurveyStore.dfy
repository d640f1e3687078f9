/**
 * The stored state behind surveys, its Redis counters, and the effect of a submission on both:
 * guards, validation, the loop that turns answers into ballots and counter fields, and the commit.
 */
module SurveyStore {
  import opened Base
  import opened Counting
  import opened Rows

  datatype QuestionKind = SingleChoice | MultipleChoice | Scale | Freeform

  datatype ChoiceConfig = ChoiceConfig(allowOther: bool, minChoices: Option<int>, maxChoices: Option<int>)

  datatype SurveyRow = SurveyRow(isPublic: bool, isFinalized: bool, isDeleted: bool, endAt: Option<int>)

  datatype QuestionRow = QuestionRow(
    id: string, surveyId: string, kind: QuestionKind, isRequired: bool, choiceConfig: Option<ChoiceConfig>)

  datatype OptionRow = OptionRow(id: string, questionId: string, text: string, isDynamic: bool)

  /** The keyed hash of surveyId:choice:secret, taken as collision-free. */
  datatype Receipt = Receipt(surveyId: string, choice: string, secret: string)

  datatype Ballot = Ballot(questionId: string, optionId: string, ballotHash: Receipt)

  datatype Pending = Pending(surveyId: Option<string>, isPractice: bool, expiresAt: int)

  // ---- Redis ----

  datatype Key = QuestionKey(surveyId: string, questionId: string) | GlobalKey(surveyId: string)
               | ResponsesKey(surveyId: string)

  datatype Field = OptionField(optionId: string) | OtherCount | AbstentionCount

  type Hash = map<Field, nat>

  function HashAt(hashes: map<Key, Hash>, key: Key): Hash {
    if key in hashes then hashes[key] else map[]
  }

  function Get(hash: Hash, field: Field): nat {
    if field in hash then hash[field] else 0
  }

  /** HINCRBY key field 1. */
  function Increment(hashes: map<Key, Hash>, key: Key, field: Field): map<Key, Hash> {
    hashes[key := HashAt(hashes, key)[field := Get(HashAt(hashes, key), field) + 1]]
  }

  // ---- answers ----

  /** One entry of a submission; absent lists and texts are empty. */
  datatype Entry = Entry(questionId: string, optionIds: seq<string>, text: string)

  /** One stored answer. `other` says that it is free text on a choice question. */
  datatype Answer = Answer(questionId: string, optionId: string, other: bool)

  /** What one submission adds to the counters of a question. */
  datatype Group = Group(optionIds: seq<string>, hasOther: bool)

  /**
   * An accepted submission, with no entries when it abstains; kept for the proofs, not stored by
   * the program.
   */
  datatype Accepted = Accepted(surveyId: string, entries: seq<Entry>, answers: seq<Answer>)

  datatype QuestionResult = QuestionResult(questionId: string, counts: seq<nat>, otherCount: Option<nat>)

  datatype Results = Results(totalResponses: nat, questions: seq<QuestionResult>)

  /**
   * `lost` records how many submissions had been accepted when Redis last lost a key; like
   * `history` it is kept for the proofs.
   */
  datatype State = State(
    surveys: map<string, SurveyRow>,
    questions: seq<QuestionRow>,
    options: seq<OptionRow>,
    ballots: seq<Ballot>,
    pending: map<string, Pending>,
    keys: set<string>,
    hashes: map<Key, Hash>,
    responses: map<string, nat>,
    results: map<string, Results>,
    history: seq<Accepted>,
    lost: map<Key, nat>)

  datatype Refusal =
    | NotFound | IsFinalized | IsClosed | HasEnded | NotMember
    | InvalidToken | TokenExpired | NoSigningKey | InvalidSignature | TokenRequired
    | Required | TooFewChoices | TooManyChoices
    | InvalidOption | IdInUse | DuplicateBallot
    | NotEnded | NotSecure

  /**
   * A submission. An absent token hash or an empty signature means none was sent; `mint(n)` is the
   * id the store would give the option it creates as its n-th.
   */
  datatype Request = Request(
    surveyId: string, userId: string, isMember: bool, entries: seq<Entry>,
    tokenHash: Option<string>, signature: string, signatureValid: bool,
    isAbstention: bool, isPractice: bool, mint: nat -> string)

  function FindSurvey(st: State, s: string): Option<SurveyRow> {
    if s in st.surveys && !st.surveys[s].isDeleted then Some(st.surveys[s]) else None
  }

  function QuestionsOf(questions: seq<QuestionRow>, s: string): seq<QuestionRow> {
    if questions == [] then []
    else (if questions[0].surveyId == s then [questions[0]] else []) + QuestionsOf(questions[1..], s)
  }

  function FindQuestion(questions: seq<QuestionRow>, id: string): (r: Option<QuestionRow>)
    ensures r.Some? ==> r.value in questions && r.value.id == id
  {
    if questions == [] then None
    else if questions[0].id == id then Some(questions[0])
    else FindQuestion(questions[1..], id)
  }

  // ---- guards ----

  function CheckSurvey(survey: SurveyRow, req: Request, now: int): Option<Refusal> {
    if survey.isFinalized then Some(IsFinalized)
    else if !req.isPractice && !survey.isPublic then Some(IsClosed)
    else if !req.isPractice && survey.endAt.Some? && now > survey.endAt.value then Some(HasEnded)
    else if !survey.isPublic && !req.isMember then Some(NotMember)
    else None
  }

  predicate HasToken(req: Request) {
    req.tokenHash.Some? && req.signature != ""
  }

  function CheckToken(st: State, req: Request, now: int): Option<Refusal> {
    if !HasToken(req) then (if req.isPractice then None else Some(TokenRequired))
    else if req.tokenHash.value !in st.pending then Some(InvalidToken)
    else
      var pending := st.pending[req.tokenHash.value];
      if pending.surveyId.Some? && pending.surveyId.value != req.surveyId then Some(InvalidToken)
      else if pending.expiresAt < now then Some(TokenExpired)
      else if req.surveyId !in st.keys then Some(NoSigningKey)
      else if !req.signatureValid then Some(InvalidSignature)
      else None
  }

  predicate Practice(st: State, req: Request) {
    req.isPractice || (HasToken(req) && req.tokenHash.value in st.pending && st.pending[req.tokenHash.value].isPractice)
  }

  /** The white space that trim removes. */
  predicate IsSpace(c: char) {
    var n := c as int;
    || 9 <= n <= 13 || n in {32, 0xA0, 0x1680, 0x2028, 0x2029, 0x202F, 0x205F, 0x3000, 0xFEFF}
    || 0x2000 <= n <= 0x200A
  }

  predicate HasInk(text: string) {
    exists i | 0 <= i < |text| :: !IsSpace(text[i])
  }

  function FindEntry(entries: seq<Entry>, questionId: string): Option<Entry> {
    if entries == [] then None
    else if entries[0].questionId == questionId then Some(entries[0])
    else FindEntry(entries[1..], questionId)
  }

  predicate Responded(entry: Option<Entry>) {
    entry.Some? && (entry.value.optionIds != [] || HasInk(entry.value.text))
  }

  /** Only the first entry of a question is looked at. */
  function CheckQuestion(question: QuestionRow, entries: seq<Entry>): Option<Refusal> {
    var entry := FindEntry(entries, question.id);
    if question.isRequired && !Responded(entry) then Some(Required)
    else if Responded(entry) && question.kind.MultipleChoice? && question.choiceConfig.Some? then
      var config, selected := question.choiceConfig.value, |entry.value.optionIds|;
      if config.minChoices.Some? && selected < config.minChoices.value then Some(TooFewChoices)
      else if config.maxChoices.Some? && selected > config.maxChoices.value then Some(TooManyChoices)
      else None
    else None
  }

  function CheckQuestions(questions: seq<QuestionRow>, entries: seq<Entry>): Option<Refusal> {
    if questions == [] then None
    else if CheckQuestion(questions[0], entries).Some? then CheckQuestion(questions[0], entries)
    else CheckQuestions(questions[1..], entries)
  }

  function CheckSubmission(st: State, req: Request, now: int): Option<Refusal> {
    match FindSurvey(st, req.surveyId)
    case None => Some(NotFound)
    case Some(survey) =>
      if CheckSurvey(survey, req, now).Some? then CheckSurvey(survey, req, now)
      else if CheckToken(st, req, now).Some? then CheckToken(st, req, now)
      else if req.isAbstention then None
      else CheckQuestions(QuestionsOf(st.questions, req.surveyId), req.entries)
  }

  // ---- building ballots ----

  predicate IsHex(c: char) {
    '0' <= c <= '9' || 'a' <= c <= 'f' || 'A' <= c <= 'F'
  }

  /** Five groups of 8, 4, 4, 4 and 12 hexadecimal digits. */
  predicate IsUuid(id: string) {
    && |id| == 36
    && forall i | 0 <= i < 36 :: if i in {8, 13, 18, 23} then id[i] == '-' else IsHex(id[i])
  }

  /** One step of the loops over a submission: begin an entry, take a chosen value, take a text. */
  datatype Item = Begin(questionId: string) | Value(questionId: string, value: string)
                | Text(questionId: string, text: string, freeform: bool)

  function Values(questionId: string, values: seq<string>): (r: seq<Item>)
    ensures |r| == |values|
    ensures forall i | 0 <= i < |r| :: r[i] == Value(questionId, values[i])
  {
    seq(|values|, i requires 0 <= i < |values| => Value(questionId, values[i]))
  }

  /** Entries for questions the survey does not have are skipped. */
  function EntryItems(questions: seq<QuestionRow>, e: Entry): seq<Item> {
    match FindQuestion(questions, e.questionId)
    case None => []
    case Some(q) =>
      [Begin(q.id)] + Values(q.id, e.optionIds) + (if e.text != "" then [Text(q.id, e.text, q.kind.Freeform?)] else [])
  }

  function Items(questions: seq<QuestionRow>, entries: seq<Entry>): seq<Item> {
    if entries == [] then []
    else EntryItems(questions, entries[0]) + Items(questions, entries[1..])
  }

  /** What the loops have built: answers in order, and the counter groups in insertion order. */
  datatype Draft = Draft(
    options: seq<OptionRow>, answers: seq<Answer>,
    order: seq<string>, groups: map<string, Group>, refusal: Option<Refusal>)

  function FindText(options: seq<OptionRow>, questionId: string, text: string): Option<string> {
    if options == [] then None
    else if options[0].questionId == questionId && options[0].text == text then Some(options[0].id)
    else FindText(options[1..], questionId, text)
  }

  predicate IdTaken(options: seq<OptionRow>, id: string) {
    exists i | 0 <= i < |options| :: options[i].id == id
  }

  predicate IsOptionOf(options: seq<OptionRow>, questionId: string, id: string) {
    exists i | 0 <= i < |options| :: options[i].questionId == questionId && options[i].id == id
  }

  /** getOrCreateDynamicOption: any option of the question with this text will do. */
  function GetOrCreate(options: seq<OptionRow>, questionId: string, text: string, id: string)
    : (seq<OptionRow>, Result<string, Refusal>)
  {
    var found := FindText(options, questionId, text);
    if found.Some? then (options, Ok(found.value))
    else if IdTaken(options, id) then (options, Err(IdInUse))
    else (options + [OptionRow(id, questionId, text, true)], Ok(id))
  }

  /** `known` are the options loaded with the survey, before any was created. */
  function Resolve(known: seq<OptionRow>, options: seq<OptionRow>, item: Item, id: string)
    : (seq<OptionRow>, Result<string, Refusal>)
    requires !item.Begin?
  {
    if item.Value? && IsUuid(item.value) then
      (options, if IsOptionOf(known, item.questionId, item.value) then Ok(item.value) else Err(InvalidOption))
    else GetOrCreate(options, item.questionId, if item.Value? then item.value else item.text, id)
  }

  function GroupAt(groups: map<string, Group>, q: string): Group {
    if q in groups then groups[q] else Group([], false)
  }

  function Opened(d: Draft, q: string): Draft {
    if q in d.groups then d else d.(order := d.order + [q], groups := d.groups[q := Group([], false)])
  }

  function Answered(d: Draft, item: Item, optionId: string): Draft
    requires !item.Begin?
  {
    var q, other := item.questionId, item.Text? && !item.freeform;
    var group := GroupAt(d.groups, q);
    d.(answers := d.answers + [Answer(q, optionId, other)],
       groups := d.groups[q := if other then group.(hasOther := true)
                               else group.(optionIds := group.optionIds + [optionId])])
  }

  function Take(known: seq<OptionRow>, d: Draft, item: Item, mint: nat -> string): Draft {
    if item.Begin? then Opened(d, item.questionId)
    else
      var (options, resolved) := Resolve(known, d.options, item, mint(|d.options|));
      match resolved
      case Err(e) => d.(options := options, refusal := Some(e))
      case Ok(id) => Answered(d.(options := options), item, id)
  }

  /** The first refusal ends the loops; the options created before it stay. */
  function TakeAll(known: seq<OptionRow>, d: Draft, items: seq<Item>, mint: nat -> string): Draft
    decreases |items|
  {
    if items == [] || d.refusal.Some? then d
    else TakeAll(known, Take(known, d, items[0], mint), items[1..], mint)
  }

  function EmptyDraft(options: seq<OptionRow>): Draft {
    Draft(options, [], [], map[], None)
  }

  function Build(st: State, req: Request): Draft {
    TakeAll(st.options, EmptyDraft(st.options),
            Items(QuestionsOf(st.questions, req.surveyId), req.entries), req.mint)
  }

  function Secret(req: Request): string {
    if req.signature != "" then req.signature else req.userId
  }

  function BallotsOf(s: string, secret: string, answers: seq<Answer>): (r: seq<Ballot>)
    ensures |r| == |answers|
    ensures forall i | 0 <= i < |r| ::
              r[i] == Ballot(answers[i].questionId, answers[i].optionId, Receipt(s, answers[i].optionId, secret))
  {
    seq(|answers|, i requires 0 <= i < |answers| =>
      Ballot(answers[i].questionId, answers[i].optionId, Receipt(s, answers[i].optionId, secret)))
  }

  // ---- counters ----

  function IncrementAll(hashes: map<Key, Hash>, key: Key, ids: seq<string>): map<Key, Hash>
    decreases |ids|
  {
    if ids == [] then hashes else IncrementAll(Increment(hashes, key, OptionField(ids[0])), key, ids[1..])
  }

  function CountGroup(hashes: map<Key, Hash>, key: Key, group: Group): map<Key, Hash> {
    var counted := IncrementAll(hashes, key, group.optionIds);
    if group.hasOther then Increment(counted, key, OtherCount) else counted
  }

  function CountGroups(hashes: map<Key, Hash>, s: string, order: seq<string>, groups: map<string, Group>): map<Key, Hash>
    decreases |order|
  {
    if order == [] then hashes
    else CountGroups(CountGroup(hashes, QuestionKey(s, order[0]), GroupAt(groups, order[0])), s, order[1..], groups)
  }

  function Responses(st: State, s: string): nat {
    if s in st.responses then st.responses[s] else 0
  }

  // ---- the submission ----

  predicate UniqueHashes(ballots: seq<Ballot>) {
    UniqueBy(ballots, HashOf())
  }

  function HashOf(): Ballot -> Receipt {
    (b: Ballot) => b.ballotHash
  }

  /** The answers whose ballots are stored: none for an abstention. */
  function StoredAnswers(req: Request, d: Draft): seq<Answer> {
    if req.isAbstention then [] else d.answers
  }

  function NewBallots(req: Request, d: Draft): seq<Ballot> {
    BallotsOf(req.surveyId, Secret(req), StoredAnswers(req, d))
  }

  function AcceptedNow(req: Request, d: Draft): Accepted {
    Accepted(req.surveyId, if req.isAbstention then [] else req.entries, StoredAnswers(req, d))
  }

  function Commit(st: State, req: Request, d: Draft): State {
    var s := req.surveyId;
    st.(options := d.options,
        ballots := st.ballots + NewBallots(req, d),
        pending := if req.tokenHash.Some? then st.pending - {req.tokenHash.value} else st.pending,
        responses := st.responses[s := Responses(st, s) + 1],
        hashes := if req.isAbstention then Increment(st.hashes, GlobalKey(s), AbstentionCount)
                  else CountGroups(st.hashes, s, d.order, d.groups),
        history := st.history + [AcceptedNow(req, d)])
  }

  /** Options created on the way stay, whatever becomes of the draft. */
  function Conclude(st: State, req: Request, d: Draft): (State, Result<bool, Refusal>) {
    if d.refusal.Some? then (st.(options := d.options), Err(d.refusal.value))
    else if Practice(st, req) then (st.(options := d.options), Ok(true))
    else if !UniqueHashes(st.ballots + NewBallots(req, d)) then (st.(options := d.options), Err(DuplicateBallot))
    else (Commit(st, req, d), Ok(false))
  }

  /** The outcome says whether the submission was a practice one. */
  function Submit(st: State, req: Request, now: int): (State, Result<bool, Refusal>) {
    var refusal := CheckSubmission(st, req, now);
    if refusal.Some? then (st, Err(refusal.value)) else Conclude(st, req, Build(st, req))
  }

  /** Redis loses a key: an eviction, a flush or a restart without its data. */
  function Lose(st: State, key: Key): State {
    var noted := st.(lost := st.lost[key := |st.history|]);
    match key
    case ResponsesKey(s) => noted.(responses := st.responses - {s})
    case _ => noted.(hashes := st.hashes - {key})
  }

  // ---- results and sealing ----

  function OptionsOf(options: seq<OptionRow>, q: string): seq<OptionRow> {
    if options == [] then []
    else (if options[0].questionId == q then [options[0]] else []) + OptionsOf(options[1..], q)
  }

  function OfQuestion(q: string): Ballot -> bool {
    (b: Ballot) => b.questionId == q
  }

  function ForOption(id: string): Ballot -> bool {
    (b: Ballot) => b.optionId == id
  }

  function DynamicBallot(options: seq<OptionRow>, q: string): Ballot -> bool {
    (b: Ballot) => b.questionId == q && exists i | 0 <= i < |options| :: options[i].id == b.optionId && options[i].isDynamic
  }

  function OfSurvey(questions: seq<QuestionRow>, s: string): Ballot -> bool {
    (b: Ballot) => FindQuestion(questions, b.questionId).Some? && FindQuestion(questions, b.questionId).value.surveyId == s
  }

  function CachedCounts(rows: seq<OptionRow>, hash: Hash): (r: seq<nat>)
    ensures |r| == |rows|
    ensures forall i | 0 <= i < |r| :: r[i] == Get(hash, OptionField(rows[i].id))
  {
    seq(|rows|, i requires 0 <= i < |rows| => Get(hash, OptionField(rows[i].id)))
  }

  function BallotCounts(rows: seq<OptionRow>, ballots: seq<Ballot>): (r: seq<nat>)
    ensures |r| == |rows|
    ensures forall i | 0 <= i < |r| :: r[i] == Count(ballots, ForOption(rows[i].id))
  {
    seq(|rows|, i requires 0 <= i < |rows| => Count(ballots, ForOption(rows[i].id)))
  }

  /** The counters when there are any, else, when the survey has responses, the stored ballots. */
  function LiveQuestion(st: State, s: string, q: QuestionRow, total: nat): QuestionResult {
    var rows, hash := OptionsOf(st.options, q.id), HashAt(st.hashes, QuestionKey(s, q.id));
    if hash == map[] && total > 0 then
      QuestionResult(q.id, BallotCounts(rows, st.ballots),
                     if q.choiceConfig.Some? && q.choiceConfig.value.allowOther
                     then Some(Count(st.ballots, DynamicBallot(st.options, q.id))) else None)
    else
      QuestionResult(q.id, CachedCounts(rows, hash), if OtherCount in hash then Some(hash[OtherCount]) else None)
  }

  function TotalResponses(st: State, s: string): nat {
    if Responses(st, s) == 0 then Count(st.ballots, OfSurvey(st.questions, s)) else Responses(st, s)
  }

  function LiveQuestions(st: State, s: string, questions: seq<QuestionRow>, total: nat): (r: seq<QuestionResult>)
    ensures |r| == |questions|
    ensures forall i | 0 <= i < |r| :: r[i] == LiveQuestion(st, s, questions[i], total)
  {
    seq(|questions|, i requires 0 <= i < |questions| => LiveQuestion(st, s, questions[i], total))
  }

  /** The results of all questions of a survey, from the counters. */
  function LiveResults(st: State, s: string): Results {
    var total := TotalResponses(st, s);
    Results(total, LiveQuestions(st, s, QuestionsOf(st.questions, s), total))
  }

  /** `secure` is the audit status of the survey's chain. */
  function Finalize(st: State, s: string, secure: bool, now: int): (State, Result<Results, Refusal>) {
    match FindSurvey(st, s)
    case None => (st, Err(NotFound))
    case Some(survey) =>
      if survey.isFinalized then (st, Err(IsFinalized))
      else if survey.endAt.Some? && now < survey.endAt.value then (st, Err(NotEnded))
      else if !secure then (st, Err(NotSecure))
      else if s in st.results then (st, Err(IdInUse))
      else
        var sealed := LiveResults(st, s);
        (st.(surveys := st.surveys[s := survey.(isFinalized := true)], results := st.results[s := sealed]), Ok(sealed))
  }
}
