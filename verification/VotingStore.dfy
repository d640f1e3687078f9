/**
 * The stored state behind votings and the effect of each operation on it: issuing a signature,
 * voting, reading results through the snapshot cache, finalising, and the guarded edits. Times
 * are in milliseconds.
 */
module VotingStore {
  import opened Base
  import opened Counting
  import opened Rows

  datatype VotingRow = VotingRow(
    isFinalized: bool, isDeleted: bool,
    startAt: Option<int>, endAt: Option<int>,
    multipleChoice: bool, allowOther: bool, minChoices: int, maxChoices: Option<int>,
    createdAt: int, broadcastInterval: int, lastBroadcastAt: Option<int>)

  datatype OptionRow = OptionRow(id: string, votingId: string, text: string, isDynamic: bool)

  /** The keyed hash of votingId:choice:signature, taken as collision-free. */
  datatype Receipt = Receipt(votingId: string, choice: string, signature: string)

  datatype Ballot = Ballot(votingId: string, optionId: Option<string>, isAbstention: bool, ballotHash: Receipt)

  datatype Participation = Participation(userId: string, votingId: string)

  /** Votings and surveys share one table: a row names the voting or the survey that issued it. */
  datatype Pending = Pending(
    userId: string, votingId: Option<string>, surveyId: Option<string>, isPractice: bool, expiresAt: int)

  datatype OptionCount = OptionCount(id: string, voteCount: nat)

  datatype Results = Results(
    options: seq<OptionCount>, totalBallots: nat, abstentionsCount: nat,
    otherTotal: Option<nat>, dynamicOptions: Option<seq<OptionCount>>, isClosed: bool)

  datatype Snapshot = Snapshot(results: Results, expiresAt: int)

  /** The decrypted tally with the total stored beside it. */
  datatype Sealed = Sealed(options: seq<OptionCount>, abstentionsCount: nat, totalBallots: nat)

  /**
   * How a token was spent: on an accepted non-practice vote, or diverted to a survey. A record kept
   * for the proofs, not stored by the program.
   */
  datatype Spent = Accepted(votingId: string, tokenHash: string, issuedHere: bool)
                 | Diverted(issuer: Option<string>, tokenHash: string)

  datatype State = State(
    votings: map<string, VotingRow>,
    options: seq<OptionRow>,
    ballots: seq<Ballot>,
    participations: set<Participation>,
    pending: map<string, Pending>,
    keys: set<string>,
    totalVotes: map<string, nat>,
    snapshots: map<string, Snapshot>,
    results: map<string, Sealed>,
    history: seq<Spent>)

  datatype Refusal =
    | NotFound | AlreadyParticipated | TokenInUse
    | InvalidToken | TokenExpired | NoSigningKey | InvalidSignature
    | IsFinalized | NotStarted | HasEnded
    | OtherNotAllowed | NothingSelected | ConflictingAbstention
    | InvalidOptions | OneChoiceOnly | TooFewChoices | TooManyChoices
    | DuplicateBallot | IdInUse
    | NotEnded | NotSecure | NoPermission | BadChoiceBounds | BallotsExist | TooFewOptions

  const HOUR: int := 3600 * 1000

  const EMPTY: State := State(map[], [], [], {}, map[], {}, map[], map[], map[], [])

  // ---- queries ----

  /** Deleted votings are invisible to every lookup. */
  function FindVoting(st: State, v: string): Option<VotingRow> {
    if v in st.votings && !st.votings[v].isDeleted then Some(st.votings[v]) else None
  }

  function OptionsOf(options: seq<OptionRow>, v: string): seq<OptionRow> {
    if options == [] then []
    else (if options[0].votingId == v then [options[0]] else []) + OptionsOf(options[1..], v)
  }

  function Kind(options: seq<OptionRow>, dynamic: bool): seq<OptionRow> {
    if options == [] then []
    else (if options[0].isDynamic == dynamic then [options[0]] else []) + Kind(options[1..], dynamic)
  }

  function ForOption(id: string): Ballot -> bool {
    (b: Ballot) => b.optionId == Some(id)
  }

  function InVoting(v: string): Ballot -> bool {
    (b: Ballot) => b.votingId == v
  }

  function AbstainedIn(v: string): Ballot -> bool {
    (b: Ballot) => b.votingId == v && b.isAbstention
  }

  function Counts(options: seq<OptionRow>, ballots: seq<Ballot>): (r: seq<OptionCount>)
    ensures |r| == |options|
    ensures forall i | 0 <= i < |r| :: r[i] == OptionCount(options[i].id, Count(ballots, ForOption(options[i].id)))
  {
    if options == [] then []
    else [OptionCount(options[0].id, Count(ballots, ForOption(options[0].id)))] + Counts(options[1..], ballots)
  }

  function Total(counts: seq<OptionCount>): nat {
    if counts == [] then 0 else counts[0].voteCount + Total(counts[1..])
  }

  // ---- issuing a blind signature ----

  function Sign(st: State, v: string, userId: string, tokenHash: string, isPractice: bool, now: int)
    : (State, Result<(), Refusal>)
  {
    if FindVoting(st, v).None? then (st, Err(NotFound))
    else if !isPractice && Participation(userId, v) in st.participations then (st, Err(AlreadyParticipated))
    else
      var keyed := st.(keys := st.keys + {v});
      if tokenHash in st.pending then (keyed, Err(TokenInUse))
      else
        (keyed.(pending := st.pending[tokenHash := Pending(userId, Some(v), None, isPractice, now + HOUR)],
                participations := if isPractice then st.participations
                                  else st.participations + {Participation(userId, v)}),
         Ok(()))
  }

  /** The survey service issues pending ballots that name no voting. */
  function SurveySign(st: State, s: string, userId: string, tokenHash: string, isPractice: bool, now: int): State {
    if tokenHash in st.pending then st
    else st.(pending := st.pending[tokenHash := Pending(userId, None, Some(s), isPractice, now + HOUR)])
  }

  /** A submission to survey s spends any live row that names no other survey, whoever issued it. */
  predicate SurveyMaySpend(st: State, s: string, tokenHash: string, now: int) {
    && tokenHash in st.pending
    && (st.pending[tokenHash].surveyId.Some? ==> st.pending[tokenHash].surveyId.value == s)
    && now <= st.pending[tokenHash].expiresAt && !st.pending[tokenHash].isPractice
  }

  /** `admitted` is the outcome of the survey's own guards, its signature check and its answers. */
  function SurveySpend(st: State, s: string, tokenHash: string, admitted: bool, now: int): State {
    if !admitted || !SurveyMaySpend(st, s, tokenHash, now) then st
    else
      st.(pending := st.pending - {tokenHash},
          history := st.history + [Diverted(st.pending[tokenHash].votingId, tokenHash)])
  }

  // ---- voting ----

  /**
   * A vote call. `other` is the trimmed text, empty for none; `signatureValid` is the outcome of
   * the blind-signature check; `newOptionId` is the id the store would give a new option.
   */
  datatype Request = Request(
    votingId: string, optionIds: seq<string>, tokenHash: string, signature: string, signatureValid: bool,
    other: string, isAbstention: bool, isPractice: bool, newOptionId: string)

  function CheckTiming(voting: VotingRow, now: int): Option<Refusal> {
    if voting.startAt.Some? && now < voting.startAt.value then Some(NotStarted)
    else if voting.endAt.Some? && now > voting.endAt.value then Some(HasEnded)
    else None
  }

  predicate IsOptionOf(options: seq<OptionRow>, v: string, id: string) {
    exists i | 0 <= i < |options| :: options[i].votingId == v && options[i].id == id
  }

  function CheckChoices(st: State, voting: VotingRow, req: Request): Option<Refusal> {
    var effective := |req.optionIds| + (if req.other != "" then 1 else 0);
    if exists i | 0 <= i < |req.optionIds| :: !IsOptionOf(st.options, req.votingId, req.optionIds[i]) then
      Some(InvalidOptions)
    else if !voting.multipleChoice && effective > 1 then Some(OneChoiceOnly)
    else if |req.optionIds| < voting.minChoices && req.other == "" then Some(TooFewChoices)
    else if voting.maxChoices.Some? && effective > voting.maxChoices.value then Some(TooManyChoices)
    else None
  }

  function CheckToken(st: State, req: Request, now: int): Option<Refusal> {
    if req.tokenHash !in st.pending then Some(InvalidToken)
    else
      var pending := st.pending[req.tokenHash];
      if pending.votingId.Some? && pending.votingId.value != req.votingId then Some(InvalidToken)
      else if pending.expiresAt < now then Some(TokenExpired)
      else if req.votingId !in st.keys then Some(NoSigningKey)
      else if !req.signatureValid then Some(InvalidSignature)
      else None
  }

  function CheckContent(st: State, voting: VotingRow, req: Request): Option<Refusal> {
    if req.other != "" && !voting.allowOther then Some(OtherNotAllowed)
    else if req.optionIds == [] && req.other == "" && !req.isAbstention then Some(NothingSelected)
    else if req.isAbstention && (req.optionIds != [] || req.other != "") then Some(ConflictingAbstention)
    else if req.optionIds != [] then CheckChoices(st, voting, req)
    else None
  }

  /** Every guard, in the order they are made; None lets the vote through. */
  function CheckVote(st: State, req: Request, now: int): Option<Refusal> {
    if CheckToken(st, req, now).Some? then CheckToken(st, req, now)
    else
      match FindVoting(st, req.votingId)
      case None => Some(NotFound)
      case Some(voting) =>
        if voting.isFinalized then Some(IsFinalized)
        else if CheckTiming(voting, now).Some? then CheckTiming(voting, now)
        else CheckContent(st, voting, req)
  }

  /** findFirst of the dynamic option with this text. */
  function FindDynamic(options: seq<OptionRow>, v: string, text: string): Option<string> {
    if options == [] then None
    else if options[0].votingId == v && options[0].text == text && options[0].isDynamic then Some(options[0].id)
    else FindDynamic(options[1..], v, text)
  }

  function OptionBallots(v: string, ids: seq<string>, signature: string): (r: seq<Ballot>)
    ensures |r| == |ids|
    ensures forall i | 0 <= i < |r| :: r[i] == Ballot(v, Some(ids[i]), false, Receipt(v, ids[i], signature))
  {
    seq(|ids|, i requires 0 <= i < |ids| => Ballot(v, Some(ids[i]), false, Receipt(v, ids[i], signature)))
  }

  /** The id the Other text is tallied under: an existing dynamic option or the new one. */
  function OtherId(st: State, req: Request): string {
    var found := FindDynamic(st.options, req.votingId, req.other);
    if found.Some? then found.value else req.newOptionId
  }

  function CreatesOption(st: State, req: Request): bool {
    req.other != "" && FindDynamic(st.options, req.votingId, req.other).None?
  }

  /** The ballots of an accepted vote: the options, then the abstention, then the Other answer. */
  function NewBallots(st: State, req: Request): seq<Ballot> {
    var v, s := req.votingId, req.signature;
    OptionBallots(v, req.optionIds, s)
    + (if req.isAbstention then [Ballot(v, None, true, Receipt(v, "abstention", s))] else [])
    + (if req.other != "" then OptionBallots(v, [OtherId(st, req)], s) else [])
  }

  /** The unique index on ballot hashes. */
  predicate UniqueHashes(ballots: seq<Ballot>) {
    UniqueBy(ballots, HashOf())
  }

  function HashOf(): Ballot -> Receipt {
    (b: Ballot) => b.ballotHash
  }

  predicate IdTaken(options: seq<OptionRow>, id: string) {
    exists i | 0 <= i < |options| :: options[i].id == id
  }

  /** What the transaction of an accepted vote refuses; nothing of it is then written. */
  function CheckCommit(st: State, req: Request): Option<Refusal> {
    if CreatesOption(st, req) && IdTaken(st.options, req.newOptionId) then Some(IdInUse)
    else if !UniqueHashes(st.ballots + NewBallots(st, req)) then Some(DuplicateBallot)
    else None
  }

  function TotalVotes(st: State, v: string): nat {
    if v in st.totalVotes then st.totalVotes[v] else 0
  }

  function Commit(st: State, req: Request): State
    requires req.tokenHash in st.pending
  {
    var v := req.votingId;
    st.(options := if CreatesOption(st, req) then st.options + [OptionRow(req.newOptionId, v, req.other, true)] else st.options,
        ballots := st.ballots + NewBallots(st, req),
        pending := st.pending - {req.tokenHash},
        totalVotes := st.totalVotes[v := TotalVotes(st, v) + 1],
        snapshots := st.snapshots - {v},
        history := st.history + [Accepted(v, req.tokenHash, st.pending[req.tokenHash].votingId == Some(v))])
  }

  predicate Practice(st: State, req: Request)
    requires req.tokenHash in st.pending
  {
    st.pending[req.tokenHash].isPractice || req.isPractice
  }

  /** The outcome says whether the vote was a practice one. A practice vote writes nothing. */
  function Vote(st: State, req: Request, now: int): (State, Result<bool, Refusal>) {
    var refusal := CheckVote(st, req, now);
    if refusal.Some? then (st, Err(refusal.value))
    else if Practice(st, req) then (st, Ok(true))
    else if CheckCommit(st, req).Some? then (st, Err(CheckCommit(st, req).value))
    else (Commit(st, req), Ok(false))
  }

  // ---- results ----

  function Recount(st: State, v: string, allowOther: bool, isClosed: bool): Results {
    var rows := OptionsOf(st.options, v);
    var listed, dynamic := Counts(Kind(rows, false), st.ballots), Counts(Kind(rows, true), st.ballots);
    var abstentions := Count(st.ballots, AbstainedIn(v));
    Results(listed, Total(listed) + Total(dynamic) + abstentions, abstentions,
            if allowOther then Some(Total(dynamic)) else None, if allowOther then Some(dynamic) else None, isClosed)
  }

  function Lookup(counts: seq<OptionCount>, id: string): nat {
    if counts == [] then 0
    else if counts[0].id == id then counts[0].voteCount
    else Lookup(counts[1..], id)
  }

  function SealedCounts(rows: seq<OptionRow>, counts: seq<OptionCount>): (r: seq<OptionCount>)
    ensures |r| == |rows|
    ensures forall i | 0 <= i < |r| :: r[i] == OptionCount(rows[i].id, Lookup(counts, rows[i].id))
  {
    seq(|rows|, i requires 0 <= i < |rows| => OptionCount(rows[i].id, Lookup(counts, rows[i].id)))
  }

  function SealedResults(st: State, v: string, sealed: Sealed, allowOther: bool, isClosed: bool): Results {
    var rows := OptionsOf(st.options, v);
    var listed := SealedCounts(Kind(rows, false), sealed.options);
    var dynamic := SealedCounts(Kind(rows, true), sealed.options);
    Results(listed, sealed.totalBallots, sealed.abstentionsCount,
            if allowOther then Some(Total(dynamic)) else None, if allowOther then Some(dynamic) else None, isClosed)
  }

  function LiveSnapshot(st: State, v: string, now: int): Option<Results> {
    if v in st.snapshots && now < st.snapshots[v].expiresAt then Some(st.snapshots[v].results) else None
  }

  function NextBroadcast(voting: VotingRow): int {
    (if voting.lastBroadcastAt.Some? then voting.lastBroadcastAt.value else voting.createdAt)
    + voting.broadcastInterval * HOUR
  }

  function IsClosed(voting: VotingRow, now: int): bool {
    voting.endAt.Some? && now > voting.endAt.value
  }

  function FreshResults(st: State, v: string, voting: VotingRow, now: int): (State, Results) {
    var results := Recount(st, v, voting.allowOther, IsClosed(voting, now));
    (if IsClosed(voting, now) then st
     else st.(snapshots := st.snapshots[v := Snapshot(results, now + 7200 * 1000)]),
     results)
  }

  function Broadcasted(st: State, v: string, voting: VotingRow, now: int): State {
    st.(votings := st.votings[v := voting.(lastBroadcastAt := Some(now))])
  }

  function GetResults(st: State, v: string, forceFresh: bool, now: int): (State, Result<Results, Refusal>) {
    match FindVoting(st, v)
    case None => (st, Err(NotFound))
    case Some(voting) =>
      var isClosed := IsClosed(voting, now);
      if voting.isFinalized && v in st.results then
        (st, Ok(SealedResults(st, v, st.results[v], voting.allowOther, isClosed)))
      else if !isClosed && !forceFresh && now < NextBroadcast(voting) && LiveSnapshot(st, v, now).Some? then
        (st, Ok(LiveSnapshot(st, v, now).value))
      else
        var st1 := if !isClosed && !forceFresh && now >= NextBroadcast(voting)
                   then Broadcasted(st, v, voting, now) else st;
        var (st2, results) := FreshResults(st1, v, voting, now);
        (st2, Ok(results))
  }

  // ---- finalising ----

  function Tally(st: State, v: string): Sealed {
    Sealed(Counts(OptionsOf(st.options, v), st.ballots),
           Count(st.ballots, AbstainedIn(v)), Count(st.ballots, InVoting(v)))
  }

  /** `secure` is the audit status of the voting's chain. */
  function Finalize(st: State, v: string, secure: bool, now: int): (State, Result<Sealed, Refusal>) {
    match FindVoting(st, v)
    case None => (st, Err(NotFound))
    case Some(voting) =>
      if voting.isFinalized then (st, Err(IsFinalized))
      else if voting.endAt.Some? && now < voting.endAt.value then (st, Err(NotEnded))
      else if !secure then (st, Err(NotSecure))
      else if v in st.results then (st, Err(IdInUse))
      else
        (st.(votings := st.votings[v := voting.(isFinalized := true)], results := st.results[v := Tally(st, v)]),
         Ok(Tally(st, v)))
  }

  // ---- guarded edits ----

  /** An update; None leaves a field as it is. `retyped` is a change of type asked for, which is only used in the check. */
  datatype Edit = Edit(
    retyped: Option<bool>, allowOther: Option<bool>, minChoices: Option<int>, maxChoices: Option<int>,
    startAt: Option<int>, endAt: Option<int>, broadcastInterval: Option<int>)

  function Or<T>(edit: Option<T>, value: T): T {
    if edit.Some? then edit.value else value
  }

  function OrKeep<T>(edit: Option<T>, value: Option<T>): Option<T> {
    if edit.Some? then edit else value
  }

  function Edited(voting: VotingRow, edit: Edit): VotingRow {
    voting.(allowOther := Or(edit.allowOther, voting.allowOther),
            minChoices := Or(edit.minChoices, voting.minChoices),
            maxChoices := OrKeep(edit.maxChoices, voting.maxChoices),
            startAt := OrKeep(edit.startAt, voting.startAt),
            endAt := OrKeep(edit.endAt, voting.endAt),
            broadcastInterval := Or(edit.broadcastInterval, voting.broadcastInterval))
  }

  predicate BadBounds(multipleChoice: bool, minChoices: Option<int>, maxChoices: Option<int>) {
    && multipleChoice && minChoices.Some? && minChoices.value != 0 && maxChoices.Some? && maxChoices.value != 0
    && minChoices.value > maxChoices.value
  }

  function Update(st: State, v: string, edit: Edit, permitted: bool, now: int): (State, Result<Results, Refusal>) {
    match FindVoting(st, v)
    case None => (st, Err(NotFound))
    case Some(voting) =>
      if !permitted then (st, Err(NoPermission))
      else if voting.isFinalized then (st, Err(IsFinalized))
      else if BadBounds(Or(edit.retyped, voting.multipleChoice), edit.minChoices, edit.maxChoices) then
        (st, Err(BadChoiceBounds))
      else GetResults(st.(votings := st.votings[v := Edited(voting, edit)]), v, false, now)
  }

  function Retext(options: seq<OptionRow>, id: string, text: string): (r: seq<OptionRow>)
    ensures |r| == |options|
    ensures forall i | 0 <= i < |r| :: r[i] == if options[i].id == id then options[i].(text := text) else options[i]
  {
    seq(|options|, i requires 0 <= i < |options| => if options[i].id == id then options[i].(text := text) else options[i])
  }

  function UpdateOption(st: State, v: string, optionId: string, text: string, permitted: bool, now: int)
    : (State, Result<Results, Refusal>)
  {
    match FindVoting(st, v)
    case None => (st, Err(NotFound))
    case Some(voting) =>
      if !permitted then (st, Err(NoPermission))
      else if voting.isFinalized then (st, Err(IsFinalized))
      else if Count(st.ballots, InVoting(v)) > 0 then (st, Err(BallotsExist))
      else if !IdTaken(st.options, optionId) then (st, Err(NotFound))
      else GetResults(st.(options := Retext(st.options, optionId, text)), v, false, now)
  }

  function Delete(st: State, v: string, permitted: bool): (State, Result<(), Refusal>) {
    match FindVoting(st, v)
    case None => (st, Err(NotFound))
    case Some(voting) =>
      if !permitted then (st, Err(NoPermission))
      else if voting.isFinalized then (st, Err(IsFinalized))
      else (st.(votings := st.votings[v := voting.(isDeleted := true)]), Ok(()))
  }

  // ---- creating ----

  datatype Draft = Draft(id: string, text: string)

  function NewRows(v: string, drafts: seq<Draft>): (r: seq<OptionRow>)
    ensures |r| == |drafts|
    ensures forall i | 0 <= i < |r| :: r[i] == OptionRow(drafts[i].id, v, drafts[i].text, false)
  {
    seq(|drafts|, i requires 0 <= i < |drafts| => OptionRow(drafts[i].id, v, drafts[i].text, false))
  }

  predicate DistinctIds(options: seq<OptionRow>) {
    forall i, j | 0 <= i < j < |options| :: options[i].id != options[j].id
  }

  /** The lower bound is checked as asked for and stored as 1 when not given; the store refuses ids that are in use. */
  function Create(st: State, v: string, row: VotingRow, minChoices: Option<int>, drafts: seq<Draft>, permitted: bool)
    : (State, Result<(), Refusal>)
  {
    if !permitted then (st, Err(NoPermission))
    else if |drafts| < 2 then (st, Err(TooFewOptions))
    else if BadBounds(row.multipleChoice, minChoices, row.maxChoices) then (st, Err(BadChoiceBounds))
    else if v in st.votings || !DistinctIds(st.options + NewRows(v, drafts)) then (st, Err(IdInUse))
    else
      (st.(votings := st.votings[v := row.(isFinalized := false, isDeleted := false, minChoices := Or(minChoices, 1),
                                           lastBroadcastAt := None)],
           options := st.options + NewRows(v, drafts)),
       Ok(()))
  }
}
