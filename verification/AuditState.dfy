/**
 * The audit service's stored state and the effect of each of its operations on it: the append
 * with its Redis counters, the verification with its marker and throttle, checkpoints, the audit
 * status and the direct overwrite of a hash.
 */
module AuditState {
  import opened Base
  import opened Serialization
  import opened AuditChain
  import opened ChainStore
  import opened ChainScan
  import opened Sorting

  datatype Marker = Marker(lastVerifiedSequence: nat, lastFullVerificationAt: Option<int>)

  datatype Checkpoint = Checkpoint(sequence: nat, hash: string)

  /** The log in insertion order, the counters in Redis, the markers, and the seals of each scope. */
  datatype State = State(
    log: seq<Block>,
    counters: map<Scope, nat>,
    markers: map<Scope, Marker>,
    checkpoints: map<Scope, seq<Checkpoint>>)

  const DAY: int := 24 * 3600 * 1000

  const EMPTY: State := State([], map[], map[], map[])

  function Counter(st: State, scope: Scope): nat {
    if scope in st.counters then st.counters[scope] else 0
  }

  function MarkerOf(st: State, scope: Scope): nat {
    if scope in st.markers then st.markers[scope].lastVerifiedSequence else 0
  }

  function LastFull(st: State, scope: Scope): Option<int> {
    if scope in st.markers then st.markers[scope].lastFullVerificationAt else None
  }

  function CheckpointsOf(st: State, scope: Scope): seq<Checkpoint> {
    if scope in st.checkpoints then st.checkpoints[scope] else []
  }

  // ---- append ----

  /** A missing or empty id means the block does not belong to such a scope. */
  predicate Present(id: Option<string>) {
    id.Some? && id.value != ""
  }

  predicate Touches(ctx: Context, scope: Scope) {
    match scope
    case Global => true
    case Group(id) => Present(ctx.groupId) && ctx.groupId.value == id
    case Voting(id) => Present(ctx.votingId) && ctx.votingId.value == id
    case Survey(id) => Present(ctx.surveyId) && ctx.surveyId.value == id
  }

  function Bump(counters: map<Scope, nat>, scope: Scope): map<Scope, nat> {
    counters[scope := (if scope in counters then counters[scope] else 0) + 1]
  }

  function BumpIf(counters: map<Scope, nat>, present: bool, scope: Scope): map<Scope, nat> {
    if present then Bump(counters, scope) else counters
  }

  function IdText(id: Option<string>): string {
    if id.Some? then id.value else ""
  }

  /** Every scope of the context takes its next number, whether or not the insert will succeed. */
  function BumpedCounters(st: State, ctx: Context): map<Scope, nat> {
    var g := Bump(st.counters, Global);
    var h := BumpIf(g, Present(ctx.groupId), Group(IdText(ctx.groupId)));
    var v := BumpIf(h, Present(ctx.votingId), Voting(IdText(ctx.votingId)));
    BumpIf(v, Present(ctx.surveyId), Survey(IdText(ctx.surveyId)))
  }

  function NextIf(st: State, present: bool, scope: Scope): Option<nat> {
    if present then Some(Counter(st, scope) + 1) else None
  }

  function LinkIf(c: Crypto, log: seq<Block>, present: bool, scope: Scope): Option<string> {
    if present then Some(LastHash(c, log, scope)) else None
  }

  function UnhashedBlock(c: Crypto, st: State, ctx: Context, now: int): Block {
    var g, v, s := Present(ctx.groupId), Present(ctx.votingId), Present(ctx.surveyId);
    var group, voting, survey := Group(IdText(ctx.groupId)), Voting(IdText(ctx.votingId)), Survey(IdText(ctx.surveyId));
    Block(
      Counter(st, Global) + 1, NextIf(st, g, group), NextIf(st, v, voting), NextIf(st, s, survey),
      ctx.action, ctx.payload, ctx.userId, ctx.groupId, ctx.votingId, ctx.surveyId,
      now,
      LastHash(c, st.log, Global),
      LinkIf(c, st.log, g, group), LinkIf(c, st.log, v, voting), LinkIf(c, st.log, s, survey),
      "")
  }

  function NewBlock(c: Crypto, st: State, ctx: Context, now: int): Block {
    var b := UnhashedBlock(c, st, ctx, now);
    b.(hash := BlockHash(c, b))
  }

  predicate SameNumber(a: Block, b: Block, scope: Scope) {
    InScope(scope, a) && NumberIn(scope, a) == NumberIn(scope, b)
  }

  /** The unique indexes of the collection: sequence, hash, and (id, number) in each scope. */
  predicate Conflict(a: Block, b: Block) {
    || a.sequence == b.sequence
    || a.hash == b.hash
    || SameNumber(a, b, Group(IdText(b.groupId)))
    || SameNumber(a, b, Voting(IdText(b.votingId)))
    || SameNumber(a, b, Survey(IdText(b.surveyId)))
  }

  predicate Rejected(log: seq<Block>, b: Block) {
    exists i | 0 <= i < |log| :: Conflict(log[i], b)
  }

  /** One append attempt; `storeFails` is any other failure of the insert transaction. */
  function Append(c: Crypto, st: State, ctx: Context, now: int, storeFails: bool): State {
    var b := NewBlock(c, st, ctx, now);
    st.(counters := BumpedCounters(st, ctx),
        log := if storeFails || Rejected(st.log, b) then st.log else st.log + [b])
  }

  // ---- checkpoints ----

  function BySequence(): (Checkpoint, Checkpoint) -> bool {
    (x: Checkpoint, y: Checkpoint) => x.sequence < y.sequence
  }

  predicate Sealed(log: seq<Block>, cp: Checkpoint) {
    var found := FindByNumber(log, Global, cp.sequence);
    found.Some? && found.value.hash == cp.hash
  }

  /** The sequence of the first seal, by sequence, whose block is missing or has another hash. */
  function FirstBrokenSeal(log: seq<Block>, cps: seq<Checkpoint>): (r: Option<nat>)
    ensures r.None? <==> forall i | 0 <= i < |cps| :: Sealed(log, cps[i])
  {
    if cps == [] then None
    else if !Sealed(log, cps[0]) then Some(cps[0].sequence)
    else
      assert forall i | 0 < i < |cps| :: cps[i] == cps[1..][i - 1];
      FirstBrokenSeal(log, cps[1..])
  }

  function BrokenCheckpoint(st: State, scope: Scope): Option<nat> {
    FirstBrokenSeal(st.log, Sort(CheckpointsOf(st, scope), BySequence()))
  }

  datatype CheckpointError = EmptyChain | AlreadySealed

  /** A seal records the global sequence of the scope's last block. */
  function CreateCheckpoint(st: State, scope: Scope): Result<State, CheckpointError> {
    match LastBlock(st.log, scope)
    case None => Err(EmptyChain)
    case Some(last) =>
      var cps := CheckpointsOf(st, scope);
      if exists i | 0 <= i < |cps| :: cps[i].sequence == last.sequence then Err(AlreadySealed)
      else Ok(st.(checkpoints := st.checkpoints[scope := cps + [Checkpoint(last.sequence, last.hash)]]))
  }

  // ---- verification ----

  /** A full verification also stamps its time; any other write keeps the earlier stamp. */
  function SetMarker(st: State, scope: Scope, sequence: nat, fullAt: Option<int>): State {
    var stamp := if fullAt.Some? then fullAt else LastFull(st, scope);
    st.(markers := st.markers[scope := Marker(sequence, stamp)])
  }

  predicate IsThrottled(st: State, scope: Scope, now: int) {
    LastFull(st, scope).Some? && now - LastFull(st, scope).value < DAY
  }

  /** The marker the scan starts from; a full scan ignores it and 0 counts as none. */
  function StartMarker(st: State, scope: Scope, forceFull: bool): nat {
    if forceFull then 0 else MarkerOf(st, scope)
  }

  function ScanFrom(c: Crypto, log: seq<Block>, scope: Scope, marker: nat): Report {
    if marker == 0 then FullScan(c, log, scope) else ScanAfter(c, log, scope, marker)
  }

  function MaxSequence(log: seq<Block>, scope: Scope): nat {
    match LastBlock(log, scope)
    case Some(b) => Num(scope, b)
    case None => 0
  }

  /** The marker write after a scan: 0 on a fault, the last number on success, none if nothing was scanned. */
  function Settle(st: State, scope: Scope, marker: nat, report: Report, fullAt: Option<int>): (r: State)
    ensures r.log == st.log && r.counters == st.counters && r.checkpoints == st.checkpoints
    ensures forall s: Scope :: s != scope ==> MarkerOf(r, s) == MarkerOf(st, s) && LastFull(r, s) == LastFull(st, s)
  {
    if report.Broken? then SetMarker(st, scope, 0, None)
    else if report == Valid(0) then st
    else
      var head := MaxSequence(st.log, scope);
      if head > marker then SetMarker(st, scope, head, fullAt) else st
  }

  function Verify(c: Crypto, st: State, scope: Scope, forceFull: bool, now: int): (r: (State, Report))
    ensures r.0.log == st.log && r.0.counters == st.counters && r.0.checkpoints == st.checkpoints
    ensures forall s: Scope :: s != scope ==> MarkerOf(r.0, s) == MarkerOf(st, s)
  {
    if forceFull && IsThrottled(st, scope, now) then (st, Throttled)
    else if BrokenCheckpoint(st, scope).Some? then (st, CheckpointBroken(BrokenCheckpoint(st, scope).value))
    else
      var marker := StartMarker(st, scope, forceFull);
      var report := ScanFrom(c, st.log, scope, marker);
      (Settle(st, scope, marker, report, if forceFull then Some(now) else None), report)
  }

  // ---- status ----

  predicate IsSecure(st: State, scope: Scope, now: int) {
    && IsThrottled(st, scope, now)
    && MarkerOf(st, scope) >= MaxSequence(st.log, scope)
  }

  // ---- direct edits and their forensics ----

  /** updateOne({sequence}, {$set: {hash}}), past the append-only hooks. */
  function Tamper(log: seq<Block>, sequence: nat, hash: string): seq<Block> {
    if log == [] then []
    else if log[0].sequence == sequence then [log[0].(hash := hash)] + log[1..]
    else [log[0]] + Tamper(log[1..], sequence, hash)
  }

  datatype Role = Tampered(corruptedHash: string, expectedHash: Option<string>)
                | Victim(victimPrevHash: Option<string>, victimExpectedPrevHash: Option<string>)

  datatype Record = Record(block: Block, role: Role)

  /** The tagged blocks for a report of the full scan. */
  function Compromised(log: seq<Block>, scope: Scope, report: Report): seq<Record> {
    match report
    case Broken(_, _, TamperedHash(expected, found, block)) =>
      var victim := FindByNumber(log, scope, Num(scope, block) + 1);
      [Record(block, Tampered(found, Some(expected)))]
      + (if victim.Some? then [Record(victim.value, Victim(LinkOf(scope, victim.value), Some(expected)))] else [])
    case Broken(_, _, BrokenLink(expected, found, block)) =>
      Predecessor(log, scope, block, Some(expected)) + [Record(block, Victim(found, Some(expected)))]
    case Broken(_, at, _) => Around(log, scope, at)
    case CheckpointBroken(at) => if at == 0 then [] else Around(log, scope, at)
    case _ => []
  }

  /** The generic break: the blocks numbered at - 1 and at in the scope. */
  function Around(log: seq<Block>, scope: Scope, at: nat): seq<Record> {
    var victim := FindByNumber(log, scope, at);
    var previous := if at == 0 then None else FindByNumber(log, scope, at - 1);
    (if previous.Some? then [Record(previous.value, Tampered(previous.value.hash, None))] else [])
    + (if victim.Some? then
         [Record(victim.value, Victim(LinkOf(scope, victim.value),
                                      if previous.Some? then Some(previous.value.hash) else None))]
       else [])
  }

  function Predecessor(log: seq<Block>, scope: Scope, block: Block, expected: Option<string>): seq<Record> {
    if Num(scope, block) == 0 then []
    else
      match FindByNumber(log, scope, Num(scope, block) - 1)
      case Some(p) => [Record(p, Tampered(p.hash, expected))]
      case None => []
  }
}
