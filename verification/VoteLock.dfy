/**
 * Concurrent vote calls in one voting, in small steps: take the lock, read the pending ballot,
 * commit, release, with time passing in between. The lock key is vote_lock:<voting>:<user>, so
 * there is one lock for each user; a call may present any ballot token, whoever it was issued to.
 */
module VoteLock {
  import opened Base
  import opened RedisLock

  const LOCK_SECONDS: nat := 15

  /** Where a call is; the critical phases remember when the lock was taken. */
  datatype Phase =
    | Waiting
    | Holding(since: int)
    | HasRead(since: int)
    | Leaving(since: int)
    | Done

  /** The keyed hash, within one voting, of a choice and the text of a signature. */
  datatype Receipt = Receipt(choice: string, signature: string)

  /**
   * Each call has its own lock token, presents one ballot token and would store one ballot for
   * each of its receipts.
   */
  datatype Call = Call(user: string, lockToken: string, ballotToken: string, receipts: seq<Receipt>, phase: Phase)

  /** `stored` are the ballot hashes in the table, which a unique index keeps distinct. */
  datatype World = World(
    now: int,
    locks: map<string, Lock>,
    calls: seq<Call>,
    pending: set<string>,
    stored: set<Receipt>,
    commits: map<string, nat>)

  datatype Step =
    | Acquire(i: nat)
    | Read(i: nat)
    | Refuse(i: nat)
    | Commit(i: nat)
    | Release(i: nat)
    | Tick(to: int)

  function Commits(w: World, token: string): nat {
    if token in w.commits then w.commits[token] else 0
  }

  function Entry(w: World, user: string): Option<Lock> {
    if user in w.locks then Some(w.locks[user]) else None
  }

  function WithEntry(w: World, user: string, entry: Option<Lock>): World {
    w.(locks := if entry.Some? then w.locks[user := entry.value] else w.locks - {user})
  }

  function ReceiptsOf(call: Call): set<Receipt> {
    set r | r in call.receipts
  }

  /** The unique index lets the ballots in: no receipt is repeated, and none is stored. */
  predicate Fits(call: Call, stored: set<Receipt>) {
    && (forall i, j | 0 <= i < j < |call.receipts| :: call.receipts[i] != call.receipts[j])
    && ReceiptsOf(call) !! stored
  }

  predicate Enabled(w: World, step: Step) {
    match step
    case Acquire(i) => i < |w.calls| && w.calls[i].phase.Waiting?
    case Read(i) => i < |w.calls| && w.calls[i].phase.Holding?
    case Refuse(i) => i < |w.calls| && w.calls[i].phase.HasRead?
    case Commit(i) => i < |w.calls| && w.calls[i].phase.HasRead?
    case Release(i) => i < |w.calls| && w.calls[i].phase.Leaving?
    case Tick(to) => w.now <= to
  }

  function At(w: World, i: nat, phase: Phase): World
    requires i < |w.calls|
  {
    w.(calls := w.calls[i := w.calls[i].(phase := phase)])
  }

  /**
   * A refused acquire ends the call; a missing pending ballot sends it to the release. A commit
   * that repeats or meets a stored receipt is rolled back: no ballot is added and the token stays pending.
   */
  function Next(w: World, step: Step): World
    requires Enabled(w, step)
  {
    match step
    case Acquire(i) =>
      var call := w.calls[i];
      if Live(Entry(w, call.user), w.now).Some? then At(w, i, Done)
      else WithEntry(At(w, i, Holding(w.now)), call.user, SetNx(Entry(w, call.user), call.lockToken, w.now, LOCK_SECONDS))
    case Read(i) =>
      var since := w.calls[i].phase.since;
      At(w, i, if w.calls[i].ballotToken in w.pending then HasRead(since) else Leaving(since))
    case Refuse(i) => At(w, i, Leaving(w.calls[i].phase.since))
    case Commit(i) =>
      var call := w.calls[i];
      var left := At(w, i, Leaving(call.phase.since));
      if Fits(call, w.stored) then
        left.(pending := w.pending - {call.ballotToken},
              stored := w.stored + ReceiptsOf(call),
              commits := w.commits[call.ballotToken := Commits(w, call.ballotToken) + 1])
      else left
    case Release(i) =>
      var call := w.calls[i];
      WithEntry(At(w, i, Done), call.user, DeleteIfMine(Entry(w, call.user), call.lockToken, w.now))
    case Tick(to) => w.(now := to)
  }

  predicate Active(phase: Phase) {
    phase.Holding? || phase.HasRead? || phase.Leaving?
  }

  /** Time does not pass beyond the lock's lifetime of a call that is still at work. */
  predicate Timely(w: World, step: Step) {
    step.Tick? ==>
      forall i | 0 <= i < |w.calls| && Active(w.calls[i].phase) :: step.to < w.calls[i].phase.since + LOCK_SECONDS
  }

  ghost predicate DistinctTokens(w: World) {
    forall i, j | 0 <= i < j < |w.calls| :: w.calls[i].lockToken != w.calls[j].lockToken
  }

  ghost predicate Initial(w: World) {
    && DistinctTokens(w)
    && w.locks == map[] && w.commits == map[]
    && forall i | 0 <= i < |w.calls| :: w.calls[i].phase.Waiting?
  }

  /** Steps that the calls can take, one after another. */
  predicate Runs(w: World, steps: seq<Step>)
    decreases |steps|
  {
    steps == [] || (Enabled(w, steps[0]) && Runs(Next(w, steps[0]), steps[1..]))
  }

  /** A run in which no call outlives its lock. */
  predicate RunsInTime(w: World, steps: seq<Step>): (r: bool)
    ensures r ==> Runs(w, steps)
    decreases |steps|
  {
    steps == [] || (Enabled(w, steps[0]) && Timely(w, steps[0]) && RunsInTime(Next(w, steps[0]), steps[1..]))
  }

  function RunAll(w: World, steps: seq<Step>): World
    requires Runs(w, steps)
    decreases |steps|
  {
    if steps == [] then w else RunAll(Next(w, steps[0]), steps[1..])
  }

  /** A step moves one call at most, and only through its phases. */
  lemma CallsMove(w: World, step: Step, j: nat)
    requires Enabled(w, step) && j < |w.calls|
    ensures var w' := Next(w, step);
      && |w'.calls| == |w.calls|
      && w'.calls[j].(phase := Done) == w.calls[j].(phase := Done)
      && (w'.calls[j] == w.calls[j] || (!step.Tick? && step.i == j))
      && (w.calls[j].phase.Leaving? || w.calls[j].phase.Done? ==> w'.calls[j].phase.Leaving? || w'.calls[j].phase.Done?)
  {
  }

  // ---- mutual exclusion of one user's calls while no call outlives its lock ----

  /** A call at work owns the live lock of its user. */
  ghost predicate Owns(w: World, i: nat)
    requires i < |w.calls| && Active(w.calls[i].phase)
  {
    var expiry := w.calls[i].phase.since + LOCK_SECONDS;
    Entry(w, w.calls[i].user) == Some(Lock(w.calls[i].lockToken, expiry)) && w.now < expiry
  }

  ghost predicate Exclusive(w: World) {
    DistinctTokens(w) && forall i | 0 <= i < |w.calls| && Active(w.calls[i].phase) :: Owns(w, i)
  }

  lemma OneActive(w: World, i: nat, j: nat)
    requires Exclusive(w) && i < |w.calls| && j < |w.calls| && w.calls[i].user == w.calls[j].user
    ensures Active(w.calls[i].phase) && Active(w.calls[j].phase) ==> i == j
  {
    assert Active(w.calls[i].phase) ==> Owns(w, i);
    assert Active(w.calls[j].phase) ==> Owns(w, j);
  }

  lemma DistinctTokensStay(w: World, step: Step)
    requires DistinctTokens(w) && Enabled(w, step)
    ensures DistinctTokens(Next(w, step))
  {
  }

  lemma StepKeepsExclusive(w: World, step: Step)
    requires Exclusive(w) && Enabled(w, step) && Timely(w, step)
    ensures Exclusive(Next(w, step))
  {
    var w' := Next(w, step);
    DistinctTokensStay(w, step);
    forall j | 0 <= j < |w'.calls| && Active(w'.calls[j].phase) ensures Owns(w', j) {
      CallsMove(w, step, j);
      assert Active(w.calls[j].phase) ==> Owns(w, j);
      if !step.Tick? && step.i != j && w.calls[step.i].user == w.calls[j].user {
        OneActive(w, j, step.i);
      }
    }
  }

  lemma {:induction false} TimelyRunsStayExclusive(w: World, steps: seq<Step>)
    requires Exclusive(w) && RunsInTime(w, steps)
    ensures Runs(w, steps) && Exclusive(RunAll(w, steps)) && |RunAll(w, steps).calls| == |w.calls|
    ensures forall i | 0 <= i < |w.calls| :: RunAll(w, steps).calls[i].user == w.calls[i].user
    decreases |steps|
  {
    if steps != [] {
      StepKeepsExclusive(w, steps[0]);
      TimelyRunsStayExclusive(Next(w, steps[0]), steps[1..]);
    }
  }

  /** While no call outlives its lock, two calls of one user are never both inside it. */
  lemma CriticalSectionsNeverOverlap(w: World, steps: seq<Step>, i: nat, j: nat)
    requires Initial(w) && RunsInTime(w, steps) && i < |w.calls| && j < |w.calls| && i != j
    requires w.calls[i].user == w.calls[j].user
    ensures Runs(w, steps)
    ensures var w' := RunAll(w, steps);
      && |w'.calls| == |w.calls|
      && !(Active(w'.calls[i].phase) && Active(w'.calls[j].phase))
  {
    TimelyRunsStayExclusive(w, steps);
    OneActive(RunAll(w, steps), i, j);
  }

  // ---- the release, with or without an expiry ----

  /** The entry for this user holds the token of a call of that user that has taken it. */
  ghost predicate HeldBy(w: World, user: string, i: nat)
    requires i < |w.calls|
  {
    && Entry(w, user).Some? && Entry(w, user).value.token == w.calls[i].lockToken
    && w.calls[i].user == user && !w.calls[i].phase.Waiting?
  }

  ghost predicate LocksHaveOwners(w: World) {
    DistinctTokens(w) && forall user | user in w.locks :: exists i :: 0 <= i < |w.calls| && HeldBy(w, user, i)
  }

  lemma StepKeepsOwners(w: World, step: Step)
    requires LocksHaveOwners(w) && Enabled(w, step)
    ensures LocksHaveOwners(Next(w, step))
  {
    var w' := Next(w, step);
    DistinctTokensStay(w, step);
    forall user | user in w'.locks ensures exists i :: 0 <= i < |w'.calls| && HeldBy(w', user, i) {
      if Entry(w', user) == Entry(w, user) {
        var i :| 0 <= i < |w.calls| && HeldBy(w, user, i);
        CallsMove(w, step, i);
        assert HeldBy(w', user, i);
      } else {
        assert HeldBy(w', user, step.i);
      }
    }
  }

  lemma {:induction false} RunKeepsOwners(w: World, steps: seq<Step>)
    requires LocksHaveOwners(w) && Runs(w, steps)
    ensures LocksHaveOwners(RunAll(w, steps))
    decreases |steps|
  {
    if steps != [] {
      StepKeepsOwners(w, steps[0]);
      RunKeepsOwners(Next(w, steps[0]), steps[1..]);
    }
  }

  /**
   * After any run, whatever has expired, every lock in the store was taken by a call of its own
   * user, and a release removes a lock only if the releasing call is that one.
   */
  lemma ReleaseSparesOthers(w: World, steps: seq<Step>, i: nat, user: string)
    requires Initial(w) && Runs(w, steps) && Enabled(RunAll(w, steps), Release(i))
    requires user in RunAll(w, steps).locks
    ensures var w' := RunAll(w, steps);
      exists j :: 0 <= j < |w'.calls| && HeldBy(w', user, j)
                  && (j != i ==> Entry(Next(w', Release(i)), user) == Entry(w', user))
  {
    var w' := RunAll(w, steps);
    RunKeepsOwners(w, steps);
    var j :| 0 <= j < |w'.calls| && HeldBy(w', user, j);
  }
}
