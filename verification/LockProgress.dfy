/**
 * That the lock lets calls in again. While no call outlives its lock, a key is in the store exactly
 * while a call of its user is at work, so a call is refused only over another one that is.
 */
module LockProgress {
  import opened Base
  import opened RedisLock
  import opened VoteLock

  /** A key taken when it is free is seen for its lifetime and is gone after it. */
  lemma TakenForItsLifetime(entry: Option<Lock>, token: string, now: int, ttl: nat, later: int)
    requires entry.None? || entry.value.expiresAt <= now
    ensures var seen := Live(SetNx(entry, token, now, ttl), later);
      seen == if later < now + ttl then Some(Lock(token, now + ttl)) else None
  {
  }

  /** Until then it can be taken by nobody, and deleted by the holder of its token alone. */
  lemma HeldUntilReleased(lock: Lock, token: string, now: int, ttl: nat)
    requires now < lock.expiresAt
    ensures SetNx(Some(lock), token, now, ttl) == Some(lock)
    ensures DeleteIfMine(Some(lock), token, now) == if token == lock.token then None else Some(lock)
  {
  }

  /** The release by the call that holds its user's live lock frees the user's key and no other. */
  lemma ReleaseFrees(w: World, i: nat)
    requires Enabled(w, Release(i)) && Owns(w, i)
    ensures Next(w, Release(i)).locks == w.locks - {w.calls[i].user}
    ensures Next(w, Release(i)).calls == w.calls[i := w.calls[i].(phase := Done)]
  {
  }

  /** So a waiting call of that user that acquires next is let in. */
  lemma NextCallEnters(w: World, i: nat, j: nat)
    requires Enabled(w, Release(i)) && Owns(w, i)
    requires j < |w.calls| && w.calls[j].phase.Waiting? && w.calls[j].user == w.calls[i].user
    ensures Enabled(Next(w, Release(i)), Acquire(j))
    ensures Next(Next(w, Release(i)), Acquire(j)).calls[j].phase == Holding(w.now)
  {
    ReleaseFrees(w, i);
    CallsMove(w, Release(i), j);
  }

  // ---- over all timely runs ----

  predicate Busy(w: World, user: string) {
    exists i | 0 <= i < |w.calls| :: w.calls[i].user == user && Active(w.calls[i].phase)
  }

  ghost predicate LocksInUse(w: World) {
    forall user | user in w.locks :: Busy(w, user)
  }

  lemma StepKeepsLocksInUse(w: World, step: Step)
    requires Exclusive(w) && LocksInUse(w) && Enabled(w, step) && Timely(w, step)
    ensures LocksInUse(Next(w, step))
  {
    var w' := Next(w, step);
    forall user | user in w'.locks ensures Busy(w', user) {
      if !step.Tick? && w.calls[step.i].user == user && Active(w'.calls[step.i].phase) {
        assert w'.calls[step.i].user == user;
      } else {
        assert step.Release? ==> Owns(w, step.i);
        var i :| 0 <= i < |w.calls| && w.calls[i].user == user && Active(w.calls[i].phase);
        CallsMove(w, step, i);
        assert w'.calls[i] == w.calls[i];
      }
    }
  }

  lemma {:induction false} RunKeepsLocksInUse(w: World, steps: seq<Step>)
    requires Exclusive(w) && LocksInUse(w) && RunsInTime(w, steps)
    ensures LocksInUse(RunAll(w, steps))
    decreases |steps|
  {
    if steps != [] {
      StepKeepsExclusive(w, steps[0]);
      StepKeepsLocksInUse(w, steps[0]);
      RunKeepsLocksInUse(Next(w, steps[0]), steps[1..]);
    }
  }

  /** After every timely run a user has a lock exactly while one of the user's calls is at work. */
  lemma LockedIffBusy(w: World, steps: seq<Step>, user: string)
    requires Initial(w) && RunsInTime(w, steps)
    ensures Runs(w, steps)
    ensures var w' := RunAll(w, steps);
      (user in w'.locks <==> Busy(w', user)) && (Live(Entry(w', user), w'.now).Some? <==> Busy(w', user))
  {
    var w' := RunAll(w, steps);
    TimelyRunsStayExclusive(w, steps);
    RunKeepsLocksInUse(w, steps);
    if Busy(w', user) {
      var i :| 0 <= i < |w'.calls| && w'.calls[i].user == user && Active(w'.calls[i].phase);
      assert Owns(w', i);
    }
  }

  /** And a waiting call that acquires is let in, for 15 seconds, exactly when no call of its user is at work. */
  lemma EntersIffIdle(w: World, steps: seq<Step>, j: nat)
    requires Initial(w) && RunsInTime(w, steps) && Enabled(RunAll(w, steps), Acquire(j))
    ensures var w' := RunAll(w, steps);
      var next, call := Next(w', Acquire(j)), w'.calls[j];
      if Busy(w', call.user) then next == w'.(calls := w'.calls[j := call.(phase := Done)])
      else next == w'.(calls := w'.calls[j := call.(phase := Holding(w'.now))],
                       locks := w'.locks[call.user := Lock(call.lockToken, w'.now + 15)])
  {
    LockedIffBusy(w, steps, RunAll(w, steps).calls[j].user);
  }

  /** What one call does when nothing stands in its way. */
  function OneCall(j: nat): seq<Step> {
    [Acquire(j), Read(j), Commit(j), Release(j)]
  }

  /**
   * So no earlier call of the user is in the way of a later one: after every timely run, a waiting
   * call of an idle user, with a pending token and receipts that fit, commits and leaves the user idle.
   */
  lemma IdleUserCommits(w: World, steps: seq<Step>, j: nat)
    requires Initial(w) && RunsInTime(w, steps) && Enabled(RunAll(w, steps), Acquire(j))
    requires var w', call := RunAll(w, steps), RunAll(w, steps).calls[j];
      !Busy(w', call.user) && call.ballotToken in w'.pending && Fits(call, w'.stored)
    ensures var w', call := RunAll(w, steps), RunAll(w, steps).calls[j];
      && RunsInTime(w', OneCall(j))
      && var done := RunAll(w', OneCall(j));
      && done.calls == w'.calls[j := call.(phase := Done)] && done.locks == w'.locks && done.now == w'.now
      && done.pending == w'.pending - {call.ballotToken} && done.stored == w'.stored + ReceiptsOf(call)
      && Commits(done, call.ballotToken) == Commits(w', call.ballotToken) + 1
  {
    var w0, call := RunAll(w, steps), RunAll(w, steps).calls[j];
    LockedIffBusy(w, steps, call.user);
    var w1 := Next(w0, Acquire(j));
    var w2 := Next(w1, Read(j));
    var w3 := Next(w2, Commit(j));
    var w4 := Next(w3, Release(j));
    assert OneCall(j)[1..][1..][1..][1..] == [];
    assert RunsInTime(w4, []) && RunAll(w4, []) == w4;
    assert OneCall(j)[1..][1..][1..] == [Release(j)] && OneCall(j)[1..][1..] == [Commit(j), Release(j)];
    assert OneCall(j)[1..] == [Read(j), Commit(j), Release(j)];
    assert RunsInTime(w3, [Release(j)]) && RunAll(w3, [Release(j)]) == w4;
    assert RunsInTime(w2, [Commit(j), Release(j)]) && RunAll(w2, [Commit(j), Release(j)]) == w4;
    assert RunsInTime(w1, [Read(j), Commit(j), Release(j)]) && RunAll(w1, [Read(j), Commit(j), Release(j)]) == w4;
    assert w4.locks == w0.locks;
  }

  /** A call that commits nothing: its token is not pending, a guard refuses it, or its receipts do not fit. */
  function EmptyCall(w: World, j: nat): seq<Step>
    requires j < |w.calls|
  {
    if w.calls[j].ballotToken !in w.pending then [Acquire(j), Read(j), Release(j)]
    else if Fits(w.calls[j], w.stored) then [Acquire(j), Read(j), Refuse(j), Release(j)]
    else OneCall(j)
  }

  /** The release of a call that took a free key in w and has changed nothing else. */
  lemma LastRelease(w: World, w': World, j: nat)
    requires j < |w.calls| && w.calls[j].user !in w.locks
    requires var call := w.calls[j];
      w' == w.(locks := w.locks[call.user := Lock(call.lockToken, w.now + LOCK_SECONDS)],
               calls := w.calls[j := call.(phase := Leaving(w.now))])
    ensures RunsInTime(w', [Release(j)])
    ensures RunAll(w', [Release(j)]) == w.(calls := w.calls[j := w.calls[j].(phase := Done)])
  {
    var last := Next(w', Release(j));
    assert [Release(j)][1..] == [];
    assert RunsInTime(last, []) && RunAll(last, []) == last;
    assert last.locks == w.locks;
  }

  /** It ends, and leaves everything but itself as it was. */
  lemma EmptyCallLeavesNoTrace(w: World, steps: seq<Step>, j: nat)
    requires Initial(w) && RunsInTime(w, steps) && Enabled(RunAll(w, steps), Acquire(j))
    requires !Busy(RunAll(w, steps), RunAll(w, steps).calls[j].user)
    ensures var w' := RunAll(w, steps);
      && RunsInTime(w', EmptyCall(w', j))
      && RunAll(w', EmptyCall(w', j)) == w'.(calls := w'.calls[j := w'.calls[j].(phase := Done)])
  {
    var w0, call := RunAll(w, steps), RunAll(w, steps).calls[j];
    LockedIffBusy(w, steps, call.user);
    var w2 := Next(Next(w0, Acquire(j)), Read(j));
    var done := w0.(calls := w0.calls[j := call.(phase := Done)]);
    if call.ballotToken !in w0.pending {
      LastRelease(w0, w2, j);
      assert EmptyCall(w0, j)[1..] == [Read(j), Release(j)] && EmptyCall(w0, j)[1..][1..] == [Release(j)];
    } else {
      var third := if Fits(call, w0.stored) then Refuse(j) else Commit(j);
      LastRelease(w0, Next(w2, third), j);
      var rest := [third, Release(j)];
      assert rest[1..] == [Release(j)];
      assert RunsInTime(w2, rest) && RunAll(w2, rest) == done;
      assert EmptyCall(w0, j)[1..] == [Read(j)] + rest && EmptyCall(w0, j)[1..][1..] == rest;
    }
  }

  // ---- every ballot of a commit is stored ----

  predicate Distinct(receipts: seq<Receipt>) {
    forall i, j | 0 <= i < j < |receipts| :: receipts[i] != receipts[j]
  }

  lemma {:induction false} AllDifferent(receipts: seq<Receipt>)
    requires Distinct(receipts)
    ensures |set r | r in receipts| == |receipts|
  {
    if receipts == [] {
      assert (set r | r in receipts) == {};
    } else {
      var n := |receipts| - 1;
      var front, last := receipts[..n], receipts[n];
      AllDifferent(front);
      assert receipts == front + [last];
      assert (set r | r in receipts) == (set r | r in front) + {last};
      assert last !in (set r | r in front);
    }
  }

  /** How many ballots a step stores: those of a commit whose receipts are all different and all new. */
  function Stores(w: World, step: Step): nat
    requires Enabled(w, step)
  {
    if step.Commit? && Distinct(w.calls[step.i].receipts)
       && (forall k | 0 <= k < |w.calls[step.i].receipts| :: w.calls[step.i].receipts[k] !in w.stored)
    then |w.calls[step.i].receipts| else 0
  }

  lemma StepStores(w: World, step: Step)
    requires Enabled(w, step)
    ensures w.stored <= Next(w, step).stored && |Next(w, step).stored| == |w.stored| + Stores(w, step)
  {
    if step.Commit? && Fits(w.calls[step.i], w.stored) {
      AllDifferent(w.calls[step.i].receipts);
      assert forall k | 0 <= k < |w.calls[step.i].receipts| ::
        w.calls[step.i].receipts[k] in ReceiptsOf(w.calls[step.i]);
    }
  }

  function StoresOf(w: World, steps: seq<Step>): nat
    requires Runs(w, steps)
    decreases |steps|
  {
    if steps == [] then 0 else Stores(w, steps[0]) + StoresOf(Next(w, steps[0]), steps[1..])
  }

  /** Over every run, whatever expires, the table gains exactly the ballots of those commits: none is lost or merged. */
  lemma {:induction false} NoBallotIsLost(w: World, steps: seq<Step>)
    requires Runs(w, steps)
    ensures w.stored <= RunAll(w, steps).stored && |RunAll(w, steps).stored| == |w.stored| + StoresOf(w, steps)
    decreases |steps|
  {
    if steps != [] {
      StepStores(w, steps[0]);
      NoBallotIsLost(Next(w, steps[0]), steps[1..]);
    }
  }
}
