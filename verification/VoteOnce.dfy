/**
 * When the lock, the pending ballot and the unique receipts together keep a ballot token to one
 * commit. The lock only orders the calls of one user, and only until it expires; beyond that it
 * is the unique index that decides, and it refuses a second commit only over a shared receipt.
 */
module VoteOnce {
  import opened Base
  import opened RedisLock
  import opened VoteLock

  /** The call presents this token and its receipts can be stored to begin with. */
  predicate MayCommit(w: World, i: nat, token: string)
    requires i < |w.calls|
  {
    w.calls[i].ballotToken == token && Fits(w.calls[i], w.stored)
  }

  predicate Clash(w: World, i: nat, j: nat)
    requires i < |w.calls| && j < |w.calls|
  {
    !(ReceiptsOf(w.calls[i]) !! ReceiptsOf(w.calls[j]))
  }

  /** Any two calls that may commit the token share a receipt. */
  predicate AllClash(w: World, token: string) {
    forall i, j | 0 <= i < j < |w.calls| && MayCommit(w, i, token) && MayCommit(w, j, token) :: Clash(w, i, j)
  }

  /** The same, asked only of calls by different users. */
  predicate UsersClash(w: World, token: string) {
    forall i, j | 0 <= i < j < |w.calls| && MayCommit(w, i, token) && MayCommit(w, j, token)
                  && w.calls[i].user != w.calls[j].user :: Clash(w, i, j)
  }

  // ---- at most once ----

  /** The calls are those of the first world in later phases, and stored receipts stay. */
  predicate Later(first: World, w: World) {
    && |w.calls| == |first.calls| && first.stored <= w.stored
    && forall i | 0 <= i < |w.calls| :: w.calls[i].(phase := Done) == first.calls[i].(phase := Done)
  }

  /** The call has committed the token: it is past its commit and its receipts are stored. */
  predicate Committed(first: World, w: World, token: string, i: nat)
    requires Later(first, w) && i < |w.calls|
  {
    && MayCommit(first, i, token) && ReceiptsOf(w.calls[i]) <= w.stored
    && (w.calls[i].phase.Leaving? || w.calls[i].phase.Done?)
  }

  ghost predicate AtMostOnce(first: World, w: World, token: string) {
    && Later(first, w) && Commits(w, token) <= 1
    && (Commits(w, token) == 1 ==> exists i :: 0 <= i < |w.calls| && Committed(first, w, token, i))
  }

  lemma StepIsLater(first: World, w: World, step: Step)
    requires Later(first, w) && Enabled(w, step)
    ensures Later(first, Next(w, step))
  {
    forall i | 0 <= i < |w.calls| ensures Next(w, step).calls[i].(phase := Done) == first.calls[i].(phase := Done) {
      CallsMove(w, step, i);
    }
  }

  /** A step that commits this token. */
  predicate Spends(w: World, step: Step, token: string)
    requires Enabled(w, step)
  {
    step.Commit? && w.calls[step.i].ballotToken == token && Fits(w.calls[step.i], w.stored)
  }

  lemma OtherStepsKeep(first: World, w: World, step: Step, token: string)
    requires AtMostOnce(first, w, token) && Enabled(w, step) && !Spends(w, step, token)
    ensures AtMostOnce(first, Next(w, step), token)
  {
    var w' := Next(w, step);
    StepIsLater(first, w, step);
    assert Commits(w', token) == Commits(w, token);
    if Commits(w, token) == 1 {
      var i :| 0 <= i < |w.calls| && Committed(first, w, token, i);
      CallsMove(w, step, i);
      assert Committed(first, w', token, i);
    }
  }

  lemma FirstSpendKeeps(first: World, w: World, step: Step, token: string)
    requires AtMostOnce(first, w, token) && Enabled(w, step) && Spends(w, step, token) && Commits(w, token) == 0
    ensures AtMostOnce(first, Next(w, step), token) && Committed(first, Next(w, step), token, step.i)
  {
    StepIsLater(first, w, step);
    assert w.calls[step.i].(phase := Done) == first.calls[step.i].(phase := Done);
    assert Committed(first, Next(w, step), token, step.i);
  }

  /** A call that spends the token after another has shares no receipt with it. */
  lemma SecondSpendIsDisjoint(first: World, w: World, step: Step, token: string, i: nat)
    requires Later(first, w) && Enabled(w, step) && Spends(w, step, token)
    requires i < |w.calls| && Committed(first, w, token, i)
    ensures step.i != i && MayCommit(first, step.i, token) && !Clash(first, step.i, i) && !Clash(first, i, step.i)
    ensures first.calls[step.i].user == w.calls[step.i].user && first.calls[i].user == w.calls[i].user
  {
    assert w.calls[step.i].(phase := Done) == first.calls[step.i].(phase := Done);
    assert w.calls[i].(phase := Done) == first.calls[i].(phase := Done);
  }

  lemma StepKeepsOnce(first: World, w: World, step: Step, token: string)
    requires AllClash(first, token) && AtMostOnce(first, w, token) && Enabled(w, step)
    ensures AtMostOnce(first, Next(w, step), token)
  {
    if !Spends(w, step, token) {
      OtherStepsKeep(first, w, step, token);
    } else if Commits(w, token) == 0 {
      FirstSpendKeeps(first, w, step, token);
    } else {
      var i :| 0 <= i < |w.calls| && Committed(first, w, token, i);
      SecondSpendIsDisjoint(first, w, step, token, i);
      assert false;
    }
  }

  lemma {:induction false} RunKeepsOnce(first: World, w: World, steps: seq<Step>, token: string)
    requires AllClash(first, token) && AtMostOnce(first, w, token) && Runs(w, steps)
    ensures AtMostOnce(first, RunAll(w, steps), token)
    decreases |steps|
  {
    if steps != [] {
      StepKeepsOnce(first, w, steps[0], token);
      RunKeepsOnce(first, Next(w, steps[0]), steps[1..], token);
    }
  }

  // ---- twice ----

  lemma Prepend(w: World, step: Step, rest: seq<Step>)
    requires Enabled(w, step) && Runs(Next(w, step), rest)
    ensures Runs(w, [step] + rest) && RunAll(w, [step] + rest) == RunAll(Next(w, step), rest)
    ensures Timely(w, step) && RunsInTime(Next(w, step), rest) ==> RunsInTime(w, [step] + rest)
  {
    assert ([step] + rest)[1..] == rest;
  }

  /** Two calls at the point of committing the same token without a common receipt both commit. */
  lemma BothCommit(w: World, i: nat, j: nat, token: string)
    requires i < |w.calls| && j < |w.calls| && i != j
    requires MayCommit(w, i, token) && MayCommit(w, j, token) && !Clash(w, i, j)
    requires w.calls[i].phase.HasRead? && w.calls[j].phase.HasRead?
    ensures RunsInTime(w, [Commit(i), Commit(j)])
    ensures Commits(RunAll(w, [Commit(i), Commit(j)]), token) == Commits(w, token) + 2
  {
    var w1 := Next(w, Commit(i));
    assert w1.calls[j] == w.calls[j];
    Prepend(w1, Commit(j), []);
    Prepend(w, Commit(i), [Commit(j)]);
    assert [Commit(j)] + [] == [Commit(j)];
    assert [Commit(i)] + [Commit(j)] == [Commit(i), Commit(j)];
  }

  /** Calls of different users never wait for each other. */
  function Together(i: nat, j: nat): seq<Step> {
    [Acquire(i)] + ([Acquire(j)] + ([Read(i)] + ([Read(j)] + [Commit(i), Commit(j)])))
  }

  lemma UsersCommitTogether(w: World, i: nat, j: nat, token: string)
    requires Initial(w) && token in w.pending && i < |w.calls| && j < |w.calls| && w.calls[i].user != w.calls[j].user
    requires MayCommit(w, i, token) && MayCommit(w, j, token) && !Clash(w, i, j)
    ensures RunsInTime(w, Together(i, j)) && Commits(RunAll(w, Together(i, j)), token) == 2
  {
    var w1 := Next(w, Acquire(i));
    var w2 := Next(w1, Acquire(j));
    var w3 := Next(w2, Read(i));
    var w4 := Next(w3, Read(j));
    BothCommit(w4, i, j, token);
    Prepend(w3, Read(j), [Commit(i), Commit(j)]);
    Prepend(w2, Read(i), [Read(j)] + [Commit(i), Commit(j)]);
    Prepend(w1, Acquire(j), [Read(i)] + ([Read(j)] + [Commit(i), Commit(j)]));
    Prepend(w, Acquire(i), [Acquire(j)] + ([Read(i)] + ([Read(j)] + [Commit(i), Commit(j)])));
  }

  /** The second call takes the lock when the first has outlived it. */
  function Overtaking(now: int, i: nat, j: nat): seq<Step> {
    [Acquire(i)] + ([Read(i)] + ([Tick(now + LOCK_SECONDS)]
      + ([Acquire(j)] + ([Read(j)] + [Commit(i), Commit(j)]))))
  }

  lemma OvertakenCommitsTwice(w: World, i: nat, j: nat, token: string)
    requires Initial(w) && token in w.pending && i < |w.calls| && j < |w.calls| && i != j
    requires MayCommit(w, i, token) && MayCommit(w, j, token) && !Clash(w, i, j)
    ensures Runs(w, Overtaking(w.now, i, j)) && Commits(RunAll(w, Overtaking(w.now, i, j)), token) == 2
  {
    var w1 := Next(w, Acquire(i));
    var w2 := Next(w1, Read(i));
    var tick := Tick(w.now + LOCK_SECONDS);
    var w3 := Next(w2, tick);
    var w4 := Next(w3, Acquire(j));
    var w5 := Next(w4, Read(j));
    BothCommit(w5, i, j, token);
    var last := [Commit(i), Commit(j)];
    Prepend(w4, Read(j), last);
    Prepend(w3, Acquire(j), [Read(j)] + last);
    Prepend(w2, tick, [Acquire(j)] + ([Read(j)] + last));
    Prepend(w1, Read(i), [tick] + ([Acquire(j)] + ([Read(j)] + last)));
    Prepend(w, Acquire(i), [Read(i)] + ([tick] + ([Acquire(j)] + ([Read(j)] + last))));
  }

  // ---- exactly when ----

  /**
   * Over all runs, whatever expires: a pending token is committed at most once in every run
   * exactly when any two calls that may commit it share a receipt.
   */
  lemma OnceIff(w: World, token: string)
    requires Initial(w) && token in w.pending
    ensures (forall steps | Runs(w, steps) :: Commits(RunAll(w, steps), token) <= 1) <==> AllClash(w, token)
  {
    if AllClash(w, token) {
      forall steps | Runs(w, steps) ensures Commits(RunAll(w, steps), token) <= 1 {
        RunKeepsOnce(w, w, steps, token);
      }
    } else {
      var i, j :| 0 <= i < j < |w.calls| && MayCommit(w, i, token) && MayCommit(w, j, token) && !Clash(w, i, j);
      OvertakenCommitsTwice(w, i, j, token);
    }
  }

  /** In a timely run, no call of the same user is still about to commit once one has. */
  ghost predicate UsersOnce(first: World, w: World, token: string) {
    && Exclusive(w) && AtMostOnce(first, w, token)
    && (Commits(w, token) == 1 ==>
          token !in w.pending
          && exists i :: 0 <= i < |w.calls| && Committed(first, w, token, i) && AloneInUser(w, token, i))
  }

  predicate AloneInUser(w: World, token: string, i: nat)
    requires i < |w.calls|
  {
    forall j | 0 <= j < |w.calls| && w.calls[j].phase.HasRead? && w.calls[j].ballotToken == token ::
      w.calls[j].user != w.calls[i].user
  }

  lemma StepKeepsUsersOnce(first: World, w: World, step: Step, token: string)
    requires UsersClash(first, token) && UsersOnce(first, w, token) && Enabled(w, step) && Timely(w, step)
    ensures UsersOnce(first, Next(w, step), token)
  {
    var w' := Next(w, step);
    StepKeepsExclusive(w, step);
    if !Spends(w, step, token) {
      OtherStepsKeep(first, w, step, token);
      if Commits(w, token) == 1 {
        var i :| 0 <= i < |w.calls| && Committed(first, w, token, i) && AloneInUser(w, token, i);
        StillAlone(first, w, step, token, i);
      }
    } else if Commits(w, token) == 0 {
      FirstSpendKeeps(first, w, step, token);
      NowAlone(w, step, token);
    } else {
      var i :| 0 <= i < |w.calls| && Committed(first, w, token, i) && AloneInUser(w, token, i);
      SecondSpendIsDisjoint(first, w, step, token, i);
      assert false;
    }
  }

  lemma StillAlone(first: World, w: World, step: Step, token: string, i: nat)
    requires Later(first, w) && Enabled(w, step) && i < |w.calls| && token !in w.pending
    requires Committed(first, w, token, i) && AloneInUser(w, token, i)
    ensures Later(first, Next(w, step)) && token !in Next(w, step).pending
    ensures Committed(first, Next(w, step), token, i) && AloneInUser(Next(w, step), token, i)
  {
    var w' := Next(w, step);
    StepIsLater(first, w, step);
    CallsMove(w, step, i);
    forall j | 0 <= j < |w'.calls| && w'.calls[j].phase.HasRead? && w'.calls[j].ballotToken == token
      ensures w'.calls[j].user != w'.calls[i].user
    {
      CallsMove(w, step, j);
    }
  }

  lemma NowAlone(w: World, step: Step, token: string)
    requires Exclusive(w) && Enabled(w, step) && Spends(w, step, token)
    ensures token !in Next(w, step).pending && AloneInUser(Next(w, step), token, step.i)
  {
    var w' := Next(w, step);
    forall j | 0 <= j < |w'.calls| && w'.calls[j].phase.HasRead? ensures w'.calls[j].user != w'.calls[step.i].user {
      CallsMove(w, step, j);
      CallsMove(w, step, step.i);
      if w.calls[j].user == w.calls[step.i].user {
        OneActive(w, j, step.i);
      }
    }
  }

  lemma {:induction false} RunKeepsUsersOnce(first: World, w: World, steps: seq<Step>, token: string)
    requires UsersClash(first, token) && UsersOnce(first, w, token) && RunsInTime(w, steps)
    ensures UsersOnce(first, RunAll(w, steps), token)
    decreases |steps|
  {
    if steps != [] {
      StepKeepsUsersOnce(first, w, steps[0], token);
      RunKeepsUsersOnce(first, Next(w, steps[0]), steps[1..], token);
    }
  }

  /**
   * Over the runs in which no call outlives its lock: a pending token is committed at most once in
   * every such run exactly when any two calls by different users that may commit it share a
   * receipt. Calls of one user need nothing: the lock and the pending ballot see to them.
   */
  lemma TimelyOnceIff(w: World, token: string)
    requires Initial(w) && token in w.pending
    ensures (forall steps | RunsInTime(w, steps) :: Commits(RunAll(w, steps), token) <= 1) <==> UsersClash(w, token)
  {
    if UsersClash(w, token) {
      forall steps | RunsInTime(w, steps) ensures Commits(RunAll(w, steps), token) <= 1 {
        RunKeepsUsersOnce(w, w, steps, token);
      }
    } else {
      var i, j :| 0 <= i < j < |w.calls| && MayCommit(w, i, token) && MayCommit(w, j, token)
                  && w.calls[i].user != w.calls[j].user && !Clash(w, i, j);
      UsersCommitTogether(w, i, j, token);
    }
  }

  // ---- witnesses ----

  /** Two calls of one choice each, presenting one token. */
  function TwoCalls(user: string, first: Receipt, other: string, second: Receipt): World {
    World(0, map[], [Call(user, "a", "t", [first], Waiting), Call(other, "b", "t", [second], Waiting)],
          {"t"}, {}, map[])
  }

  /** For different options. */
  function DisjointChoices(user: string, other: string): World {
    TwoCalls(user, Receipt("option 1", "sig"), other, Receipt("option 2", "sig"))
  }

  /** With different receipts both calls commit, for one user once the lock has expired, for two at once. */
  lemma DifferentReceiptsCommitTwice(user: string, first: Receipt, other: string, second: Receipt)
    requires first != second
    ensures var w := TwoCalls(user, first, other, second);
      && Initial(w) && Runs(w, Overtaking(0, 0, 1)) && Commits(RunAll(w, Overtaking(0, 0, 1)), "t") == 2
      && (user != other ==> RunsInTime(w, Together(0, 1)) && Commits(RunAll(w, Together(0, 1)), "t") == 2)
  {
    var w := TwoCalls(user, first, other, second);
    assert !Clash(w, 0, 1);
    OvertakenCommitsTwice(w, 0, 1, "t");
    if user != other {
      UsersCommitTogether(w, 0, 1, "t");
    }
  }

  /** One user, an expired lock, two options: both calls commit the token. */
  lemma ExpiryAllowsTwoCommits()
    ensures var w := DisjointChoices("u", "u");
      Initial(w) && Runs(w, Overtaking(0, 0, 1)) && Commits(RunAll(w, Overtaking(0, 0, 1)), "t") == 2
  {
    DifferentReceiptsCommitTwice("u", Receipt("option 1", "sig"), "u", Receipt("option 2", "sig"));
  }

  /** Two users, nothing expired, two options: both calls commit the token. */
  lemma UsersAllowTwoCommits()
    ensures var w := DisjointChoices("u", "v");
      Initial(w) && RunsInTime(w, Together(0, 1)) && Commits(RunAll(w, Together(0, 1)), "t") == 2
  {
    DifferentReceiptsCommitTwice("u", Receipt("option 1", "sig"), "v", Receipt("option 2", "sig"));
  }

  // ---- surveys ----

  /**
   * A survey submission takes no lock between reading the pending ballot and its transaction. It is
   * a call whose lock key nobody else uses.
   */
  ghost predicate Lockless(w: World) {
    forall i, j | 0 <= i < j < |w.calls| :: w.calls[i].user != w.calls[j].user
  }

  /** So a token is submitted at most once exactly when any two submissions with it share a receipt. */
  lemma SubmittedOnceIff(w: World, token: string)
    requires Initial(w) && Lockless(w) && token in w.pending
    ensures (forall steps | RunsInTime(w, steps) :: Commits(RunAll(w, steps), token) <= 1) <==> AllClash(w, token)
    ensures (forall steps | Runs(w, steps) :: Commits(RunAll(w, steps), token) <= 1) <==> AllClash(w, token)
  {
    TimelyOnceIff(w, token);
    OnceIff(w, token);
  }

  /** Abstentions store no ballots, so no two of them share a receipt: each pair can be counted twice. */
  lemma AbstentionsCommitTwice(w: World, i: nat, j: nat, token: string)
    requires Initial(w) && Lockless(w) && token in w.pending && i < j < |w.calls|
    requires w.calls[i].ballotToken == token == w.calls[j].ballotToken
    requires w.calls[i].receipts == [] == w.calls[j].receipts
    ensures RunsInTime(w, Together(i, j)) && Commits(RunAll(w, Together(i, j)), token) == 2
  {
    UsersCommitTogether(w, i, j, token);
  }
}
