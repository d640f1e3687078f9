/** Runs of the audit service in which one of its promises fails. */
module AuditWitnesses {
  import opened Base
  import opened AuditChain
  import opened ChainStore
  import opened ChainScan
  import opened Sorting
  import opened AuditState
  import opened AuditRuns
  import opened AuditTampering
  import opened AuditForensics

  // ---- a sealed and overwritten block that the forensic query does not return ----

  /** Successful appends outside the voting, then its first block and a checkpoint on it. */
  function LateVoting(before: seq<Step>, first: Context, v: string, now: int): seq<Step> {
    before + [AppendStep(first, now, false)] + [CheckpointStep(Voting(v))]
  }

  predicate AppendsOnly(steps: seq<Step>) {
    forall i | 0 <= i < |steps| :: steps[i].AppendStep?
  }

  ghost predicate Late(c: Crypto, before: seq<Step>, first: Context, v: string, t: int, now: int) {
    && Sound(c) && AppendsOnly(before) && NoFailures(before) && NoBar(first.action)
    && ClockFrom(t, before + [AppendStep(first, now, false)])
    && Touches(first, Voting(v)) && Appends(before, Voting(v)) == 0
  }

  lemma {:induction false} AppendsWriteNoMarks(c: Crypto, st: State, steps: seq<Step>)
    requires AppendsOnly(steps)
    ensures Run(c, st, steps).markers == st.markers && Run(c, st, steps).checkpoints == st.checkpoints
    decreases |steps|
  {
    if steps != [] {
      AppendsWriteNoMarks(c, Perform(c, st, steps[0]), steps[1..]);
    }
  }

  lemma {:induction false} ClockOfFront(t: int, steps: seq<Step>, last: Step)
    requires ClockFrom(t, steps + [last])
    ensures ClockFrom(t, steps)
    decreases |steps|
  {
    if steps != [] {
      assert (steps + [last])[1..] == steps[1..] + [last];
      ClockOfFront(if steps[0].AppendStep? then steps[0].now else t, steps[1..], last);
    }
  }

  lemma {:induction false} AppendsThen(steps: seq<Step>, ctx: Context, now: int, scope: Scope)
    ensures Appends(steps + [AppendStep(ctx, now, false)], scope)
         == Appends(steps, scope) + (if Touches(ctx, scope) then 1 else 0)
    decreases |steps|
  {
    if steps == [] {
      assert [AppendStep(ctx, now, false)][1..] == [];
    } else {
      assert (steps + [AppendStep(ctx, now, false)])[1..] == steps[1..] + [AppendStep(ctx, now, false)];
      AppendsThen(steps[1..], ctx, now, scope);
    }
  }

  lemma {:induction false} AppendsGlobally(steps: seq<Step>)
    requires AppendsOnly(steps)
    ensures Appends(steps, Global) == |steps|
    decreases |steps|
  {
    if steps != [] {
      AppendsGlobally(steps[1..]);
    }
  }

  /** The voting's first block takes the next global number and is alone in its chain. */
  lemma FirstBlock(c: Crypto, before: seq<Step>, first: Context, v: string, t: int, now: int)
    requires Late(c, before, first, v, t, now)
    ensures var st := Run(c, EMPTY, before);
      var b, st' := NewBlock(c, st, first, now), Append(c, st, first, now, false);
      && b.sequence == |before| + 1 && Num(Voting(v), b) == 1
      && Chain(st'.log, Voting(v)) == [b] && st'.markers == map[] && st'.checkpoints == map[]
  {
    var st, scope := Run(c, EMPTY, before), Voting(v);
    RunKeepsComplete(c, EMPTY, before, scope);
    RunKeepsComplete(c, EMPTY, before, Global);
    AppendsGlobally(before);
    NeverRejected(c, st, first, now);
    assert Numbered(st, scope);
    StoredAppend(c, st, first, now, scope);
    AppendedBlock(c, st, first, now, scope);
    AppendedBlock(c, st, first, now, Global);
    AppendsWriteNoMarks(c, EMPTY, before);
    assert Chain(st.log, scope) == [];
  }

  lemma NoFailuresThen(before: seq<Step>, first: Context, now: int)
    requires NoFailures(before) && NoBar(first.action)
    ensures NoFailures(before + [AppendStep(first, now, false)])
  {
  }

  /** Its chain passes the scan, and numbers are unique. */
  lemma FirstBlockPasses(c: Crypto, before: seq<Step>, first: Context, v: string, t: int, now: int)
    requires Late(c, before, first, v, t, now)
    ensures var st := Run(c, EMPTY, before + [AppendStep(first, now, false)]);
      FullScan(c, st.log, Voting(v)) == Valid(1) && AllNumbered(st)
  {
    var steps, scope := before + [AppendStep(first, now, false)], Voting(v);
    NoFailuresThen(before, first, now);
    AppendsThen(before, first, now, scope);
    SuccessfulRunsAreValid(c, steps, t, scope);
    RunKeepsComplete(c, EMPTY, steps, scope);
  }

  /** A checkpoint on a one-block chain is respected. */
  lemma SealOnOneBlock(st: State, scope: Scope, b: Block)
    requires UniqueNumbers(st.log, Global) && UniqueNumbers(st.log, scope)
    requires Chain(st.log, scope) == [b] && st.checkpoints == map[]
    ensures CreateCheckpoint(st, scope) == Ok(st.(checkpoints := map[scope := [Checkpoint(b.sequence, b.hash)]]))
    ensures var sealed := st.(checkpoints := map[scope := [Checkpoint(b.sequence, b.hash)]]);
      BrokenCheckpoint(sealed, scope).None? && IsSealed(sealed, scope, b.sequence)
  {
    var cp, none: seq<Checkpoint> := Checkpoint(b.sequence, b.hash), [];
    assert none + [cp] == [cp];
    assert Sort([cp], BySequence()) == [cp] by { assert [cp][1..] == []; }
    QueryFacts(st.log, scope, None);
    assert b in Chain(st.log, scope);
    FindUnique(st.log, b);
    assert [cp][0].sequence == b.sequence;
  }

  /** No block of the voting's chain of one is numbered from 2 on. */
  lemma NothingAround(st: State, scope: Scope, hash: string)
    requires UniqueNumbers(st.log, Global) && UniqueNumbers(st.log, scope)
    requires |Chain(st.log, scope)| == 1 && Num(scope, Chain(st.log, scope)[0]) == 1
    requires Chain(st.log, scope)[0].sequence >= 3
    ensures Around(AfterTamper(st, scope, 0, hash).log, scope, Chain(st.log, scope)[0].sequence) == []
  {
    var b, log' := Chain(st.log, scope)[0], AfterTamper(st, scope, 0, hash).log;
    TamperedChain(st.log, scope, 0, hash);
    TamperKeepsNumbers(b, hash, scope);
    NothingBeyond(log', scope, b.sequence);
    NothingBeyond(log', scope, b.sequence - 1);
  }

  lemma SealedBlockIsLost(c: Crypto, st: State, scope: Scope, hash: string, at: int)
    requires UniqueNumbers(st.log, Global) && UniqueNumbers(st.log, scope)
    requires |Chain(st.log, scope)| == 1 && Num(scope, Chain(st.log, scope)[0]) == 1
    requires Chain(st.log, scope)[0].sequence >= 3 && hash != Chain(st.log, scope)[0].hash
    requires FullScan(c, st.log, scope).Valid? && st.markers == map[]
    requires BrokenCheckpoint(st, scope).None? && IsSealed(st, scope, Chain(st.log, scope)[0].sequence)
    ensures Overwrite(c, st, scope, 0, hash, at) && Returns(c, st, scope, 0, hash, at) == []
  {
    ForcedReport(c, st, scope, 0, hash, at);
    NothingAround(st, scope, hash);
  }

  /** The state such a run ends in: the first block sealed, and nothing else marked. */
  lemma LateState(c: Crypto, before: seq<Step>, first: Context, v: string, t: int, now: int)
    requires Late(c, before, first, v, t, now)
    ensures var b, log := NewBlock(c, Run(c, EMPTY, before), first, now),
                          Run(c, EMPTY, before + [AppendStep(first, now, false)]).log;
      var st := Run(c, EMPTY, LateVoting(before, first, v, now));
      && st.log == log && st.markers == map[] && Chain(log, Voting(v)) == [b]
      && BrokenCheckpoint(st, Voting(v)).None? && IsSealed(st, Voting(v), b.sequence)
  {
    var scope, last := Voting(v), AppendStep(first, now, false);
    FirstBlock(c, before, first, v, t, now);
    FirstBlockPasses(c, before, first, v, t, now);
    RunThen(c, EMPTY, before, last);
    RunThen(c, EMPTY, before + [last], CheckpointStep(scope));
    var open := Run(c, EMPTY, before + [last]);
    assert Numbered(open, scope) && Numbered(open, Global);
    SealOnOneBlock(open, scope, NewBlock(c, Run(c, EMPTY, before), first, now));
  }

  /**
   * A reachable input on which the query fails: when at least two blocks come before a voting's
   * first, sealing that block and overwriting its hash makes the query return nothing.
   */
  lemma SealedTamperGoesUnreturned(
      c: Crypto, before: seq<Step>, first: Context, v: string, t: int, now: int, hash: string, at: int)
    requires Late(c, before, first, v, t, now) && |before| >= 2
    requires hash != NewBlock(c, Run(c, EMPTY, before), first, now).hash
    ensures var st := Run(c, EMPTY, LateVoting(before, first, v, now));
      && |Chain(st.log, Voting(v))| == 1 && Overwrite(c, st, Voting(v), 0, hash, at)
      && IsSealed(st, Voting(v), Chain(st.log, Voting(v))[0].sequence)
      && Returns(c, st, Voting(v), 0, hash, at) == []
  {
    LateState(c, before, first, v, t, now);
    FirstBlock(c, before, first, v, t, now);
    FirstBlockPasses(c, before, first, v, t, now);
    var open := Run(c, EMPTY, before + [AppendStep(first, now, false)]);
    assert Numbered(open, Voting(v)) && Numbered(open, Global);
    SealedBlockIsLost(c, Run(c, EMPTY, LateVoting(before, first, v, now)), Voting(v), hash, at);
  }
}
