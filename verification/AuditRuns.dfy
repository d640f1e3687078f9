/**
 * Properties of whole runs of the audit service: the chains an interleaved log carries, where
 * lost numbers show up, and why a secure status means that the whole chain passes the scan.
 */
module AuditRuns {
  import opened Base
  import opened Serialization
  import opened AuditChain
  import opened ChainStore
  import opened ChainScan
  import opened Sorting
  import opened AuditState

  /** The operations of the service other than direct edits, in any order. */
  datatype Step =
    | AppendStep(ctx: Context, now: int, storeFails: bool)
    | VerifyStep(scope: Scope, forceFull: bool, at: int)
    | ResetStep(scope: Scope)
    | CheckpointStep(scope: Scope)

  function Perform(c: Crypto, st: State, step: Step): State {
    match step
    case AppendStep(ctx, now, storeFails) => Append(c, st, ctx, now, storeFails)
    case VerifyStep(scope, forceFull, at) => Verify(c, st, scope, forceFull, at).0
    case ResetStep(scope) => SetMarker(st, scope, 0, None)
    case CheckpointStep(scope) =>
      var r := CreateCheckpoint(st, scope);
      if r.Ok? then r.value else st
  }

  function Run(c: Crypto, st: State, steps: seq<Step>): State
    decreases |steps|
  {
    if steps == [] then st else Run(c, Perform(c, st, steps[0]), steps[1..])
  }

  lemma {:induction false} RunThen(c: Crypto, st: State, steps: seq<Step>, last: Step)
    ensures Run(c, st, steps + [last]) == Perform(c, Run(c, st, steps), last)
    decreases |steps|
  {
    if steps == [] {
      assert [last][1..] == [];
    } else {
      assert (steps + [last])[1..] == steps[1..] + [last];
      RunThen(c, Perform(c, st, steps[0]), steps[1..], last);
    }
  }

  /** The clock the appends read never goes back, starting from t. */
  predicate ClockFrom(t: int, steps: seq<Step>)
    decreases |steps|
  {
    if steps == [] then true
    else if steps[0].AppendStep? then t <= steps[0].now && ClockFrom(steps[0].now, steps[1..])
    else ClockFrom(t, steps[1..])
  }

  // ---- what one append writes, seen from any scope ----

  lemma AppendedBlock(c: Crypto, st: State, ctx: Context, now: int, scope: Scope)
    ensures var b := NewBlock(c, st, ctx, now);
            && InScope(scope, b) == Touches(ctx, scope)
            && b.createdAt == now && b.hash == BlockHash(c, b)
            && (Touches(ctx, scope) ==>
                  Num(scope, b) == Counter(st, scope) + 1 && LinkOf(scope, b) == Some(LastHash(c, st.log, scope)))
  {
    var u := UnhashedBlock(c, st, ctx, now);
    assert Heads(u.(hash := BlockHash(c, u))) == Heads(u);
  }

  lemma BumpedCounter(st: State, ctx: Context, scope: Scope)
    ensures var st' := st.(counters := BumpedCounters(st, ctx));
            Counter(st', scope) == Counter(st, scope) + (if Touches(ctx, scope) then 1 else 0)
  {
  }

  // ---- the invariant of append runs ----

  /** Apart from the numbering, every check of the scan holds for block i. */
  ghost predicate LinkedAt(c: Crypto, scope: Scope, chain: seq<Block>, i: nat)
    requires i < |chain|
  {
    && BlockHash(c, chain[i]) == chain[i].hash
    && LinkOf(scope, chain[i]) == Some(if i == 0 then GenesisHash(c, scope) else chain[i - 1].hash)
    && (i > 0 ==> chain[i - 1].createdAt <= chain[i].createdAt)
  }

  ghost predicate WellLinked(c: Crypto, scope: Scope, chain: seq<Block>) {
    forall i | 0 <= i < |chain| :: LinkedAt(c, scope, chain, i)
  }

  /** Numbers are unique, positive and no larger than the scope's counter. */
  ghost predicate Numbered(st: State, scope: Scope) {
    && UniqueNumbers(st.log, scope)
    && forall b :: b in st.log && InScope(scope, b) ==> 1 <= Num(scope, b) <= Counter(st, scope)
  }

  ghost predicate NotAfter(log: seq<Block>, t: int) {
    forall b :: b in log ==> b.createdAt <= t
  }

  ghost predicate ChainInvariant(c: Crypto, st: State, scope: Scope, t: int) {
    && Numbered(st, scope)
    && WellLinked(c, scope, Chain(st.log, scope))
    && NotAfter(st.log, t)
  }

  lemma NumberedAfterAppend(c: Crypto, st: State, ctx: Context, now: int, storeFails: bool, scope: Scope)
    requires Numbered(st, scope)
    ensures var st', b := Append(c, st, ctx, now, storeFails), NewBlock(c, st, ctx, now);
            && Numbered(st', scope)
            && Chain(st'.log, scope) ==
                 if st'.log != st.log && InScope(scope, b) then Chain(st.log, scope) + [b] else Chain(st.log, scope)
  {
    var b := NewBlock(c, st, ctx, now);
    AppendedBlock(c, st, ctx, now, scope);
    BumpedCounter(st, ctx, scope);
    AppendQuery(st.log, b, scope);
    assert |st.log + [b]| == |st.log| + 1;
  }

  lemma AppendKeepsChain(c: Crypto, st: State, ctx: Context, t: int, now: int, storeFails: bool, scope: Scope)
    requires ChainInvariant(c, st, scope, t) && t <= now
    ensures ChainInvariant(c, Append(c, st, ctx, now, storeFails), scope, now)
  {
    var b, chain := NewBlock(c, st, ctx, now), Chain(st.log, scope);
    NumberedAfterAppend(c, st, ctx, now, storeFails, scope);
    AppendedBlock(c, st, ctx, now, scope);
    QueryFacts(st.log, scope, None);
    assert forall x :: x in chain ==> x.createdAt <= t;
    if InScope(scope, b) {
      WellLinkedExtends(c, scope, chain, b);
    }
  }

  lemma WellLinkedExtends(c: Crypto, scope: Scope, chain: seq<Block>, b: Block)
    requires WellLinked(c, scope, chain)
    requires b.hash == BlockHash(c, b) && forall x :: x in chain ==> x.createdAt <= b.createdAt
    requires LinkOf(scope, b) == Some(if chain == [] then GenesisHash(c, scope) else chain[|chain| - 1].hash)
    ensures WellLinked(c, scope, chain + [b])
  {
    assert chain != [] ==> chain[|chain| - 1] in chain;
    forall i | 0 <= i < |chain + [b]| ensures LinkedAt(c, scope, chain + [b], i) {
      if i < |chain| {
        assert LinkedAt(c, scope, chain, i);
      }
    }
  }

  lemma StepKeepsChain(c: Crypto, st: State, step: Step, t: int, scope: Scope)
    requires ChainInvariant(c, st, scope, t) && (step.AppendStep? ==> t <= step.now)
    ensures ChainInvariant(c, Perform(c, st, step), scope, if step.AppendStep? then step.now else t)
  {
    if step.AppendStep? {
      AppendKeepsChain(c, st, step.ctx, t, step.now, step.storeFails, scope);
    } else {
      var st' := Perform(c, st, step);
      assert st'.log == st.log && st'.counters == st.counters;
      assert Counter(st', scope) == Counter(st, scope);
    }
  }

  lemma {:induction false} RunKeepsChain(c: Crypto, st: State, steps: seq<Step>, t: int, scope: Scope) returns (t': int)
    requires ChainInvariant(c, st, scope, t) && ClockFrom(t, steps)
    ensures t' >= t && ChainInvariant(c, Run(c, st, steps), scope, t')
    decreases |steps|
  {
    t' := t;
    if steps != [] {
      var t1 := if steps[0].AppendStep? then steps[0].now else t;
      StepKeepsChain(c, st, steps[0], t, scope);
      t' := RunKeepsChain(c, Perform(c, st, steps[0]), steps[1..], t1, scope);
    }
  }

  lemma EmptyInvariant(c: Crypto, scope: Scope, t: int)
    ensures ChainInvariant(c, EMPTY, scope, t)
  {
  }

  // ---- lost numbers ----

  ghost predicate Stored(log: seq<Block>, scope: Scope, n: nat) {
    FindByNumber(log, scope, n).Some?
  }

  /** Where the scan starts counting: at 1 for a voting, at the first stored number elsewhere. */
  function FirstExpected(log: seq<Block>, scope: Scope): nat {
    var chain := Chain(log, scope);
    if scope.Voting? || chain == [] then 1 else Num(scope, chain[0])
  }

  lemma LaterGap(c: Crypto, scope: Scope, chain: seq<Block>, i: nat)
    requires 0 < i < |chain| && LinkedAt(c, scope, chain, i)
    ensures FaultAt(c, scope, FromGenesis(c, scope), chain, i) ==
              if Num(scope, chain[i]) == Num(scope, chain[i - 1]) + 1 then None
              else Some(Gap(Num(scope, chain[i - 1]) + 1, Num(scope, chain[i])))
  {
  }

  /** Along a well-linked chain the only possible fault is a gap, and it is one exactly at a jump. */
  lemma OnlyGaps(c: Crypto, st: State, scope: Scope, t: int, i: nat)
    requires ChainInvariant(c, st, scope, t) && i < |Chain(st.log, scope)|
    ensures var chain := Chain(st.log, scope);
            var expected := if i == 0 then FirstExpected(st.log, scope) else Num(scope, chain[i - 1]) + 1;
            FaultAt(c, scope, FromGenesis(c, scope), chain, i) ==
              if Num(scope, chain[i]) == expected then None else Some(Gap(expected, Num(scope, chain[i])))
  {
    var chain := Chain(st.log, scope);
    assert LinkedAt(c, scope, chain, i);
    if i > 0 {
      LaterGap(c, scope, chain, i);
    } else {
      QueryFacts(st.log, scope, None);
      assert chain[0] in chain;
    }
  }

  lemma StoredInChain(log: seq<Block>, scope: Scope, n: nat)
    requires UniqueNumbers(log, scope)
    ensures Stored(log, scope, n) <==>
              exists i | 0 <= i < |Chain(log, scope)| :: Num(scope, Chain(log, scope)[i]) == n
  {
    QueryFacts(log, scope, None);
    FindFacts(log, scope, n);
    var chain := Chain(log, scope);
    if Stored(log, scope, n) {
      var b := FindByNumber(log, scope, n).value;
      assert b in chain;
    }
    if i :| 0 <= i < |chain| && Num(scope, chain[i]) == n {
      assert chain[i] in log;
    }
  }

  /** Before the first fault the numbers run on from the first expected one without a hole. */
  lemma {:induction false} NumbersUpTo(c: Crypto, st: State, scope: Scope, t: int, k: nat)
    requires ChainInvariant(c, st, scope, t) && k <= |Chain(st.log, scope)|
    requires CleanUpTo(c, scope, FromGenesis(c, scope), Chain(st.log, scope), k)
    ensures forall i | 0 <= i < k :: Num(scope, Chain(st.log, scope)[i]) == FirstExpected(st.log, scope) + i
  {
    if k > 0 {
      NumbersUpTo(c, st, scope, t, k - 1);
      NextNumber(c, st, scope, t, k - 1);
    }
  }

  lemma NextNumber(c: Crypto, st: State, scope: Scope, t: int, i: nat)
    requires ChainInvariant(c, st, scope, t) && i < |Chain(st.log, scope)|
    requires FaultAt(c, scope, FromGenesis(c, scope), Chain(st.log, scope), i).None?
    ensures Num(scope, Chain(st.log, scope)[i])
         == if i == 0 then FirstExpected(st.log, scope) else Num(scope, Chain(st.log, scope)[i - 1]) + 1
  {
    OnlyGaps(c, st, scope, t, i);
  }

  /** No number from the first expected one up to `last` is missing from the log. */
  ghost predicate NoneLost(log: seq<Block>, scope: Scope, last: nat) {
    forall n: nat :: FirstExpected(log, scope) <= n <= last ==> Stored(log, scope, n)
  }

  /**
   * The exact verdict of the full scan in terms of lost numbers: valid exactly when no number
   * below the last stored one was lost; otherwise a gap whose expected number is the first lost
   * one and whose position is the first stored number above it.
   */
  ghost predicate FindsFirstLost(c: Crypto, log: seq<Block>, scope: Scope) {
    var last := MaxSequence(log, scope);
    match FullScan(c, log, scope)
    case Valid(total) => total == |Chain(log, scope)| && NoneLost(log, scope, last)
    case Broken(_, at, Gap(lost, got)) =>
      && at == got && FirstExpected(log, scope) <= lost < at <= last && Stored(log, scope, at)
      && NoneLost(log, scope, lost - 1) && !NoneLost(log, scope, last)
      && forall n: nat :: lost <= n < at ==> !Stored(log, scope, n)
    case _ => false
  }

  lemma StoredUpTo(c: Crypto, st: State, scope: Scope, t: int, k: nat)
    requires ChainInvariant(c, st, scope, t) && k <= |Chain(st.log, scope)|
    requires CleanUpTo(c, scope, FromGenesis(c, scope), Chain(st.log, scope), k)
    ensures forall n: nat :: FirstExpected(st.log, scope) <= n < FirstExpected(st.log, scope) + k ==>
                             Stored(st.log, scope, n)
    ensures k > 0 ==> Num(scope, Chain(st.log, scope)[k - 1]) == FirstExpected(st.log, scope) + k - 1
  {
    var chain, first := Chain(st.log, scope), FirstExpected(st.log, scope);
    NumbersUpTo(c, st, scope, t, k);
    forall n: nat | first <= n < first + k ensures Stored(st.log, scope, n) {
      assert Num(scope, chain[n - first]) == n;
      StoredInChain(st.log, scope, n);
    }
  }

  /** No stored number lies between two neighbours of the chain. */
  lemma NothingBetween(st: State, scope: Scope, k: nat, n: nat)
    requires UniqueNumbers(st.log, scope) && k < |Chain(st.log, scope)| && n < Num(scope, Chain(st.log, scope)[k])
    requires forall i | 0 <= i < k :: Num(scope, Chain(st.log, scope)[i]) < n
    ensures !Stored(st.log, scope, n)
  {
    QueryIncreasing(st.log, scope, None);
    StoredInChain(st.log, scope, n);
  }

  /** At the first gap, the expected numbers up to the block's own are not stored. */
  lemma HoleBefore(c: Crypto, st: State, scope: Scope, t: int, k: nat)
    requires ChainInvariant(c, st, scope, t) && k < |Chain(st.log, scope)|
    requires CleanUpTo(c, scope, FromGenesis(c, scope), Chain(st.log, scope), k)
    ensures Stored(st.log, scope, Num(scope, Chain(st.log, scope)[k]))
    ensures Num(scope, Chain(st.log, scope)[k]) >= FirstExpected(st.log, scope) + k
    ensures Num(scope, Chain(st.log, scope)[k]) <= MaxSequence(st.log, scope)
    ensures forall n: nat :: FirstExpected(st.log, scope) + k <= n < Num(scope, Chain(st.log, scope)[k]) ==>
                             !Stored(st.log, scope, n)
  {
    var chain, first := Chain(st.log, scope), FirstExpected(st.log, scope);
    QueryFacts(st.log, scope, None);
    QueryIncreasing(st.log, scope, None);
    assert chain[k] in st.log by { assert chain[k] in chain; }
    StoredUpTo(c, st, scope, t, k);
    StoredInChain(st.log, scope, Num(scope, chain[k]));
    NumbersUpTo(c, st, scope, t, k);
    forall n: nat | first + k <= n < Num(scope, chain[k]) ensures !Stored(st.log, scope, n) {
      NothingBetween(st, scope, k, n);
    }
  }

  lemma ValidLosesNone(c: Crypto, st: State, scope: Scope, t: int)
    requires ChainInvariant(c, st, scope, t) && Chain(st.log, scope) != [] && FullScan(c, st.log, scope).Valid?
    ensures FindsFirstLost(c, st.log, scope)
  {
    StoredUpTo(c, st, scope, t, |Chain(st.log, scope)|);
  }

  lemma BrokenAtFirstLost(c: Crypto, st: State, scope: Scope, t: int, k: nat)
    requires ChainInvariant(c, st, scope, t) && k < |Chain(st.log, scope)|
    requires FullScan(c, st.log, scope).Broken? && k == FullScan(c, st.log, scope).totalChecked - 1
    ensures FindsFirstLost(c, st.log, scope)
  {
    StoredUpTo(c, st, scope, t, k);
    OnlyGaps(c, st, scope, t, k);
    HoleBefore(c, st, scope, t, k);
    assert !Stored(st.log, scope, FirstExpected(st.log, scope) + k);
  }

  lemma ScanFindsFirstLostNumber(c: Crypto, st: State, scope: Scope, t: int)
    requires ChainInvariant(c, st, scope, t) && Chain(st.log, scope) != []
    ensures FindsFirstLost(c, st.log, scope)
  {
    if FullScan(c, st.log, scope).Valid? {
      ValidLosesNone(c, st, scope, t);
    } else {
      BrokenAtFirstLost(c, st, scope, t, FullScan(c, st.log, scope).totalChecked - 1);
    }
  }

  /** For every run of appends that may fail after taking their numbers, in every scope. */
  lemma FailingRunsAreLocated(c: Crypto, steps: seq<Step>, t: int, scope: Scope)
    requires ClockFrom(t, steps)
    ensures var log := Run(c, EMPTY, steps).log;
            Chain(log, scope) != [] ==> FindsFirstLost(c, log, scope)
  {
    EmptyInvariant(c, scope, t);
    var t' := RunKeepsChain(c, EMPTY, steps, t, scope);
    var st := Run(c, EMPTY, steps);
    if Chain(st.log, scope) != [] {
      ScanFindsFirstLostNumber(c, st, scope, t');
    }
  }

  // ---- runs without failures ----

  ghost predicate HexOutput(c: Crypto) {
    forall s: string :: c.sha256(s) != "" && NoBar(c.sha256(s))
  }

  /** What the hash and the dates must satisfy for two blocks never to collide. */
  ghost predicate Sound(c: Crypto) {
    CollisionFree(c) && DatesReadable(c) && HexOutput(c)
  }

  /** No insert fails for a reason of its own, and action names hold no separator. */
  predicate NoFailures(steps: seq<Step>) {
    forall i | 0 <= i < |steps| && steps[i].AppendStep? :: !steps[i].storeFails && NoBar(steps[i].ctx.action)
  }

  function Appends(steps: seq<Step>, scope: Scope): nat {
    if steps == [] then 0
    else (if steps[0].AppendStep? && Touches(steps[0].ctx, scope) then 1 else 0) + Appends(steps[1..], scope)
  }

  ghost predicate CleanLog(c: Crypto, log: seq<Block>) {
    forall b :: b in log ==> Clean(b) && b.hash == BlockHash(c, b)
  }

  ghost predicate AllNumbered(st: State) {
    forall scope: Scope :: Numbered(st, scope)
  }

  lemma LastHashClean(c: Crypto, log: seq<Block>, scope: Scope)
    requires Sound(c) && CleanLog(c, log) && UniqueNumbers(log, scope)
    ensures LastHash(c, log, scope) != "" && NoBar(LastHash(c, log, scope))
  {
    QueryFacts(log, scope, None);
    var chain := Chain(log, scope);
    assert chain != [] ==> chain[|chain| - 1] in chain;
  }

  lemma NewBlockClean(c: Crypto, st: State, ctx: Context, now: int)
    requires Sound(c) && CleanLog(c, st.log) && AllNumbered(st) && NoBar(ctx.action)
    ensures Clean(NewBlock(c, st, ctx, now))
  {
    forall scope: Scope ensures LastHash(c, st.log, scope) != "" && NoBar(LastHash(c, st.log, scope)) {
      assert Numbered(st, scope);
      LastHashClean(c, st.log, scope);
    }
  }

  /** With a collision-free hash the unique indexes never refuse an append. */
  lemma NeverRejected(c: Crypto, st: State, ctx: Context, now: int)
    requires Sound(c) && CleanLog(c, st.log) && AllNumbered(st) && NoBar(ctx.action)
    ensures !Rejected(st.log, NewBlock(c, st, ctx, now))
  {
    var b := NewBlock(c, st, ctx, now);
    NewBlockClean(c, st, ctx, now);
    forall i | 0 <= i < |st.log| ensures !Conflict(st.log[i], b) {
      var a := st.log[i];
      assert a in st.log;
      NumbersDiffer(c, st, ctx, now, a, Global);
      NumbersDiffer(c, st, ctx, now, a, Group(IdText(b.groupId)));
      NumbersDiffer(c, st, ctx, now, a, Voting(IdText(b.votingId)));
      NumbersDiffer(c, st, ctx, now, a, Survey(IdText(b.surveyId)));
      HashesDiffer(c, st, ctx, now, a);
    }
  }

  lemma NumbersDiffer(c: Crypto, st: State, ctx: Context, now: int, a: Block, scope: Scope)
    requires AllNumbered(st) && a in st.log
    ensures !SameNumber(a, NewBlock(c, st, ctx, now), scope)
    ensures scope == Global ==> a.sequence != NewBlock(c, st, ctx, now).sequence
  {
    assert Numbered(st, scope);
    AppendedBlock(c, st, ctx, now, scope);
  }

  lemma HashesDiffer(c: Crypto, st: State, ctx: Context, now: int, a: Block)
    requires Sound(c) && CleanLog(c, st.log) && AllNumbered(st) && NoBar(ctx.action) && a in st.log
    ensures a.hash != NewBlock(c, st, ctx, now).hash
  {
    var b := NewBlock(c, st, ctx, now);
    NewBlockClean(c, st, ctx, now);
    AppendedBlock(c, st, ctx, now, Global);
    NumbersDiffer(c, st, ctx, now, a, Global);
    if a.hash == b.hash {
      EqualHashes(c, a, b);
    }
  }

  /** The chain of the scope is numbered from 1 to its counter. */
  ghost predicate Complete(st: State, scope: Scope) {
    && |Chain(st.log, scope)| == Counter(st, scope)
    && forall i | 0 <= i < |Chain(st.log, scope)| :: Num(scope, Chain(st.log, scope)[i]) == i + 1
  }

  lemma AppendKeepsNumbered(c: Crypto, st: State, ctx: Context, now: int, storeFails: bool)
    requires AllNumbered(st)
    ensures AllNumbered(Append(c, st, ctx, now, storeFails))
  {
    forall s: Scope ensures Numbered(Append(c, st, ctx, now, storeFails), s) {
      assert Numbered(st, s);
      NumberedAfterAppend(c, st, ctx, now, storeFails, s);
    }
  }

  lemma AppendKeepsComplete(c: Crypto, st: State, ctx: Context, now: int, scope: Scope)
    requires Sound(c) && CleanLog(c, st.log) && AllNumbered(st) && NoBar(ctx.action) && Complete(st, scope)
    ensures var st' := Append(c, st, ctx, now, false);
            && CleanLog(c, st'.log) && Complete(st', scope)
            && Counter(st', scope) == Counter(st, scope) + (if Touches(ctx, scope) then 1 else 0)
  {
    var b := NewBlock(c, st, ctx, now);
    NeverRejected(c, st, ctx, now);
    NewBlockClean(c, st, ctx, now);
    AppendedBlock(c, st, ctx, now, scope);
    BumpedCounter(st, ctx, scope);
    assert Numbered(st, scope);
    StoredAppend(c, st, ctx, now, scope);
  }

  /** An append that is not refused adds its block to the chains it carries a number for. */
  lemma StoredAppend(c: Crypto, st: State, ctx: Context, now: int, scope: Scope)
    requires Numbered(st, scope) && !Rejected(st.log, NewBlock(c, st, ctx, now))
    ensures var st', b := Append(c, st, ctx, now, false), NewBlock(c, st, ctx, now);
            && st'.log == st.log + [b]
            && Chain(st'.log, scope) == if InScope(scope, b) then Chain(st.log, scope) + [b] else Chain(st.log, scope)
  {
    var b := NewBlock(c, st, ctx, now);
    NumberedAfterAppend(c, st, ctx, now, false, scope);
    assert |st.log + [b]| == |st.log| + 1;
  }

  lemma StepKeepsComplete(c: Crypto, st: State, step: Step, scope: Scope)
    requires Sound(c) && CleanLog(c, st.log) && AllNumbered(st) && Complete(st, scope)
    requires step.AppendStep? ==> !step.storeFails && NoBar(step.ctx.action)
    ensures var st' := Perform(c, st, step);
            && CleanLog(c, st'.log) && AllNumbered(st') && Complete(st', scope)
            && Counter(st', scope) == Counter(st, scope) + (if step.AppendStep? && Touches(step.ctx, scope) then 1 else 0)
  {
    if step.AppendStep? {
      AppendKeepsNumbered(c, st, step.ctx, step.now, false);
      AppendKeepsComplete(c, st, step.ctx, step.now, scope);
    } else {
      var st' := Perform(c, st, step);
      assert st'.log == st.log && st'.counters == st.counters;
      forall s: Scope ensures Numbered(st', s) {
        assert Numbered(st, s);
      }
    }
  }

  lemma {:induction false} RunKeepsComplete(c: Crypto, st: State, steps: seq<Step>, scope: Scope)
    requires Sound(c) && CleanLog(c, st.log) && AllNumbered(st) && NoFailures(steps) && Complete(st, scope)
    ensures Complete(Run(c, st, steps), scope) && CleanLog(c, Run(c, st, steps).log) && AllNumbered(Run(c, st, steps))
    ensures Counter(Run(c, st, steps), scope) == Counter(st, scope) + Appends(steps, scope)
    decreases |steps|
  {
    if steps != [] {
      StepKeepsComplete(c, st, steps[0], scope);
      RunKeepsComplete(c, Perform(c, st, steps[0]), steps[1..], scope);
    }
  }

  /**
   * Every chain an interleaved log carries, at once: after any run of successful appends with a
   * clock that never goes back, the chain of every scope is numbered 1..k where k is the number
   * of appends that touch it and also its counter, starts at the scope's genesis hash, links each
   * block to the hash of its predecessor in that scope, and passes the full scan with k blocks.
   */
  lemma SuccessfulRunsAreValid(c: Crypto, steps: seq<Step>, t: int, scope: Scope)
    requires Sound(c) && ClockFrom(t, steps) && NoFailures(steps)
    ensures var st, k := Run(c, EMPTY, steps), Appends(steps, scope);
            && Counter(st, scope) == k && Complete(st, scope)
            && WellLinked(c, scope, Chain(st.log, scope))
            && FullScan(c, st.log, scope) == Valid(k)
  {
    EmptyInvariant(c, scope, t);
    var t' := RunKeepsChain(c, EMPTY, steps, t, scope);
    RunKeepsComplete(c, EMPTY, steps, scope);
    var st := Run(c, EMPTY, steps);
    var chain, genesis := Chain(st.log, scope), FromGenesis(c, scope);
    forall i | 0 <= i < |chain| ensures FaultAt(c, scope, genesis, chain, i).None? {
      OnlyGaps(c, st, scope, t', i);
    }
    DecidesOnce(c, scope, genesis, chain, FullScan(c, st.log, scope), Valid(|chain|));
  }
}
