/**
 * The other half of the secure gate: in runs of successful appends the status can be had and kept.
 * What each verification writes to the marker and the stamp, and that after a full verification an
 * incremental one is enough to be secure again whatever was appended in between.
 */
module AuditStamps {
  import opened Base
  import opened AuditChain
  import opened ChainStore
  import opened ChainScan
  import opened Sorting
  import opened AuditState
  import opened AuditRuns
  import opened AuditGate
  import opened AuditForensics

  // ---- what a verification writes ----

  /** The marker and the stamp of every other scope stay, and so does everything that is not a marker. */
  predicate OnlyMarks(st: State, st': State, scope: Scope, mark: Marker) {
    st' == st.(markers := st.markers[scope := mark])
  }

  /** A scan that checked a block ends above the marker it started from. */
  lemma PassedBeyond(c: Crypto, st: State, scope: Scope, marker: nat)
    requires Numbered(st, scope) && ScanFrom(c, st.log, scope, marker).Valid?
    requires ScanFrom(c, st.log, scope, marker).totalChecked > 0
    ensures MaxSequence(st.log, scope) > marker
  {
    var chain := Chain(st.log, scope);
    if marker == 0 {
      LastIsLargest(st.log, scope, |chain| - 1);
    } else {
      var k := AfterIsSuffix(st.log, scope, marker);
      assert chain[|chain| - 1] == Query(st.log, scope, Some(marker))[|chain| - 1 - k];
    }
  }

  /**
   * A scan that passes marks the last number, and only a full one stamps its time; a scan that
   * breaks takes the marker back to 0 and keeps the stamp; any other outcome writes nothing.
   */
  lemma VerificationMarks(c: Crypto, st: State, scope: Scope, forceFull: bool, at: int)
    requires Numbered(st, scope)
    ensures var (st', report) := Verify(c, st, scope, forceFull, at);
      match report
      case Valid(total) =>
        if total == 0 then st' == st
        else OnlyMarks(st, st', scope, Marker(MaxSequence(st.log, scope), if forceFull then Some(at) else LastFull(st, scope)))
      case Broken(_, _, _) => OnlyMarks(st, st', scope, Marker(0, LastFull(st, scope)))
      case _ => st' == st
  {
    var marker, report := StartMarker(st, scope, forceFull), Verify(c, st, scope, forceFull, at).1;
    if report.Valid? && report.totalChecked > 0 {
      PassedBeyond(c, st, scope, marker);
    }
  }

  /** A chain without a positive number is never marked, whatever the scan says. */
  lemma NumberZeroIsNotMarked(c: Crypto, st: State, scope: Scope, forceFull: bool, at: int)
    requires MaxSequence(st.log, scope) == 0 && !Verify(c, st, scope, forceFull, at).1.Broken?
    ensures Verify(c, st, scope, forceFull, at).0 == st
  {
  }

  /** A reset takes the marker of its scope back to 0 and keeps the stamp. */
  lemma ResetMarks(c: Crypto, st: State, scope: Scope)
    ensures OnlyMarks(st, Perform(c, st, ResetStep(scope)), scope, Marker(0, LastFull(st, scope)))
  {
  }

  /** A step that stamps the scope: a full verification, not throttled, of a chain that passes. */
  predicate Stamps(c: Crypto, st: State, step: Step, scope: Scope) {
    && step.VerifyStep? && step.scope == scope && step.forceFull
    && Verify(c, st, scope, true, step.at).1.Valid? && Chain(st.log, scope) != []
  }

  lemma VerifyMovesStamp(c: Crypto, st: State, s: Scope, forceFull: bool, at: int, scope: Scope)
    requires Numbered(st, s)
    ensures LastFull(Verify(c, st, s, forceFull, at).0, scope)
         == if Stamps(c, st, VerifyStep(s, forceFull, at), scope) then Some(at) else LastFull(st, scope)
  {
    VerificationMarks(c, st, s, forceFull, at);
    ValidIffClean(c, st.log, s);
  }

  lemma OthersMoveNoStamp(c: Crypto, st: State, step: Step, scope: Scope)
    requires !step.VerifyStep?
    ensures LastFull(Perform(c, st, step), scope) == LastFull(st, scope)
  {
  }

  /** Nothing else moves a stamp, and this sets it to the time of the verification. */
  lemma StampMoves(c: Crypto, st: State, step: Step, scope: Scope)
    requires AllNumbered(st)
    ensures LastFull(Perform(c, st, step), scope)
         == if Stamps(c, st, step, scope) then Some(step.at) else LastFull(st, scope)
  {
    if step.VerifyStep? {
      assert Numbered(st, step.scope);
      VerifyMovesStamp(c, st, step.scope, step.forceFull, step.at, scope);
    } else {
      OthersMoveNoStamp(c, st, step, scope);
    }
  }

  predicate StampedSince(st: State, scope: Scope, at: int) {
    LastFull(st, scope).Some? && LastFull(st, scope).value >= at
  }

  lemma StepKeepsNumbers(c: Crypto, st: State, step: Step)
    requires AllNumbered(st)
    ensures AllNumbered(Perform(c, st, step))
  {
    if step.AppendStep? {
      AppendKeepsNumbered(c, st, step.ctx, step.now, step.storeFails);
    } else {
      var st' := Perform(c, st, step);
      forall s: Scope ensures Numbered(st', s) {
        assert Numbered(st, s);
      }
    }
  }

  lemma StepKeepsStamped(c: Crypto, st: State, step: Step, scope: Scope, at: int)
    requires AllNumbered(st) && StampedSince(st, scope, at)
    ensures AllNumbered(Perform(c, st, step)) && StampedSince(Perform(c, st, step), scope, at)
  {
    StampMoves(c, st, step, scope);
    StepKeepsNumbers(c, st, step);
  }

  lemma StampedAfterOneMore(c: Crypto, st: State, steps: seq<Step>, last: Step, scope: Scope, at: int)
    requires AllNumbered(Run(c, st, steps)) && StampedSince(Run(c, st, steps), scope, at)
    ensures AllNumbered(Run(c, st, steps + [last])) && StampedSince(Run(c, st, steps + [last]), scope, at)
  {
    StepKeepsStamped(c, Run(c, st, steps), last, scope, at);
    RunThen(c, st, steps, last);
  }

  /** Whatever is done afterwards, the scope stays stamped, since the throttle lets no earlier time in. */
  lemma {:induction false} StampStays(c: Crypto, st: State, steps: seq<Step>, more: seq<Step>, scope: Scope, at: int)
    requires AllNumbered(Run(c, st, steps)) && StampedSince(Run(c, st, steps), scope, at)
    ensures AllNumbered(Run(c, st, steps + more)) && StampedSince(Run(c, st, steps + more), scope, at)
    decreases |more|
  {
    if more == [] {
      assert steps + more == steps;
    } else {
      var front, last := more[..|more| - 1], more[|more| - 1];
      StampStays(c, st, steps, front, scope, at);
      StampedAfterOneMore(c, st, steps + front, last, scope, at);
      assert steps + more == (steps + front) + [last];
    }
  }

  // ---- checkpoints in successful runs ----

  ghost predicate SealsHold(st: State) {
    && UniqueNumbers(st.log, Global)
    && forall scope, i | scope in st.checkpoints && 0 <= i < |st.checkpoints[scope]| ::
         Sealed(st.log, st.checkpoints[scope][i])
  }

  lemma {:induction false} FoundInPrefix(log: seq<Block>, b: Block, n: nat)
    requires FindByNumber(log, Global, n).Some?
    ensures FindByNumber(log + [b], Global, n) == FindByNumber(log, Global, n)
  {
    if NumberIn(Global, log[0]) != Some(n) {
      FoundInPrefix(log[1..], b, n);
      assert (log + [b])[1..] == log[1..] + [b];
    }
  }

  lemma StepKeepsSeals(c: Crypto, st: State, step: Step)
    requires SealsHold(st) && AllNumbered(st)
    ensures SealsHold(Perform(c, st, step))
  {
    var st' := Perform(c, st, step);
    StepKeepsNumbers(c, st, step);
    assert Numbered(st', Global);
    if step.AppendStep? {
      forall scope, i | scope in st'.checkpoints && 0 <= i < |st'.checkpoints[scope]|
        ensures Sealed(st'.log, st'.checkpoints[scope][i])
      {
        var cp := st.checkpoints[scope][i];
        assert Sealed(st.log, cp);
        FoundInPrefix(st.log, NewBlock(c, st, step.ctx, step.now), cp.sequence);
      }
    } else if step.CheckpointStep? && Chain(st.log, step.scope) != [] {
      var last := LastBlock(st.log, step.scope).value;
      assert Numbered(st, step.scope);
      LastIsLargest(st.log, step.scope, |Chain(st.log, step.scope)| - 1);
      FindUnique(st.log, last);
    }
  }

  lemma {:induction false} RunKeepsSeals(c: Crypto, st: State, steps: seq<Step>)
    requires SealsHold(st) && AllNumbered(st)
    ensures SealsHold(Run(c, st, steps))
    decreases |steps|
  {
    if steps != [] {
      StepKeepsSeals(c, st, steps[0]);
      StepKeepsNumbers(c, st, steps[0]);
      RunKeepsSeals(c, Perform(c, st, steps[0]), steps[1..]);
    }
  }

  lemma NoSealBroken(st: State, scope: Scope)
    requires SealsHold(st)
    ensures BrokenCheckpoint(st, scope).None?
  {
    var cps := CheckpointsOf(st, scope);
    var sorted := Sort(cps, BySequence());
    SortElements(cps, BySequence());
    forall i | 0 <= i < |sorted| ensures Sealed(st.log, sorted[i]) {
      assert sorted[i] in sorted && sorted[i] in cps;
    }
  }

  // ---- successful runs ----

  ghost predicate Succeeds(c: Crypto, steps: seq<Step>, t: int) {
    Sound(c) && ClockFrom(t, steps) && NoFailures(steps)
  }

  /** Everything that holds of a scope at the end of a successful run with n appends to it. */
  ghost predicate InOrder(c: Crypto, st: State, scope: Scope, n: nat) {
    && AllNumbered(st) && SealsHold(st) && MarkerInvariant(c, st, scope)
    && Complete(st, scope) && Counter(st, scope) == n && FullScan(c, st.log, scope) == Valid(n)
  }

  lemma SuccessfulRunsAreInOrder(c: Crypto, steps: seq<Step>, t: int, scope: Scope)
    requires Succeeds(c, steps, t)
    ensures InOrder(c, Run(c, EMPTY, steps), scope, Appends(steps, scope))
  {
    SuccessfulRunsAreValid(c, steps, t, scope);
    RunKeepsComplete(c, EMPTY, steps, scope);
    assert AllNumbered(EMPTY) && SealsHold(EMPTY);
    RunKeepsSeals(c, EMPTY, steps);
    RunKeepsMarker(c, EMPTY, steps, scope);
  }

  lemma LastNumber(c: Crypto, st: State, scope: Scope, n: nat)
    requires InOrder(c, st, scope, n)
    ensures MaxSequence(st.log, scope) == n && MarkerOf(st, scope) <= n
  {
    if MarkerOf(st, scope) != 0 {
      assert Numbered(st, scope);
      var k := MarkerSplit(st.log, scope, MarkerOf(st, scope));
    }
  }

  /** The status after a successful run: a full verification within the day, and nothing appended since a marked one. */
  lemma SecureIff(c: Crypto, steps: seq<Step>, t: int, scope: Scope, now: int)
    requires Succeeds(c, steps, t)
    ensures var st := Run(c, EMPTY, steps);
      IsSecure(st, scope, now) <==>
        && LastFull(st, scope).Some? && now - LastFull(st, scope).value < 24 * 3600000
        && MarkerOf(st, scope) == Appends(steps, scope)
  {
    SuccessfulRunsAreInOrder(c, steps, t, scope);
    LastNumber(c, Run(c, EMPTY, steps), scope, Appends(steps, scope));
  }

  /** A full verification passes unless it is throttled, and marks and stamps the scope. */
  lemma FullVerificationPasses(c: Crypto, steps: seq<Step>, t: int, scope: Scope, at: int)
    requires Succeeds(c, steps, t)
    ensures var st, n := Run(c, EMPTY, steps), Appends(steps, scope);
      var (st', report) := Verify(c, st, scope, true, at);
      && report == (if LastFull(st, scope).Some? && at - LastFull(st, scope).value < 24 * 3600000 then Throttled else Valid(n))
      && (report.Valid? && n > 0 ==> MarkerOf(st', scope) == n && LastFull(st', scope) == Some(at))
  {
    var st, n := Run(c, EMPTY, steps), Appends(steps, scope);
    SuccessfulRunsAreInOrder(c, steps, t, scope);
    NoSealBroken(st, scope);
    LastNumber(c, st, scope, n);
    assert Numbered(st, scope);
    VerificationMarks(c, st, scope, true, at);
  }

  /** An incremental verification passes, checks what is above the marker, and leaves the marker at the last block. */
  lemma IncrementalCatchesUp(c: Crypto, steps: seq<Step>, t: int, scope: Scope, at: int)
    requires Succeeds(c, steps, t)
    ensures var st, n := Run(c, EMPTY, steps), Appends(steps, scope);
      var (st', report) := Verify(c, st, scope, false, at);
      && MarkerOf(st, scope) <= n && report == Valid(n - MarkerOf(st, scope))
      && MarkerOf(st', scope) == n && LastFull(st', scope) == LastFull(st, scope)
  {
    var st, n := Run(c, EMPTY, steps), Appends(steps, scope);
    var marker := MarkerOf(st, scope);
    SuccessfulRunsAreInOrder(c, steps, t, scope);
    NoSealBroken(st, scope);
    LastNumber(c, st, scope, n);
    assert Numbered(st, scope);
    if marker != 0 {
      var k := IncrementalRefinesFull(c, st.log, scope, marker);
      var j := MarkerSplit(st.log, scope, marker);
      assert j == k == marker;
    }
    VerificationMarks(c, st, scope, false, at);
  }

  /** A run, a full verification, another run, and an incremental verification. */
  function Watched(before: seq<Step>, scope: Scope, at: int, more: seq<Step>, later: int): seq<Step> {
    before + [VerifyStep(scope, true, at)] + more + [VerifyStep(scope, false, later)]
  }

  lemma {:induction false} ClockOfPrefix(t: int, a: seq<Step>, b: seq<Step>)
    requires ClockFrom(t, a + b)
    ensures ClockFrom(t, a)
    decreases |a|
  {
    if a != [] {
      assert (a + b)[1..] == a[1..] + b;
      ClockOfPrefix(if a[0].AppendStep? then a[0].now else t, a[1..], b);
    }
  }

  lemma SucceedsBefore(c: Crypto, a: seq<Step>, b: seq<Step>, t: int)
    requires Succeeds(c, a + b, t)
    ensures Succeeds(c, a, t)
  {
    ClockOfPrefix(t, a, b);
    forall i | 0 <= i < |a| && a[i].AppendStep? ensures !a[i].storeFails && NoBar(a[i].ctx.action) {
      assert (a + b)[i] == a[i];
    }
  }

  lemma {:induction false} AppendsOfVerified(steps: seq<Step>, scope: Scope, s: Scope, forceFull: bool, at: int)
    ensures Appends(steps + [VerifyStep(s, forceFull, at)], scope) == Appends(steps, scope)
    decreases |steps|
  {
    if steps == [] {
      assert [VerifyStep(s, forceFull, at)][1..] == [];
    } else {
      assert (steps + [VerifyStep(s, forceFull, at)])[1..] == steps[1..] + [VerifyStep(s, forceFull, at)];
      AppendsOfVerified(steps[1..], scope, s, forceFull, at);
    }
  }

  /**
   * The gate can be passed. After any successful run with an append to the scope, a full
   * verification that is not throttled, whatever successful run follows it, and one incremental
   * verification, the marker is the number of appends to the scope and the status is secure at
   * every moment within a day of the full verification.
   */
  lemma StaysSecure(c: Crypto, before: seq<Step>, scope: Scope, at: int, more: seq<Step>, later: int, t: int)
    requires Succeeds(c, Watched(before, scope, at, more, later), t) && Appends(before, scope) > 0
    requires !IsThrottled(Run(c, EMPTY, before), scope, at)
    ensures var steps := Watched(before, scope, at, more, later);
      var st := Run(c, EMPTY, steps);
      && MarkerOf(st, scope) == Appends(steps, scope) == |Chain(st.log, scope)|
      && FullScan(c, st.log, scope) == Valid(Appends(steps, scope))
      && forall now | now - at < 24 * 3600000 :: IsSecure(st, scope, now)
  {
    var full, last := VerifyStep(scope, true, at), VerifyStep(scope, false, later);
    var stamped := before + [full];
    var steps := stamped + more;
    SucceedsBefore(c, steps, [last], t);
    SucceedsBefore(c, stamped, more, t);
    SucceedsBefore(c, before, [full], t);
    FullVerificationPasses(c, before, t, scope, at);
    SuccessfulRunsAreInOrder(c, before, t, scope);
    RunThen(c, EMPTY, before, full);
    StepKeepsNumbers(c, Run(c, EMPTY, before), full);
    StampStays(c, EMPTY, stamped, more, scope, at);
    IncrementalCatchesUp(c, steps, t, scope, later);
    RunThen(c, EMPTY, steps, last);
    AppendsOfVerified(steps, scope, scope, false, later);
    SuccessfulRunsAreInOrder(c, Watched(before, scope, at, more, later), t, scope);
    forall now | now - at < 24 * 3600000 ensures IsSecure(Run(c, EMPTY, steps + [last]), scope, now) {
      SecureIff(c, steps + [last], t, scope, now);
    }
  }
}
