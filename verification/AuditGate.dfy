/**
 * The secure gate. Whatever log the service starts from, over every run of appends and
 * verifications a marker never covers a block that fails the scan, so a secure status means that
 * the whole chain of the scope passes.
 */
module AuditGate {
  import opened Base
  import opened AuditChain
  import opened ChainStore
  import opened ChainScan
  import opened AuditState
  import opened AuditRuns

  ghost predicate MarkerInvariant(c: Crypto, st: State, scope: Scope) {
    && Numbered(st, scope)
    && (MarkerOf(st, scope) != 0 ==> MarkerSound(c, st.log, scope, MarkerOf(st, scope)))
  }

  lemma ValidIffClean(c: Crypto, log: seq<Block>, scope: Scope)
    ensures FullScan(c, log, scope).Valid? <==>
              CleanUpTo(c, scope, FromGenesis(c, scope), Chain(log, scope), |Chain(log, scope)|)
    ensures FullScan(c, log, scope).Valid? ==> FullScan(c, log, scope) == Valid(|Chain(log, scope)|)
  {
    var chain, genesis := Chain(log, scope), FromGenesis(c, scope);
    if CleanUpTo(c, scope, genesis, chain, |chain|) {
      DecidesOnce(c, scope, genesis, chain, FullScan(c, log, scope), Valid(|chain|));
    }
  }

  lemma AppendKeepsMarker(c: Crypto, st: State, ctx: Context, now: int, storeFails: bool, scope: Scope)
    requires MarkerInvariant(c, st, scope)
    ensures MarkerInvariant(c, Append(c, st, ctx, now, storeFails), scope)
  {
    var st', b := Append(c, st, ctx, now, storeFails), NewBlock(c, st, ctx, now);
    NumberedAfterAppend(c, st, ctx, now, storeFails, scope);
    AppendedBlock(c, st, ctx, now, scope);
    var marker := MarkerOf(st, scope);
    if marker != 0 {
      FindFacts(st.log, scope, marker);
      FindFacts(st'.log, scope, marker);
      assert FindByNumber(st.log, scope, marker).value in st'.log;
      MarkerStaysSound(c, st.log, st'.log, b, scope, marker);
    }
  }

  /** A block numbered above the marker leaves the blocks up to the marker as they were. */
  lemma MarkerStaysSound(c: Crypto, log: seq<Block>, log': seq<Block>, b: Block, scope: Scope, marker: nat)
    requires MarkerSound(c, log, scope, marker) && FindByNumber(log', scope, marker).Some?
    requires Chain(log', scope) == Chain(log, scope)
          || (Chain(log', scope) == Chain(log, scope) + [b] && Num(scope, b) > marker)
    ensures MarkerSound(c, log', scope, marker)
  {
    var chain, chain', genesis := Chain(log, scope), Chain(log', scope), FromGenesis(c, scope);
    forall i | 0 <= i < |chain'| && Num(scope, chain'[i]) <= marker
      ensures FaultAt(c, scope, genesis, chain', i).None?
    {
      assert i < |chain| && chain'[i] == chain[i];
      PrefixFault(c, scope, genesis, chain, b, i);
    }
  }

  lemma WholeChainMarkerSound(c: Crypto, st: State, scope: Scope)
    requires Numbered(st, scope) && FullScan(c, st.log, scope).Valid? && Chain(st.log, scope) != []
    ensures MarkerSound(c, st.log, scope, MaxSequence(st.log, scope))
  {
    ValidIffClean(c, st.log, scope);
    FindInChain(st.log, scope, |Chain(st.log, scope)| - 1);
  }

  /** A valid scan, full or from a sound marker, means that the full scan is valid. */
  lemma ValidScanIsFull(c: Crypto, st: State, scope: Scope, marker: nat)
    requires Numbered(st, scope)
    requires marker != 0 ==> MarkerSound(c, st.log, scope, marker)
    requires ScanFrom(c, st.log, scope, marker).Valid?
    ensures FullScan(c, st.log, scope).Valid?
    ensures ScanFrom(c, st.log, scope, marker) != Valid(0) ==> Chain(st.log, scope) != []
  {
    if marker != 0 {
      var k := IncrementalRefinesFull(c, st.log, scope, marker);
    }
    ValidIffClean(c, st.log, scope);
  }

  lemma VerifyKeepsMarker(c: Crypto, st: State, s: Scope, forceFull: bool, at: int, scope: Scope)
    requires MarkerInvariant(c, st, scope)
    ensures MarkerInvariant(c, Verify(c, st, s, forceFull, at).0, scope)
  {
    var r := Verify(c, st, s, forceFull, at);
    assert Counter(r.0, scope) == Counter(st, scope);
    if s == scope && !(forceFull && IsThrottled(st, s, at)) && BrokenCheckpoint(st, s).None? {
      var marker := StartMarker(st, s, forceFull);
      if ScanFrom(c, st.log, s, marker).Valid? {
        ValidScanIsFull(c, st, s, marker);
        if ScanFrom(c, st.log, s, marker) != Valid(0) {
          WholeChainMarkerSound(c, st, s);
        }
      }
    }
  }

  lemma StepKeepsMarker(c: Crypto, st: State, step: Step, scope: Scope)
    requires MarkerInvariant(c, st, scope)
    ensures MarkerInvariant(c, Perform(c, st, step), scope)
  {
    match step
    case AppendStep(ctx, now, storeFails) => AppendKeepsMarker(c, st, ctx, now, storeFails, scope);
    case VerifyStep(s, forceFull, at) => VerifyKeepsMarker(c, st, s, forceFull, at, scope);
    case ResetStep(s) =>
      assert Counter(Perform(c, st, step), scope) == Counter(st, scope);
    case CheckpointStep(s) =>
      assert Counter(Perform(c, st, step), scope) == Counter(st, scope);
      assert MarkerOf(Perform(c, st, step), scope) == MarkerOf(st, scope);
  }

  lemma {:induction false} RunKeepsMarker(c: Crypto, st: State, steps: seq<Step>, scope: Scope)
    requires MarkerInvariant(c, st, scope)
    ensures MarkerInvariant(c, Run(c, st, steps), scope)
    decreases |steps|
  {
    if steps != [] {
      StepKeepsMarker(c, st, steps[0], scope);
      RunKeepsMarker(c, Perform(c, st, steps[0]), steps[1..], scope);
    }
  }

  lemma LastIsLargest(log: seq<Block>, scope: Scope, i: nat)
    requires UniqueNumbers(log, scope) && i < |Chain(log, scope)|
    ensures Chain(log, scope)[i] in log && InScope(scope, Chain(log, scope)[i])
    ensures Num(scope, Chain(log, scope)[i]) <= MaxSequence(log, scope)
  {
    var chain := Chain(log, scope);
    QueryFacts(log, scope, None);
    QueryIncreasing(log, scope, None);
    assert chain[i] in chain;
    assert i == |chain| - 1 || Num(scope, chain[i]) < Num(scope, chain[|chain| - 1]);
  }

  lemma SecureMeansValid(c: Crypto, st: State, scope: Scope, now: int)
    requires MarkerInvariant(c, st, scope) && IsSecure(st, scope, now)
    ensures FullScan(c, st.log, scope).Valid?
  {
    ValidIffClean(c, st.log, scope);
    forall i | 0 <= i < |Chain(st.log, scope)|
      ensures FaultAt(c, scope, FromGenesis(c, scope), Chain(st.log, scope), i).None?
    {
      LastIsLargest(st.log, scope, i);
    }
  }

  /**
   * From any stored log whose numbers obey the indexes and the counters, with no marker yet set
   * for the scope, over every run of appends, verifications, resets and seals: when the status of
   * the scope is secure, its whole chain passes the scan from genesis.
   */
  lemma SecureStatusIsEarned(c: Crypto, st: State, steps: seq<Step>, scope: Scope, now: int)
    requires Numbered(st, scope) && MarkerOf(st, scope) == 0
    ensures IsSecure(Run(c, st, steps), scope, now) ==> FullScan(c, Run(c, st, steps).log, scope).Valid?
  {
    RunKeepsMarker(c, st, steps, scope);
    if IsSecure(Run(c, st, steps), scope, now) {
      SecureMeansValid(c, Run(c, st, steps), scope, now);
    }
  }
}
