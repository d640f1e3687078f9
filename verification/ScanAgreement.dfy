/**
 * Exactly when an incremental verification reaches the verdict of a full one: for any stored log
 * with unique numbers and any marker, whether or not its block is still there.
 */
module ScanAgreement {
  import opened Base
  import opened AuditChain
  import opened ChainStore
  import opened ChainScan
  import opened Sorting

  /** The same answer to the caller: valid in both, or broken at the same number. */
  predicate SameVerdict(a: Report, b: Report) {
    (a.Valid? && b.Valid?) || (a.Broken? && b.Broken? && a.brokenAt == b.brokenAt)
  }

  predicate Increasing(scope: Scope, chain: seq<Block>) {
    forall i, j | 0 <= i < j < |chain| :: Num(scope, chain[i]) < Num(scope, chain[j])
  }

  /** From the second block on, a scan of a suffix makes the checks of the whole scan. */
  lemma LaterFaults(c: Crypto, scope: Scope, genesis: Cursor, start: Cursor, chain: seq<Block>, k: nat, i: nat)
    requires k <= i && i + 1 < |chain|
    ensures FaultAt(c, scope, start, chain[k..], i + 1 - k) == FaultAt(c, scope, genesis, chain, i + 1)
  {
    assert chain[k..][i - k] == chain[i] && chain[k..][i + 1 - k] == chain[i + 1];
  }

  /** Both scans pass the first block after the skipped ones, or both stop there. */
  predicate HeadsAgree(c: Crypto, scope: Scope, genesis: Cursor, start: Cursor, chain: seq<Block>, k: nat)
    requires k <= |chain|
  {
    k < |chain| ==>
      (FaultAt(c, scope, genesis, chain, k).None? <==> FaultAt(c, scope, start, chain[k..], 0).None?)
  }

  /** The scan of the suffix finds no fault where the whole scan, from its clean prefix on, finds none. */
  lemma SuffixClean(c: Crypto, scope: Scope, genesis: Cursor, start: Cursor, chain: seq<Block>, k: nat, clean: nat)
    requires k <= clean <= |chain| && CleanUpTo(c, scope, genesis, chain, clean)
    requires HeadsAgree(c, scope, genesis, start, chain, k)
    ensures CleanUpTo(c, scope, start, chain[k..], clean - k)
  {
    forall i | 0 <= i < clean - k ensures FaultAt(c, scope, start, chain[k..], i).None? {
      assert FaultAt(c, scope, genesis, chain, k + i).None?;
      if i > 0 {
        LaterFaults(c, scope, genesis, start, chain, k, k + i - 1);
      }
    }
  }

  lemma PassesAlike(c: Crypto, scope: Scope, genesis: Cursor, start: Cursor, chain: seq<Block>, k: nat)
    requires k <= |chain| && CleanUpTo(c, scope, genesis, chain, |chain|) && HeadsAgree(c, scope, genesis, start, chain, k)
    ensures Scan(c, scope, start, chain[k..]).Valid?
  {
    SuffixClean(c, scope, genesis, start, chain, k, |chain|);
    ScanIs(c, scope, start, chain[k..], Valid(|chain[k..]|));
  }

  /** A scan stops at the block that is the first to have a fault. */
  lemma StopsAt(c: Crypto, scope: Scope, start: Cursor, docs: seq<Block>, n: nat)
    requires n < |docs| && CleanUpTo(c, scope, start, docs, n) && FaultAt(c, scope, start, docs, n).Some?
    ensures Scan(c, scope, start, docs).Broken? && Scan(c, scope, start, docs).brokenAt == Num(scope, docs[n])
  {
    ScanIs(c, scope, start, docs, Broken(n + 1, Num(scope, docs[n]), FaultAt(c, scope, start, docs, n).value));
  }

  lemma StopsAlike(c: Crypto, scope: Scope, genesis: Cursor, start: Cursor, chain: seq<Block>, k: nat, n: nat)
    requires k <= n < |chain| && CleanUpTo(c, scope, genesis, chain, n)
    requires FaultAt(c, scope, genesis, chain, n).Some? && HeadsAgree(c, scope, genesis, start, chain, k)
    ensures var part := Scan(c, scope, start, chain[k..]);
      part.Broken? && part.brokenAt == Num(scope, chain[n])
  {
    SuffixClean(c, scope, genesis, start, chain, k, n);
    if n > k {
      LaterFaults(c, scope, genesis, start, chain, k, n - 1);
    }
    StopsAt(c, scope, start, chain[k..], n - k);
  }

  lemma CleanPrefixAgrees(c: Crypto, scope: Scope, genesis: Cursor, start: Cursor, chain: seq<Block>, k: nat)
    requires k <= |chain| && CleanUpTo(c, scope, genesis, chain, k) && HeadsAgree(c, scope, genesis, start, chain, k)
    ensures SameVerdict(Scan(c, scope, genesis, chain), Scan(c, scope, start, chain[k..]))
  {
    var full := Scan(c, scope, genesis, chain);
    if full.Valid? {
      PassesAlike(c, scope, genesis, start, chain, k);
    } else {
      StopsAlike(c, scope, genesis, start, chain, k, full.totalChecked - 1);
    }
  }

  lemma SamePosition(scope: Scope, chain: seq<Block>, i: nat, j: nat)
    requires Increasing(scope, chain) && i < |chain| && j < |chain| && Num(scope, chain[i]) == Num(scope, chain[j])
    ensures i == j
  {
  }

  lemma AgreementIsClean(c: Crypto, scope: Scope, genesis: Cursor, start: Cursor, chain: seq<Block>, k: nat)
    requires k <= |chain| && Increasing(scope, chain)
    requires SameVerdict(Scan(c, scope, genesis, chain), Scan(c, scope, start, chain[k..]))
    ensures CleanUpTo(c, scope, genesis, chain, k) && HeadsAgree(c, scope, genesis, start, chain, k)
  {
    var docs, full, part := chain[k..], Scan(c, scope, genesis, chain), Scan(c, scope, start, chain[k..]);
    if full.Broken? {
      var i, j := full.totalChecked - 1, part.totalChecked - 1;
      assert docs[j] == chain[k + j];
      SamePosition(scope, chain, i, k + j);
    }
    assert k < |chain| && full.Broken? && full.totalChecked - 1 > k ==>
             FaultAt(c, scope, genesis, chain, k).None? && FaultAt(c, scope, start, docs, 0).None?;
  }

  lemma ChainIncreasing(log: seq<Block>, scope: Scope)
    requires UniqueNumbers(log, scope)
    ensures Increasing(scope, Chain(log, scope))
  {
    QueryIncreasing(log, scope, None);
  }

  /** Where an incremental scan starts reading. */
  function Skipped(log: seq<Block>, scope: Scope, marker: nat): int {
    |Chain(log, scope)| - |Query(log, scope, Some(marker))|
  }

  lemma SkippedFacts(log: seq<Block>, scope: Scope, marker: nat)
    requires UniqueNumbers(log, scope)
    ensures 0 <= Skipped(log, scope, marker) <= |Chain(log, scope)|
    ensures Query(log, scope, Some(marker)) == Chain(log, scope)[Skipped(log, scope, marker)..]
    ensures forall i | 0 <= i < |Chain(log, scope)| ::
              i < Skipped(log, scope, marker) <==> Num(scope, Chain(log, scope)[i]) <= marker
  {
    var k := AfterIsSuffix(log, scope, marker);
  }

  /**
   * For every log with unique numbers and every marker, present or missing: the incremental and
   * the full scan reach the same verdict and brokenAt exactly when the blocks up to the marker
   * pass and both scans treat the first block after it alike.
   */
  lemma IncrementalAgreesIff(c: Crypto, log: seq<Block>, scope: Scope, marker: nat)
    requires UniqueNumbers(log, scope)
    ensures 0 <= Skipped(log, scope, marker) <= |Chain(log, scope)|
    ensures SameVerdict(FullScan(c, log, scope), ScanAfter(c, log, scope, marker)) <==>
              && PrefixClean(c, log, scope, marker)
              && HeadsAgree(c, scope, FromGenesis(c, scope), FromMarker(log, scope, marker),
                            Chain(log, scope), Skipped(log, scope, marker))
  {
    var k, chain := Skipped(log, scope, marker), Chain(log, scope);
    var genesis, start := FromGenesis(c, scope), FromMarker(log, scope, marker);
    SkippedFacts(log, scope, marker);
    ChainIncreasing(log, scope);
    assert PrefixClean(c, log, scope, marker) <==> CleanUpTo(c, scope, genesis, chain, k);
    if SameVerdict(FullScan(c, log, scope), ScanAfter(c, log, scope, marker)) {
      AgreementIsClean(c, scope, genesis, start, chain, k);
    }
    if PrefixClean(c, log, scope, marker) && HeadsAgree(c, scope, genesis, start, chain, k) {
      CleanPrefixAgrees(c, scope, genesis, start, chain, k);
    }
  }

  /** With the marker's block stored, the scans agree exactly when the marker is sound. */
  lemma StoredMarkerAgreesIff(c: Crypto, log: seq<Block>, scope: Scope, marker: nat)
    requires UniqueNumbers(log, scope) && FindByNumber(log, scope, marker).Some?
    ensures SameVerdict(FullScan(c, log, scope), ScanAfter(c, log, scope, marker)) <==> MarkerSound(c, log, scope, marker)
  {
    var k := MarkerSplit(log, scope, marker);
    SkippedFacts(log, scope, marker);
    SuffixFaults(c, scope, FromGenesis(c, scope), FromMarker(log, scope, marker), Chain(log, scope), k);
    assert k < |Chain(log, scope)| ==> k - k == 0;
    IncrementalAgreesIff(c, log, scope, marker);
  }

  /**
   * With the marker's block missing and, before it, a block or the voting scan's fixed start, the
   * full scan always finds a gap after the hole. So the scans agree exactly when the blocks before
   * the hole pass and the incremental scan has nothing to read or stops at its first block.
   */
  lemma MissingMarkerAgreesIff(c: Crypto, log: seq<Block>, scope: Scope, marker: nat)
    requires UniqueNumbers(log, scope) && FindByNumber(log, scope, marker).None? && marker > 0
    requires scope.Voting? || Skipped(log, scope, marker) > 0
    ensures SameVerdict(FullScan(c, log, scope), ScanAfter(c, log, scope, marker)) <==>
              && PrefixClean(c, log, scope, marker)
              && var docs := Query(log, scope, Some(marker));
                 docs == [] || FaultAt(c, scope, FromMarker(log, scope, marker), docs, 0).Some?
  {
    var k, chain := Skipped(log, scope, marker), Chain(log, scope);
    SkippedFacts(log, scope, marker);
    if k < |chain| {
      GapAfterHole(c, log, scope, marker);
    }
    IncrementalAgreesIff(c, log, scope, marker);
  }

  lemma GapAfterHole(c: Crypto, log: seq<Block>, scope: Scope, marker: nat)
    requires UniqueNumbers(log, scope) && FindByNumber(log, scope, marker).None? && marker > 0
    requires scope.Voting? || Skipped(log, scope, marker) > 0
    requires 0 <= Skipped(log, scope, marker) < |Chain(log, scope)|
    ensures FaultAt(c, scope, FromGenesis(c, scope), Chain(log, scope), Skipped(log, scope, marker)).Some?
  {
    var k, chain := Skipped(log, scope, marker), Chain(log, scope);
    SkippedFacts(log, scope, marker);
    if k > 0 {
      QueryFacts(log, scope, None);
      FindFacts(log, scope, marker);
      assert chain[k - 1] in chain;
      assert Num(scope, chain[k - 1]) != marker;
    }
  }
}
