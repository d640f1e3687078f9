/**
 * What one verification scan decides. The source repeats the scan once per scope; the copies
 * differ only in the fields they read and in the number they expect first, so one scan with the
 * scope as a parameter stands for all four.
 */
module ChainScan {
  import opened Base
  import opened AuditChain
  import opened ChainStore
  import opened Sorting

  /** What the scan remembers of the block before the one it checks. */
  datatype Cursor = Cursor(expectedPrevHash: Option<string>, prevSequence: Option<nat>, prevCreatedAt: Option<int>)

  datatype Fault =
    | Gap(expected: nat, got: nat)
    | TimeManipulation
    | TamperedHash(expectedHash: string, foundHash: string, tamperedBlock: Block)
    | BrokenLink(expectedPrevHash: string, foundPrevHash: Option<string>, victimBlock: Block)

  datatype Report =
    | Valid(totalChecked: nat)
    | Broken(totalChecked: nat, brokenAt: nat, fault: Fault)
    | CheckpointBroken(brokenAt: nat)
    | Throttled

  /** Only the voting scan insists that the first number is 1. */
  function FromGenesis(c: Crypto, scope: Scope): Cursor {
    Cursor(Some(GenesisHash(c, scope)), if scope.Voting? then Some(0) else None, None)
  }

  /** The start of an incremental scan: the block at the marker, if it is still there. */
  function FromMarker(log: seq<Block>, scope: Scope, marker: nat): Cursor {
    match FindByNumber(log, scope, marker)
    case Some(b) => Cursor(Some(b.hash), Some(marker), Some(b.createdAt))
    case None => Cursor(None, Some(marker), None)
  }

  function After(scope: Scope, b: Block): Cursor {
    Cursor(Some(b.hash), Some(Num(scope, b)), Some(b.createdAt))
  }

  /** The checks on one block, in the order the scan makes them. */
  function Check(c: Crypto, scope: Scope, before: Cursor, b: Block): Option<Fault> {
    if before.prevSequence.Some? && Num(scope, b) != before.prevSequence.value + 1 then
      Some(Gap(before.prevSequence.value + 1, Num(scope, b)))
    else if before.prevCreatedAt.Some? && b.createdAt < before.prevCreatedAt.value then
      Some(TimeManipulation)
    else if BlockHash(c, b) != b.hash then
      Some(TamperedHash(BlockHash(c, b), b.hash, b))
    else if before.expectedPrevHash.Some? && LinkOf(scope, b) != before.expectedPrevHash then
      Some(BrokenLink(before.expectedPrevHash.value, LinkOf(scope, b), b))
    else None
  }

  function Before(scope: Scope, start: Cursor, docs: seq<Block>, i: nat): Cursor
    requires i <= |docs|
  {
    if i == 0 then start else After(scope, docs[i - 1])
  }

  function FaultAt(c: Crypto, scope: Scope, start: Cursor, docs: seq<Block>, i: nat): Option<Fault>
    requires i < |docs|
  {
    Check(c, scope, Before(scope, start, docs, i), docs[i])
  }

  ghost predicate CleanUpTo(c: Crypto, scope: Scope, start: Cursor, docs: seq<Block>, k: nat)
    requires k <= |docs|
  {
    forall i | 0 <= i < k :: FaultAt(c, scope, start, docs, i).None?
  }

  lemma PrefixFault(c: Crypto, scope: Scope, start: Cursor, docs: seq<Block>, b: Block, i: nat)
    requires i < |docs|
    ensures FaultAt(c, scope, start, docs + [b], i) == FaultAt(c, scope, start, docs, i)
  {
    assert (docs + [b])[i] == docs[i];
    assert Before(scope, start, docs + [b], i) == Before(scope, start, docs, i);
  }

  /** The scan's verdict: no block has a fault, or the report names the first that has one. */
  ghost predicate Decides(c: Crypto, scope: Scope, start: Cursor, docs: seq<Block>, report: Report) {
    match report
    case Valid(total) => total == |docs| && CleanUpTo(c, scope, start, docs, |docs|)
    case Broken(total, at, fault) =>
      && 0 < total <= |docs| && CleanUpTo(c, scope, start, docs, total - 1)
      && at == Num(scope, docs[total - 1])
      && FaultAt(c, scope, start, docs, total - 1) == Some(fault)
    case _ => false
  }

  /** The index of the first faulty block from i on, or the number of blocks. */
  function FirstFault(c: Crypto, scope: Scope, start: Cursor, docs: seq<Block>, i: nat): (k: nat)
    requires i <= |docs|
    ensures i <= k <= |docs|
    ensures forall j | i <= j < k :: FaultAt(c, scope, start, docs, j).None?
    ensures k < |docs| ==> FaultAt(c, scope, start, docs, k).Some?
    decreases |docs| - i
  {
    if i == |docs| || FaultAt(c, scope, start, docs, i).Some? then i
    else FirstFault(c, scope, start, docs, i + 1)
  }

  function Scan(c: Crypto, scope: Scope, start: Cursor, docs: seq<Block>): (report: Report)
    ensures Decides(c, scope, start, docs, report)
  {
    var k := FirstFault(c, scope, start, docs, 0);
    if k == |docs| then Valid(|docs|)
    else Broken(k + 1, Num(scope, docs[k]), FaultAt(c, scope, start, docs, k).value)
  }

  /** The verdict is unique, so anything that decides the scan is its result. */
  lemma DecidesOnce(c: Crypto, scope: Scope, start: Cursor, docs: seq<Block>, r: Report, s: Report)
    requires Decides(c, scope, start, docs, r) && Decides(c, scope, start, docs, s)
    ensures r == s
  {
  }

  /** A report that decides is the scan's. */
  lemma ScanIs(c: Crypto, scope: Scope, start: Cursor, docs: seq<Block>, report: Report)
    requires Decides(c, scope, start, docs, report)
    ensures Scan(c, scope, start, docs) == report
  {
    DecidesOnce(c, scope, start, docs, report, Scan(c, scope, start, docs));
  }

  function FullScan(c: Crypto, log: seq<Block>, scope: Scope): Report {
    Scan(c, scope, FromGenesis(c, scope), Chain(log, scope))
  }

  function ScanAfter(c: Crypto, log: seq<Block>, scope: Scope, marker: nat): Report {
    Scan(c, scope, FromMarker(log, scope, marker), Query(log, scope, Some(marker)))
  }

  /** The blocks up to the marker pass the scan from genesis. */
  ghost predicate PrefixClean(c: Crypto, log: seq<Block>, scope: Scope, marker: nat) {
    forall i | 0 <= i < |Chain(log, scope)| && Num(scope, Chain(log, scope)[i]) <= marker ::
      FaultAt(c, scope, FromGenesis(c, scope), Chain(log, scope), i).None?
  }

  /** The marker is a stored number and the blocks up to it pass. */
  ghost predicate MarkerSound(c: Crypto, log: seq<Block>, scope: Scope, marker: nat) {
    FindByNumber(log, scope, marker).Some? && PrefixClean(c, log, scope, marker)
  }

  /** Where a stored marker splits the chain: its block is the last of the first part. */
  lemma MarkerSplit(log: seq<Block>, scope: Scope, marker: nat) returns (k: nat)
    requires UniqueNumbers(log, scope) && FindByNumber(log, scope, marker).Some?
    ensures 0 < k <= |Chain(log, scope)|
    ensures Query(log, scope, Some(marker)) == Chain(log, scope)[k..]
    ensures FindByNumber(log, scope, marker) == Some(Chain(log, scope)[k - 1])
    ensures Num(scope, Chain(log, scope)[k - 1]) == marker
    ensures forall i | 0 <= i < |Chain(log, scope)| :: i < k <==> Num(scope, Chain(log, scope)[i]) <= marker
  {
    var chain := Chain(log, scope);
    k := AfterIsSuffix(log, scope, marker);
    QueryFacts(log, scope, None);
    FindFacts(log, scope, marker);
    var b := FindByNumber(log, scope, marker).value;
    assert b in chain;
    var i :| 0 <= i < |chain| && chain[i] == b;
    assert i < k;
    QueryIncreasing(log, scope, None);
    assert Num(scope, chain[k - 1]) <= marker && Num(scope, chain[i]) == marker;
    assert i == k - 1;
    FindInChain(log, scope, i);
  }

  /** The report of a scan whose first k blocks were skipped, counted from genesis. */
  function Shifted(k: nat, part: Report): Report {
    match part
    case Valid(total) => Valid(k + total)
    case Broken(total, at, fault) => Broken(k + total, at, fault)
    case other => other
  }

  lemma ShiftedDecides(c: Crypto, scope: Scope, genesis: Cursor, start: Cursor, chain: seq<Block>, k: nat, part: Report)
    requires k <= |chain| && CleanUpTo(c, scope, genesis, chain, k)
    requires forall i | k <= i < |chain| ::
               FaultAt(c, scope, genesis, chain, i) == FaultAt(c, scope, start, chain[k..], i - k)
    requires Decides(c, scope, start, chain[k..], part)
    ensures Decides(c, scope, genesis, chain, Shifted(k, part))
  {
    var docs := chain[k..];
    var clean := if part.Valid? then |docs| else part.totalChecked - 1;
    forall i | 0 <= i < k + clean ensures FaultAt(c, scope, genesis, chain, i).None? {
      if i >= k {
        assert FaultAt(c, scope, start, docs, i - k).None?;
      }
    }
    if part.Broken? {
      assert docs[clean] == chain[k + clean];
      assert FaultAt(c, scope, start, docs, k + clean - k) == FaultAt(c, scope, genesis, chain, k + clean);
    }
  }

  lemma SuffixFaults(c: Crypto, scope: Scope, genesis: Cursor, start: Cursor, chain: seq<Block>, k: nat)
    requires 0 < k <= |chain| && start == After(scope, chain[k - 1])
    ensures forall i | k <= i < |chain| ::
              FaultAt(c, scope, genesis, chain, i) == FaultAt(c, scope, start, chain[k..], i - k)
  {
    forall i | k <= i < |chain|
      ensures FaultAt(c, scope, genesis, chain, i) == FaultAt(c, scope, start, chain[k..], i - k)
    {
      assert Before(scope, genesis, chain, i) == Before(scope, start, chain[k..], i - k);
    }
  }

  /**
   * Incremental verification refines full verification. With a sound marker, scanning from the
   * marker and scanning from genesis give the same verdict, the same brokenAt and the same fault;
   * the full scan counts exactly the blocks before the marker in addition.
   */
  lemma IncrementalRefinesFull(c: Crypto, log: seq<Block>, scope: Scope, marker: nat) returns (k: nat)
    requires UniqueNumbers(log, scope) && MarkerSound(c, log, scope, marker)
    ensures k == |Chain(log, scope)| - |Query(log, scope, Some(marker))|
    ensures FullScan(c, log, scope) == Shifted(k, ScanAfter(c, log, scope, marker))
  {
    k := MarkerSplit(log, scope, marker);
    var chain, docs := Chain(log, scope), Query(log, scope, Some(marker));
    var genesis, start := FromGenesis(c, scope), FromMarker(log, scope, marker);
    SuffixFaults(c, scope, genesis, start, chain, k);
    assert CleanUpTo(c, scope, genesis, chain, k);
    ShiftedDecides(c, scope, genesis, start, chain, k, ScanAfter(c, log, scope, marker));
    DecidesOnce(c, scope, genesis, chain, FullScan(c, log, scope), Shifted(k, ScanAfter(c, log, scope, marker)));
  }

  /**
   * The marker's block must be stored: a single block numbered 2 after a marker at the missing
   * number 1 passes the incremental scan and fails the full one.
   */
  lemma IncrementalNeedsMarkerBlock(c: Crypto, b: Block)
    requires b.votingId == Some("v") && b.votingSequence == Some(2) && b.hash == BlockHash(c, b)
    ensures ScanAfter(c, [b], Voting("v"), 1) == Valid(1)
    ensures FullScan(c, [b], Voting("v")) == Broken(1, 2, Gap(1, 2))
  {
    var log, scope := [b], Voting("v");
    assert forall x :: x in log <==> x == b;
    QueryIs(log, scope, None, log);
    QueryIs(log, scope, Some(1), log);
    assert FindByNumber(log[1..], scope, 1) == None;
    DecidesOnce(c, scope, FromMarker(log, scope, 1), log, ScanAfter(c, log, scope, 1), Valid(1));
    DecidesOnce(c, scope, FromGenesis(c, scope), log, FullScan(c, log, scope), Broken(1, 2, Gap(1, 2)));
  }
}
