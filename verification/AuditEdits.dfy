/**
 * Edits of a chain that passes, other than of a stored hash: a block deleted, or replaced by one
 * whose hash has been recomputed. What the full scan reports, and what the forensic query returns.
 */
module AuditEdits {
  import opened Base
  import opened AuditChain
  import opened ChainStore
  import opened ChainScan
  import opened AuditState
  import opened AuditGate

  /** A log whose chain passes, and a later one with another chain of the scope. */
  ghost predicate Edited(c: Crypto, log: seq<Block>, log': seq<Block>, scope: Scope, chain': seq<Block>) {
    && UniqueNumbers(log, scope) && UniqueNumbers(log', scope)
    && FullScan(c, log, scope).Valid? && Chain(log', scope) == chain'
  }

  lemma ReportIs(c: Crypto, log: seq<Block>, scope: Scope, report: Report)
    requires Decides(c, scope, FromGenesis(c, scope), Chain(log, scope), report)
    ensures FullScan(c, log, scope) == report
  {
    DecidesOnce(c, scope, FromGenesis(c, scope), Chain(log, scope), FullScan(c, log, scope), report);
  }

  /** What passing the scan says of one block of the chain. */
  ghost predicate Passes(c: Crypto, scope: Scope, chain: seq<Block>, i: nat)
    requires i < |chain|
  {
    && BlockHash(c, chain[i]) == chain[i].hash
    && LinkOf(scope, chain[i]) == Some(if i == 0 then GenesisHash(c, scope) else chain[i - 1].hash)
    && (i > 0 ==> Num(scope, chain[i]) == Num(scope, chain[i - 1]) + 1 && chain[i - 1].createdAt <= chain[i].createdAt)
    && (i == 0 && scope.Voting? ==> Num(scope, chain[i]) == 1)
  }

  lemma PassesIff(c: Crypto, scope: Scope, chain: seq<Block>, i: nat)
    requires i < |chain|
    ensures FaultAt(c, scope, FromGenesis(c, scope), chain, i).None? <==> Passes(c, scope, chain, i)
  {
  }

  lemma AllPass(c: Crypto, log: seq<Block>, scope: Scope)
    requires FullScan(c, log, scope).Valid?
    ensures forall i | 0 <= i < |Chain(log, scope)| :: Passes(c, scope, Chain(log, scope), i)
  {
    ValidIffClean(c, log, scope);
    forall i | 0 <= i < |Chain(log, scope)| ensures Passes(c, scope, Chain(log, scope), i) {
      PassesIff(c, scope, Chain(log, scope), i);
    }
  }

  /** Number and link of a block other than the first. */
  predicate Follows(scope: Scope, chain: seq<Block>, i: nat)
    requires 0 < i < |chain|
  {
    Num(scope, chain[i]) == Num(scope, chain[i - 1]) + 1 && LinkOf(scope, chain[i]) == Some(chain[i - 1].hash)
  }

  lemma AllFollow(c: Crypto, log: seq<Block>, scope: Scope)
    requires FullScan(c, log, scope).Valid?
    ensures forall i | 0 < i < |Chain(log, scope)| :: Follows(scope, Chain(log, scope), i)
  {
    AllPass(c, log, scope);
    forall i | 0 < i < |Chain(log, scope)| ensures Follows(scope, Chain(log, scope), i) {
      assert Passes(c, scope, Chain(log, scope), i);
    }
  }

  /** Blocks that stand after the same block as before pass as before. */
  lemma StillPasses(c: Crypto, scope: Scope, chain: seq<Block>, chain': seq<Block>, i: nat, j: nat)
    requires i < |chain| && j < |chain'| && chain'[j] == chain[i] && Passes(c, scope, chain, i)
    requires (i == 0 && j == 0) || (i > 0 && j > 0 && chain'[j - 1] == chain[i - 1])
    ensures FaultAt(c, scope, FromGenesis(c, scope), chain', j).None?
  {
    PassesIff(c, scope, chain', j);
  }

  /** The number the scan expects at a position, if it expects one. */
  function ExpectedNumber(scope: Scope, chain: seq<Block>, i: nat): Option<nat>
    requires i < |chain|
  {
    if i > 0 then Some(Num(scope, chain[i - 1]) + 1) else if scope.Voting? then Some(1) else None
  }

  predicate TimeRunsOn(chain: seq<Block>, i: nat)
    requires i < |chain|
  {
    i > 0 ==> chain[i - 1].createdAt <= chain[i].createdAt
  }

  /** What each fault of the full scan says of the block, and that the checks before it have passed. */
  lemma FaultMeans(c: Crypto, scope: Scope, chain: seq<Block>, i: nat)
    requires i < |chain|
    ensures var b, expected := chain[i], ExpectedNumber(scope, chain, i);
      var numbered := expected.None? || Num(scope, b) == expected.value;
      var link := if i > 0 then chain[i - 1].hash else GenesisHash(c, scope);
      match FaultAt(c, scope, FromGenesis(c, scope), chain, i)
      case None => Passes(c, scope, chain, i)
      case Some(Gap(n, got)) => expected == Some(n) && got == Num(scope, b) != n
      case Some(TimeManipulation) => numbered && !TimeRunsOn(chain, i)
      case Some(TamperedHash(computed, found, block)) =>
        numbered && TimeRunsOn(chain, i) && block == b && found == b.hash && computed == BlockHash(c, b) != found
      case Some(BrokenLink(wanted, found, block)) =>
        && numbered && TimeRunsOn(chain, i) && BlockHash(c, b) == b.hash
        && block == b && found == LinkOf(scope, b) && wanted == link && found != Some(wanted)
  {
    PassesIff(c, scope, chain, i);
  }

  /** The checks of an incremental scan on the first block it reads, with the marker's block stored or not. */
  predicate FollowsMarker(c: Crypto, log: seq<Block>, scope: Scope, marker: nat, b: Block) {
    var at := FindByNumber(log, scope, marker);
    && Num(scope, b) == marker + 1 && BlockHash(c, b) == b.hash
    && (at.Some? ==> at.value.createdAt <= b.createdAt && LinkOf(scope, b) == Some(at.value.hash))
  }

  /**
   * An incremental scan stops at its first block exactly when that does not follow the marker, whose
   * block is compared with if it is stored; and it stops over a gap exactly when the number is not the next.
   */
  lemma IncrementalStopsFirstIff(c: Crypto, log: seq<Block>, scope: Scope, marker: nat)
    requires Query(log, scope, Some(marker)) != []
    ensures var b, report := Query(log, scope, Some(marker))[0], ScanAfter(c, log, scope, marker);
      && (report.Broken? && report.totalChecked == 1 <==> !FollowsMarker(c, log, scope, marker, b))
      && (Num(scope, b) != marker + 1 ==>
            report == Broken(1, Num(scope, b), Gap(marker + 1, Num(scope, b))))
  {
    var docs, start := Query(log, scope, Some(marker)), FromMarker(log, scope, marker);
    assert FaultAt(c, scope, start, docs, 0).None? <==> FollowsMarker(c, log, scope, marker, docs[0]);
  }

  // ---- a deleted block ----

  function Without(chain: seq<Block>, k: nat): seq<Block>
    requires k < |chain|
  {
    chain[..k] + chain[k + 1..]
  }

  /**
   * Deleting block k: the last one goes unnoticed. Otherwise the block after it has a gap before it;
   * outside a voting, where the first number is free, the first block's deletion shows as a broken link.
   */
  function DeletionReport(c: Crypto, scope: Scope, chain: seq<Block>, k: nat): Report
    requires k < |chain|
  {
    if k + 1 == |chain| then Valid(k)
    else
      var next := chain[k + 1];
      Broken(k + 1, Num(scope, next),
             if k > 0 || scope.Voting? then Gap(Num(scope, chain[k]), Num(scope, next))
             else BrokenLink(GenesisHash(c, scope), Some(chain[0].hash), next))
  }

  lemma GapFault(c: Crypto, scope: Scope, before: Cursor, b: Block)
    requires before.prevSequence.Some? && Num(scope, b) != before.prevSequence.value + 1
    ensures Check(c, scope, before, b) == Some(Gap(before.prevSequence.value + 1, Num(scope, b)))
  {
  }

  lemma FirstLinkFault(c: Crypto, scope: Scope, b: Block)
    requires !scope.Voting? && BlockHash(c, b) == b.hash && LinkOf(scope, b) != Some(GenesisHash(c, scope))
    ensures Check(c, scope, FromGenesis(c, scope), b) == Some(BrokenLink(GenesisHash(c, scope), LinkOf(scope, b), b))
  {
  }

  lemma DeletedGap(c: Crypto, scope: Scope, chain: seq<Block>, k: nat)
    requires k + 1 < |chain| && (k > 0 || scope.Voting?) && Follows(scope, chain, k + 1)
    requires if k > 0 then Follows(scope, chain, k) else Num(scope, chain[0]) == 1
    ensures FaultAt(c, scope, FromGenesis(c, scope), Without(chain, k), k)
         == Some(Gap(Num(scope, chain[k]), Num(scope, chain[k + 1])))
  {
    assert Without(chain, k)[k] == chain[k + 1];
    if k > 0 {
      assert Without(chain, k)[k - 1] == chain[k - 1];
      GapFault(c, scope, After(scope, chain[k - 1]), chain[k + 1]);
    } else {
      GapFault(c, scope, FromGenesis(c, scope), chain[1]);
    }
  }

  lemma DeletedFault(c: Crypto, scope: Scope, chain: seq<Block>, k: nat)
    requires k + 1 < |chain| && Passes(c, scope, chain, k) && Passes(c, scope, chain, k + 1)
    requires chain[k].hash != GenesisHash(c, scope)
    ensures FaultAt(c, scope, FromGenesis(c, scope), Without(chain, k), k) == Some(DeletionReport(c, scope, chain, k).fault)
  {
    if k > 0 || scope.Voting? {
      DeletedGap(c, scope, chain, k);
    } else {
      assert Without(chain, k)[0] == chain[1];
      FirstLinkFault(c, scope, chain[1]);
    }
  }

  lemma DeletedBlockIsReported(c: Crypto, log: seq<Block>, log': seq<Block>, scope: Scope, k: nat)
    requires k < |Chain(log, scope)| && Edited(c, log, log', scope, Without(Chain(log, scope), k))
    requires Chain(log, scope)[k].hash != GenesisHash(c, scope)
    ensures FullScan(c, log', scope) == DeletionReport(c, scope, Chain(log, scope), k)
  {
    var chain, chain' := Chain(log, scope), Without(Chain(log, scope), k);
    AllPass(c, log, scope);
    forall i | 0 <= i < k ensures FaultAt(c, scope, FromGenesis(c, scope), chain', i).None? {
      StillPasses(c, scope, chain, chain', i, i);
    }
    if k + 1 < |chain| {
      DeletedFault(c, scope, chain, k);
    }
    ReportIs(c, log', scope, DeletionReport(c, scope, chain, k));
  }

  lemma HoleIsNotFound(log: seq<Block>, log': seq<Block>, scope: Scope, k: nat)
    requires UniqueNumbers(log, scope) && UniqueNumbers(log', scope)
    requires k < |Chain(log, scope)| && Chain(log', scope) == Without(Chain(log, scope), k)
    ensures FindByNumber(log', scope, Num(scope, Chain(log, scope)[k])).None?
  {
    var chain, n := Chain(log, scope), Num(scope, Chain(log, scope)[k]);
    QueryIncreasing(log, scope, None);
    FindFacts(log', scope, n);
    forall x | x in log' ensures NumberIn(scope, x) != Some(n) {
      if InScope(scope, x) {
        var i := PositionInChain(log', scope, x);
        assert x == chain[if i < k then i else i + 1];
      }
    }
  }

  lemma GapAround(log: seq<Block>, scope: Scope, k: nat, n: nat)
    requires UniqueNumbers(log, scope) && k < |Chain(log, scope)|
    requires Num(scope, Chain(log, scope)[k]) == n + 1 && FindByNumber(log, scope, n).None?
    ensures var b := Chain(log, scope)[k];
      && Around(log, scope, n + 1) == [Record(b, Victim(LinkOf(scope, b), None))]
      && forall expected :: Predecessor(log, scope, b, expected) == []
  {
    FindInChain(log, scope, k);
  }

  function DeletionRecords(c: Crypto, scope: Scope, chain: seq<Block>, k: nat): seq<Record>
    requires k < |chain|
  {
    if k + 1 == |chain| then []
    else
      [Record(chain[k + 1], Victim(Some(chain[k].hash),
                                   if k > 0 || scope.Voting? then None else Some(GenesisHash(c, scope))))]
  }

  lemma DeletionReturns(c: Crypto, log: seq<Block>, log': seq<Block>, scope: Scope, k: nat)
    requires UniqueNumbers(log, scope) && UniqueNumbers(log', scope)
    requires k + 1 < |Chain(log, scope)| && Chain(log', scope) == Without(Chain(log, scope), k)
    requires Follows(scope, Chain(log, scope), k + 1)
    ensures Compromised(log', scope, DeletionReport(c, scope, Chain(log, scope), k))
         == DeletionRecords(c, scope, Chain(log, scope), k)
  {
    var chain := Chain(log, scope);
    assert Chain(log', scope)[k] == chain[k + 1];
    HoleIsNotFound(log, log', scope, k);
    GapAround(log', scope, k, Num(scope, chain[k]));
  }

  /** The query returns the block after the hole, with no block before it to compare with. */
  lemma DeletedBlockIsReturnedAs(c: Crypto, log: seq<Block>, log': seq<Block>, scope: Scope, k: nat)
    requires k < |Chain(log, scope)| && Edited(c, log, log', scope, Without(Chain(log, scope), k))
    requires Chain(log, scope)[k].hash != GenesisHash(c, scope)
    ensures Compromised(log', scope, FullScan(c, log', scope)) == DeletionRecords(c, scope, Chain(log, scope), k)
  {
    DeletedBlockIsReported(c, log, log', scope, k);
    if k + 1 < |Chain(log, scope)| {
      AllFollow(c, log, scope);
      DeletionReturns(c, log, log', scope, k);
    }
  }

  // ---- a replaced block ----

  /** Another block in the place of block k, with its number and link and a hash of its own. */
  predicate Replaces(c: Crypto, scope: Scope, chain: seq<Block>, k: nat, b: Block)
    requires k < |chain|
  {
    && InScope(scope, b) && Num(scope, b) == Num(scope, chain[k]) && LinkOf(scope, b) == LinkOf(scope, chain[k])
    && b.hash == BlockHash(c, b) && b.hash != chain[k].hash
  }

  /** Where the replacement shows: at its own time, at the next block's time, or at the next block's link. */
  function ReplacementReport(scope: Scope, chain: seq<Block>, k: nat, b: Block): Report
    requires k < |chain|
  {
    if k > 0 && b.createdAt < chain[k - 1].createdAt then Broken(k + 1, Num(scope, b), TimeManipulation)
    else if k + 1 == |chain| then Valid(k + 1)
    else
      var next := chain[k + 1];
      Broken(k + 2, Num(scope, next),
             if next.createdAt < b.createdAt then TimeManipulation else BrokenLink(b.hash, Some(chain[k].hash), next))
  }

  lemma ReplacedFault(c: Crypto, scope: Scope, chain: seq<Block>, k: nat, b: Block)
    requires k < |chain| && Replaces(c, scope, chain, k, b) && Passes(c, scope, chain, k)
    ensures FaultAt(c, scope, FromGenesis(c, scope), chain[k := b], k)
         == if k > 0 && b.createdAt < chain[k - 1].createdAt then Some(TimeManipulation) else None
  {
  }

  lemma NextFault(c: Crypto, scope: Scope, chain: seq<Block>, k: nat, b: Block)
    requires k + 1 < |chain| && Replaces(c, scope, chain, k, b) && Passes(c, scope, chain, k + 1)
    ensures FaultAt(c, scope, FromGenesis(c, scope), chain[k := b], k + 1)
         == Some(if chain[k + 1].createdAt < b.createdAt then TimeManipulation
                 else BrokenLink(b.hash, Some(chain[k].hash), chain[k + 1]))
  {
  }

  lemma ReplacementKeepsFront(c: Crypto, scope: Scope, chain: seq<Block>, chain': seq<Block>, k: nat)
    requires k < |chain| == |chain'| && chain'[..k] == chain[..k]
    requires forall i | 0 <= i < |chain| :: Passes(c, scope, chain, i)
    ensures CleanUpTo(c, scope, FromGenesis(c, scope), chain', k)
  {
    forall i | 0 <= i < k ensures FaultAt(c, scope, FromGenesis(c, scope), chain', i).None? {
      assert chain'[i] == chain'[..k][i] && chain[i] == chain[..k][i];
      assert i > 0 ==> chain'[i - 1] == chain'[..k][i - 1] && chain[i - 1] == chain[..k][i - 1];
      StillPasses(c, scope, chain, chain', i, i);
    }
  }

  lemma ReplacementDecides(c: Crypto, scope: Scope, chain: seq<Block>, chain': seq<Block>, k: nat, b: Block)
    requires k < |chain| && chain' == chain[k := b] && CleanUpTo(c, scope, FromGenesis(c, scope), chain', k)
    requires FaultAt(c, scope, FromGenesis(c, scope), chain', k)
          == if k > 0 && b.createdAt < chain[k - 1].createdAt then Some(TimeManipulation) else None
    requires k + 1 < |chain| ==>
               FaultAt(c, scope, FromGenesis(c, scope), chain', k + 1)
                 == Some(if chain[k + 1].createdAt < b.createdAt then TimeManipulation
                         else BrokenLink(b.hash, Some(chain[k].hash), chain[k + 1]))
    ensures Decides(c, scope, FromGenesis(c, scope), chain', ReplacementReport(scope, chain, k, b))
  {
  }

  lemma ReplacedBlockIsReported(c: Crypto, log: seq<Block>, log': seq<Block>, scope: Scope, k: nat, b: Block)
    requires k < |Chain(log, scope)| && Replaces(c, scope, Chain(log, scope), k, b)
    requires Edited(c, log, log', scope, Chain(log, scope)[k := b])
    ensures FullScan(c, log', scope) == ReplacementReport(scope, Chain(log, scope), k, b)
  {
    var chain, chain' := Chain(log, scope), Chain(log', scope);
    AllPass(c, log, scope);
    ReplacementKeepsFront(c, scope, chain, chain', k);
    ReplacedFault(c, scope, chain, k, b);
    if k + 1 < |chain| {
      NextFault(c, scope, chain, k, b);
    }
    ReplacementDecides(c, scope, chain, chain', k, b);
    ReportIs(c, log', scope, ReplacementReport(scope, chain, k, b));
  }

  /** The blocks the query takes from around a stored number that follows on the one before. */
  lemma NeighboursAround(log: seq<Block>, scope: Scope, k: nat)
    requires UniqueNumbers(log, scope) && 0 < k < |Chain(log, scope)|
    requires Num(scope, Chain(log, scope)[k]) == Num(scope, Chain(log, scope)[k - 1]) + 1
    ensures var a, b := Chain(log, scope)[k - 1], Chain(log, scope)[k];
      && Around(log, scope, Num(scope, b)) ==
           [Record(a, Tampered(a.hash, None)), Record(b, Victim(LinkOf(scope, b), Some(a.hash)))]
      && forall expected :: Predecessor(log, scope, b, expected) == [Record(a, Tampered(a.hash, expected))]
  {
    FindInChain(log, scope, k);
    FindInChain(log, scope, k - 1);
  }

  /**
   * The replaced block and the one the report names beside it: the block before, over a time that
   * runs backwards at the replaced one, else the next. A hash is given as the expected one of the
   * replaced block only when the scan saw the link and not a time.
   */
  function ReplacementRecords(chain: seq<Block>, k: nat, b: Block): seq<Record>
    requires k < |chain|
  {
    if k > 0 && b.createdAt < chain[k - 1].createdAt then
      var before := chain[k - 1].hash;
      [Record(chain[k - 1], Tampered(before, None)), Record(b, Victim(Some(before), Some(before)))]
    else if k + 1 == |chain| then []
    else
      [Record(b, Tampered(b.hash, if chain[k + 1].createdAt < b.createdAt then None else Some(b.hash))),
       Record(chain[k + 1], Victim(Some(chain[k].hash), Some(b.hash)))]
  }

  lemma ReplacementReturns(log': seq<Block>, scope: Scope, chain: seq<Block>, k: nat, b: Block)
    requires UniqueNumbers(log', scope) && k < |chain| && Chain(log', scope) == chain[k := b]
    requires Num(scope, b) == Num(scope, chain[k]) && LinkOf(scope, b) == LinkOf(scope, chain[k])
    requires forall i | 0 < i < |chain| :: Follows(scope, chain, i)
    ensures Compromised(log', scope, ReplacementReport(scope, chain, k, b)) == ReplacementRecords(chain, k, b)
  {
    var chain' := Chain(log', scope);
    if k > 0 && b.createdAt < chain[k - 1].createdAt {
      assert Follows(scope, chain, k) && chain'[k - 1] == chain[k - 1] && chain'[k] == b;
      NeighboursAround(log', scope, k);
    } else if k + 1 < |chain| {
      assert Follows(scope, chain, k + 1) && chain'[k] == b && chain'[k + 1] == chain[k + 1];
      NeighboursAround(log', scope, k + 1);
    }
  }

  /** The query returns exactly those, and nothing for a replaced last block. */
  lemma ReplacedBlockIsReturned(c: Crypto, log: seq<Block>, log': seq<Block>, scope: Scope, k: nat, b: Block)
    requires k < |Chain(log, scope)| && Replaces(c, scope, Chain(log, scope), k, b)
    requires Edited(c, log, log', scope, Chain(log, scope)[k := b])
    ensures Compromised(log', scope, FullScan(c, log', scope)) == ReplacementRecords(Chain(log, scope), k, b)
  {
    ReplacedBlockIsReported(c, log, log', scope, k, b);
    AllFollow(c, log, scope);
    ReplacementReturns(log', scope, Chain(log, scope), k, b);
  }
}
