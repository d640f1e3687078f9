/**
 * Exact localisation of an overwritten hash: what the full scan, the forensic query and the
 * incremental scans report after one block's stored hash is replaced in a valid chain.
 */
module AuditTampering {
  import opened Base
  import opened AuditChain
  import opened ChainStore
  import opened ChainScan
  import opened Sorting
  import opened AuditState
  import opened AuditGate

  lemma {:induction false} TamperMembers(log: seq<Block>, sequence: nat, hash: string, victim: Block)
    requires UniqueNumbers(log, Global) && victim in log && victim.sequence == sequence
    ensures |Tamper(log, sequence, hash)| == |log|
    ensures forall i | 0 <= i < |log| :: Tamper(log, sequence, hash)[i] ==
              if log[i].sequence == sequence then log[i].(hash := hash) else log[i]
  {
    var rest := log[1..];
    assert forall i | 0 <= i < |rest| :: rest[i] == log[i + 1];
    if log[0].sequence == sequence {
      forall i | 0 < i < |log| ensures log[i].sequence != sequence {
        assert Num(Global, log[0]) != Num(Global, log[i]);
      }
    } else {
      assert victim in rest;
      TamperMembers(rest, sequence, hash, victim);
    }
  }

  lemma TamperKeepsNumbers(b: Block, hash: string, scope: Scope)
    ensures NumberIn(scope, b.(hash := hash)) == NumberIn(scope, b)
    ensures LinkOf(scope, b.(hash := hash)) == LinkOf(scope, b)
  {
  }

  lemma HashIsNotHashed(c: Crypto, b: Block, hash: string)
    ensures BlockHash(c, b.(hash := hash)) == BlockHash(c, b)
  {
    assert Heads(b.(hash := hash)) == Heads(b);
  }

  lemma TamperKeepsUnique(log: seq<Block>, scope: Scope, hash: string, b: Block)
    requires UniqueNumbers(log, Global) && UniqueNumbers(log, scope) && b in log
    ensures UniqueNumbers(Tamper(log, b.sequence, hash), scope)
  {
    var log' := Tamper(log, b.sequence, hash);
    TamperMembers(log, b.sequence, hash, b);
    forall i, j | 0 <= i < j < |log'| && InScope(scope, log'[i]) && InScope(scope, log'[j])
      ensures Num(scope, log'[i]) != Num(scope, log'[j])
    {
      TamperKeepsNumbers(log[i], hash, scope);
      TamperKeepsNumbers(log[j], hash, scope);
    }
  }

  lemma TamperedMembers(log: seq<Block>, scope: Scope, k: nat, hash: string, x: Block)
    requires UniqueNumbers(log, Global) && UniqueNumbers(log, scope) && k < |Chain(log, scope)|
    ensures var chain := Chain(log, scope);
            x in chain[k := chain[k].(hash := hash)] <==>
            x in Tamper(log, chain[k].sequence, hash) && Selected(scope, None, x)
  {
    var chain := Chain(log, scope);
    var b := chain[k];
    var log', docs := Tamper(log, b.sequence, hash), chain[k := b.(hash := hash)];
    QueryFacts(log, scope, None);
    QueryIncreasing(log, scope, None);
    assert b in chain;
    TamperMembers(log, b.sequence, hash, b);
    TamperKeepsNumbers(b, hash, scope);
    if x in docs {
      var i :| 0 <= i < |docs| && docs[i] == x;
      assert chain[i] in chain;
      DocInLog(log, log', scope, chain[i], b, hash);
    }
    if x in log' && Selected(scope, None, x) {
      var i :| 0 <= i < |log'| && log'[i] == x;
      assert log[i] in log;
      TamperKeepsNumbers(log[i], hash, scope);
      LogInDocs(log, scope, chain, k, hash, log[i]);
    }
  }

  /** The chain after the overwrite differs only in the hash of block k. */
  lemma TamperedChain(log: seq<Block>, scope: Scope, k: nat, hash: string)
    requires UniqueNumbers(log, Global) && UniqueNumbers(log, scope) && k < |Chain(log, scope)|
    ensures var chain := Chain(log, scope);
            var log' := Tamper(log, chain[k].sequence, hash);
            UniqueNumbers(log', scope) && Chain(log', scope) == chain[k := chain[k].(hash := hash)]
  {
    var chain := Chain(log, scope);
    var log', docs := Tamper(log, chain[k].sequence, hash), chain[k := chain[k].(hash := hash)];
    QueryFacts(log, scope, None);
    assert chain[k] in chain;
    TamperKeepsUnique(log, scope, hash, chain[k]);
    QueryIncreasing(log, scope, None);
    TamperKeepsNumbers(chain[k], hash, scope);
    forall i, j | 0 <= i < j < |docs| ensures ByNumber(scope)(docs[i], docs[j]) {
      assert Num(scope, chain[i]) < Num(scope, chain[j]);
    }
    forall x ensures x in docs <==> x in log' && Selected(scope, None, x) {
      TamperedMembers(log, scope, k, hash, x);
    }
    QueryIs(log', scope, None, docs);
  }

  lemma DocInLog(log: seq<Block>, log': seq<Block>, scope: Scope, x: Block, b: Block, hash: string)
    requires UniqueNumbers(log, Global) && x in log && b in log
    requires |log'| == |log|
    requires forall i | 0 <= i < |log| :: log'[i] == if log[i].sequence == b.sequence then log[i].(hash := hash) else log[i]
    ensures (if x == b then b.(hash := hash) else x) in log'
  {
    var i :| 0 <= i < |log| && log[i] == x;
    if x != b && x.sequence == b.sequence {
      SameNumberSameBlock(log, Global, x, b);
    }
    assert log'[i] in log';
  }

  lemma LogInDocs(log: seq<Block>, scope: Scope, chain: seq<Block>, k: nat, hash: string, x: Block)
    requires UniqueNumbers(log, Global) && k < |chain| && chain[k] in log
    requires x in log && x in chain
    requires forall i, j | 0 <= i < j < |chain| :: Num(scope, chain[i]) < Num(scope, chain[j])
    ensures var y := if x.sequence == chain[k].sequence then x.(hash := hash) else x;
            y in chain[k := chain[k].(hash := hash)]
  {
    var docs := chain[k := chain[k].(hash := hash)];
    var i :| 0 <= i < |chain| && chain[i] == x;
    if x.sequence == chain[k].sequence {
      SameNumberSameBlock(log, Global, x, chain[k]);
      assert docs[k] in docs;
    } else {
      assert docs[i] == x;
    }
  }

  /** The overwritten chain. */
  function Overwritten(chain: seq<Block>, k: nat, hash: string): seq<Block>
    requires k < |chain|
  {
    chain[k := chain[k].(hash := hash)]
  }

  /** The faults of the overwritten chain: one at k, one at k + 1, and no other. */
  function ExpectedFault(chain: seq<Block>, k: nat, hash: string, i: nat): Option<Fault>
    requires k < |chain| && i < |chain|
  {
    if i == k then Some(TamperedHash(chain[k].hash, hash, chain[k].(hash := hash)))
    else if i == k + 1 then Some(BrokenLink(hash, Some(chain[k].hash), chain[i]))
    else None
  }

  lemma TamperedFault(c: Crypto, scope: Scope, chain: seq<Block>, k: nat, hash: string, i: nat)
    requires k < |chain| && CleanUpTo(c, scope, FromGenesis(c, scope), chain, |chain|) && hash != chain[k].hash
    requires i < |chain|
    ensures FaultAt(c, scope, FromGenesis(c, scope), Overwritten(chain, k, hash), i) == ExpectedFault(chain, k, hash, i)
  {
    var docs := Overwritten(chain, k, hash);
    TamperKeepsNumbers(chain[k], hash, scope);
    HashIsNotHashed(c, chain[k], hash);
    assert FaultAt(c, scope, FromGenesis(c, scope), chain, i).None?;
    assert i > 0 && i != k + 1 ==> docs[i - 1] == chain[i - 1];
  }

  lemma ScanStopsAtTamper(c: Crypto, scope: Scope, chain: seq<Block>, k: nat, hash: string)
    requires k < |chain| && CleanUpTo(c, scope, FromGenesis(c, scope), chain, |chain|) && hash != chain[k].hash
    ensures Scan(c, scope, FromGenesis(c, scope), Overwritten(chain, k, hash)) ==
              Broken(k + 1, Num(scope, chain[k]), TamperedHash(chain[k].hash, hash, chain[k].(hash := hash)))
  {
    var docs, genesis := Overwritten(chain, k, hash), FromGenesis(c, scope);
    forall i | 0 <= i < |docs| ensures FaultAt(c, scope, genesis, docs, i) == ExpectedFault(chain, k, hash, i) {
      TamperedFault(c, scope, chain, k, hash, i);
    }
    TamperKeepsNumbers(chain[k], hash, scope);
    DecidesOnce(c, scope, genesis, docs, Scan(c, scope, genesis, docs),
                Broken(k + 1, Num(scope, chain[k]), TamperedHash(chain[k].hash, hash, docs[k])));
  }

  /**
   * Overwriting only the hash of the block at position k of a valid chain: the full scan stops
   * at that block, with the original hash as the expected one.
   */
  lemma FullScanLocatesTamper(c: Crypto, log: seq<Block>, scope: Scope, k: nat, hash: string)
    requires UniqueNumbers(log, Global) && UniqueNumbers(log, scope) && k < |Chain(log, scope)|
    requires FullScan(c, log, scope).Valid? && hash != Chain(log, scope)[k].hash
    ensures var chain := Chain(log, scope);
            var block := chain[k].(hash := hash);
            FullScan(c, Tamper(log, chain[k].sequence, hash), scope) ==
              Broken(k + 1, Num(scope, chain[k]), TamperedHash(chain[k].hash, hash, block))
  {
    TamperedChain(log, scope, k, hash);
    ValidIffClean(c, log, scope);
    ScanStopsAtTamper(c, scope, Chain(log, scope), k, hash);
  }

  /** Numbers of a valid chain run without a hole from one block to the next. */
  lemma ValidNumbersRunOn(c: Crypto, log: seq<Block>, scope: Scope, i: nat)
    requires FullScan(c, log, scope).Valid? && i + 1 < |Chain(log, scope)|
    ensures var chain := Chain(log, scope);
            && Num(scope, chain[i + 1]) == Num(scope, chain[i]) + 1
            && LinkOf(scope, chain[i + 1]) == Some(chain[i].hash)
  {
    ValidIffClean(c, log, scope);
    assert FaultAt(c, scope, FromGenesis(c, scope), Chain(log, scope), i + 1).None?;
  }

  /** The block stored under the number after the overwritten one. */
  lemma NextStored(c: Crypto, log: seq<Block>, scope: Scope, k: nat, hash: string)
    requires UniqueNumbers(log, Global) && UniqueNumbers(log, scope) && k < |Chain(log, scope)|
    requires FullScan(c, log, scope).Valid?
    ensures var chain := Chain(log, scope);
            FindByNumber(Tamper(log, chain[k].sequence, hash), scope, Num(scope, chain[k]) + 1) ==
              if k + 1 < |chain| then Some(chain[k + 1]) else None
  {
    var chain := Chain(log, scope);
    var log', docs := Tamper(log, chain[k].sequence, hash), chain[k := chain[k].(hash := hash)];
    TamperedChain(log, scope, k, hash);
    TamperKeepsNumbers(chain[k], hash, scope);
    var n := Num(scope, chain[k]) + 1;
    if k + 1 < |chain| {
      ValidNumbersRunOn(c, log, scope, k);
      FindInChain(log', scope, k + 1);
    } else {
      assert Num(scope, docs[k]) < n;
      NothingBeyond(log', scope, n);
    }
  }

  lemma NothingBeyond(log: seq<Block>, scope: Scope, n: nat)
    requires UniqueNumbers(log, scope) && Chain(log, scope) != []
    requires Num(scope, Chain(log, scope)[|Chain(log, scope)| - 1]) < n
    ensures FindByNumber(log, scope, n) == None
  {
    var chain := Chain(log, scope);
    QueryFacts(log, scope, None);
    QueryIncreasing(log, scope, None);
    FindFacts(log, scope, n);
    var last := |chain| - 1;
    forall i | 0 <= i < |chain| ensures Num(scope, chain[i]) < n {
      assert i == last || Num(scope, chain[i]) < Num(scope, chain[last]);
    }
    assert forall x :: x in chain ==> Num(scope, x) < n;
  }

  lemma TamperedRecords(log: seq<Block>, scope: Scope, total: nat, at: nat, expected: string, block: Block,
                        next: Option<Block>)
    requires FindByNumber(log, scope, Num(scope, block) + 1) == next
    requires next.Some? ==> LinkOf(scope, next.value) == Some(expected)
    ensures Compromised(log, scope, Broken(total, at, TamperedHash(expected, block.hash, block))) ==
              [Record(block, Tampered(block.hash, Some(expected)))]
              + (if next.Some? then [Record(next.value, Victim(Some(expected), Some(expected)))] else [])
  {
  }

  /** The block after the overwritten one, if any, still links to the original hash. */
  lemma NextLinks(c: Crypto, log: seq<Block>, scope: Scope, k: nat, hash: string) returns (next: Option<Block>)
    requires UniqueNumbers(log, Global) && UniqueNumbers(log, scope) && k < |Chain(log, scope)|
    requires FullScan(c, log, scope).Valid?
    ensures var chain := Chain(log, scope);
            && FindByNumber(Tamper(log, chain[k].sequence, hash), scope, Num(scope, chain[k].(hash := hash)) + 1) == next
            && next == (if k + 1 < |chain| then Some(chain[k + 1]) else None)
            && (next.Some? ==> LinkOf(scope, next.value) == Some(chain[k].hash))
  {
    var chain := Chain(log, scope);
    TamperKeepsNumbers(chain[k], hash, scope);
    NextStored(c, log, scope, k, hash);
    if k + 1 < |chain| {
      ValidNumbersRunOn(c, log, scope, k);
    }
    next := if k + 1 < |chain| then Some(chain[k + 1]) else None;
  }

  /** The forensic query after the overwrite: the block itself and, if there is one, the next. */
  lemma CompromisedBlocks(c: Crypto, log: seq<Block>, scope: Scope, k: nat, hash: string)
    requires UniqueNumbers(log, Global) && UniqueNumbers(log, scope) && k < |Chain(log, scope)|
    requires FullScan(c, log, scope).Valid? && hash != Chain(log, scope)[k].hash
    ensures var chain := Chain(log, scope);
            var log' := Tamper(log, chain[k].sequence, hash);
            var original := chain[k].hash;
            Compromised(log', scope, FullScan(c, log', scope)) ==
              [Record(chain[k].(hash := hash), Tampered(hash, Some(original)))]
              + (if k + 1 < |chain| then [Record(chain[k + 1], Victim(Some(original), Some(original)))] else [])
  {
    var chain := Chain(log, scope);
    FullScanLocatesTamper(c, log, scope, k, hash);
    var next := NextLinks(c, log, scope, k, hash);
    TamperedRecords(Tamper(log, chain[k].sequence, hash), scope, k + 1, Num(scope, chain[k]), chain[k].hash,
                    chain[k].(hash := hash), next);
  }

  /** What a scan from the marker at position m reports after the overwrite at position k. */
  function ExpectedIncremental(scope: Scope, chain: seq<Block>, k: nat, m: nat, hash: string): Report
    requires k < |chain| && m < |chain|
  {
    if m < k then Broken(k - m, Num(scope, chain[k]), TamperedHash(chain[k].hash, hash, chain[k].(hash := hash)))
    else if m == k && k + 1 < |chain| then
      Broken(1, Num(scope, chain[k + 1]), BrokenLink(hash, Some(chain[k].hash), chain[k + 1]))
    else Valid(|chain| - m - 1)
  }

  /**
   * The incremental scan from a marker: it reports the overwritten block when that lies after the
   * marker, a broken link at the next block when it is the marker's own, and nothing otherwise.
   */
  lemma IncrementalScanAfterTamper(c: Crypto, log: seq<Block>, scope: Scope, k: nat, m: nat, hash: string)
    requires UniqueNumbers(log, Global) && UniqueNumbers(log, scope)
    requires k < |Chain(log, scope)| && m < |Chain(log, scope)|
    requires FullScan(c, log, scope).Valid? && hash != Chain(log, scope)[k].hash
    ensures var chain := Chain(log, scope);
            ScanAfter(c, Tamper(log, chain[k].sequence, hash), scope, Num(scope, chain[m])) ==
              ExpectedIncremental(scope, chain, k, m, hash)
  {
    var chain := Chain(log, scope);
    TamperedChain(log, scope, k, hash);
    TamperKeepsNumbers(chain[k], hash, scope);
    SplitAt(c, Tamper(log, chain[k].sequence, hash), scope, m);
    ValidIffClean(c, log, scope);
    ScanAfterTamper(c, scope, chain, k, m, hash);
  }

  /** The faults seen after position m are those of the whole chain. */
  lemma SuffixOfTampered(c: Crypto, scope: Scope, chain: seq<Block>, rest: seq<Block>, k: nat, m: nat, hash: string)
    requires k < |chain| && m < |chain| && rest == Overwritten(chain, k, hash)[m + 1..]
    requires CleanUpTo(c, scope, FromGenesis(c, scope), chain, |chain|) && hash != chain[k].hash
    ensures forall i | 0 <= i < |rest| ::
              FaultAt(c, scope, After(scope, Overwritten(chain, k, hash)[m]), rest, i)
                == ExpectedFault(chain, k, hash, m + 1 + i)
  {
    var docs, genesis := Overwritten(chain, k, hash), FromGenesis(c, scope);
    var start := After(scope, docs[m]);
    SuffixFaults(c, scope, genesis, start, docs, m + 1);
    forall i | 0 <= i < |rest| ensures FaultAt(c, scope, start, rest, i) == ExpectedFault(chain, k, hash, m + 1 + i) {
      TamperedFault(c, scope, chain, k, hash, m + 1 + i);
      assert FaultAt(c, scope, genesis, docs, m + 1 + i) == FaultAt(c, scope, start, rest, (m + 1 + i) - (m + 1));
    }
  }

  lemma ScanAfterTamper(c: Crypto, scope: Scope, chain: seq<Block>, k: nat, m: nat, hash: string)
    requires k < |chain| && m < |chain|
    requires CleanUpTo(c, scope, FromGenesis(c, scope), chain, |chain|) && hash != chain[k].hash
    ensures var docs := Overwritten(chain, k, hash);
            Scan(c, scope, After(scope, docs[m]), docs[m + 1..]) == ExpectedIncremental(scope, chain, k, m, hash)
  {
    var docs := Overwritten(chain, k, hash);
    var start, rest := After(scope, docs[m]), docs[m + 1..];
    SuffixOfTampered(c, scope, chain, rest, k, m, hash);
    TamperKeepsNumbers(chain[k], hash, scope);
    IncrementalDecides(c, scope, start, chain, rest, k, m, hash);
    DecidesOnce(c, scope, start, rest, Scan(c, scope, start, rest), ExpectedIncremental(scope, chain, k, m, hash));
  }

  /** A scan from the number at position m starts from that block and reads the rest of the chain. */
  lemma SplitAt(c: Crypto, log: seq<Block>, scope: Scope, m: nat)
    requires UniqueNumbers(log, scope) && m < |Chain(log, scope)|
    ensures var chain := Chain(log, scope);
            var n := Num(scope, chain[m]);
            && FromMarker(log, scope, n) == After(scope, chain[m])
            && ScanAfter(c, log, scope, n) == Scan(c, scope, After(scope, chain[m]), chain[m + 1..])
  {
    var chain := Chain(log, scope);
    QueryIncreasing(log, scope, None);
    FindInChain(log, scope, m);
    var s := MarkerSplit(log, scope, Num(scope, chain[m]));
    assert s == m + 1;
  }

  lemma IncrementalDecides(c: Crypto, scope: Scope, start: Cursor, chain: seq<Block>, rest: seq<Block>,
                           k: nat, m: nat, hash: string)
    requires k < |chain| && m < |chain| && rest == Overwritten(chain, k, hash)[m + 1..]
    requires forall i | 0 <= i < |rest| :: FaultAt(c, scope, start, rest, i) == ExpectedFault(chain, k, hash, m + 1 + i)
    ensures Decides(c, scope, start, rest, ExpectedIncremental(scope, chain, k, m, hash))
  {
    TamperKeepsNumbers(chain[k], hash, scope);
    if m < k {
      assert rest[k - m - 1] == chain[k].(hash := hash);
    } else if m == k && k + 1 < |chain| {
      assert rest[0] == chain[k + 1];
    }
  }
}
