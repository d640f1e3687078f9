/**
 * The forensic query after one hash has been overwritten, with the throttle and the checkpoints it
 * meets before it scans. A checkpoint on the overwritten block stops the verification first, and
 * reports the block's global number, which the query then reads as a number of the scope.
 */
module AuditForensics {
  import opened Base
  import opened AuditChain
  import opened ChainStore
  import opened ChainScan
  import opened Sorting
  import opened AuditState
  import opened AuditTampering

  predicate Seals(cps: seq<Checkpoint>, sequence: nat) {
    exists i | 0 <= i < |cps| :: cps[i].sequence == sequence
  }

  predicate IsSealed(st: State, scope: Scope, sequence: nat) {
    Seals(CheckpointsOf(st, scope), sequence)
  }

  /** The log with the hash of the block at position k of the scope overwritten. */
  function AfterTamper(st: State, scope: Scope, k: nat, hash: string): State
    requires k < |Chain(st.log, scope)|
  {
    st.(log := Tamper(st.log, Chain(st.log, scope)[k].sequence, hash))
  }

  lemma {:induction false} FirstBrokenIsBroken(log: seq<Block>, cps: seq<Checkpoint>)
    ensures var r := FirstBrokenSeal(log, cps);
      r.Some? ==> exists i :: 0 <= i < |cps| && !Sealed(log, cps[i]) && cps[i].sequence == r.value
  {
    if cps != [] {
      if Sealed(log, cps[0]) {
        FirstBrokenIsBroken(log, cps[1..]);
        var r := FirstBrokenSeal(log, cps[1..]);
        if r.Some? {
          var i :| 0 <= i < |cps[1..]| && !Sealed(log, cps[1..][i]) && cps[1..][i].sequence == r.value;
          assert cps[i + 1] == cps[1..][i];
        }
      } else {
        assert !Sealed(log, cps[0]) && cps[0].sequence == FirstBrokenSeal(log, cps).value;
      }
    }
  }

  lemma FindUnique(log: seq<Block>, x: Block)
    requires UniqueNumbers(log, Global) && x in log
    ensures FindByNumber(log, Global, x.sequence) == Some(x)
  {
    FindFacts(log, Global, x.sequence);
    SameNumberSameBlock(log, Global, x, FindByNumber(log, Global, x.sequence).value);
  }

  /** A stored block is found under its global number after the overwrite, with the new hash if it is the one. */
  lemma FindAfterTamper(log: seq<Block>, b: Block, hash: string, x: Block)
    requires UniqueNumbers(log, Global) && b in log && x in log
    ensures FindByNumber(Tamper(log, b.sequence, hash), Global, x.sequence)
         == Some(if x.sequence == b.sequence then x.(hash := hash) else x)
  {
    var log' := Tamper(log, b.sequence, hash);
    var i :| 0 <= i < |log| && log[i] == x;
    TamperMembers(log, b.sequence, hash, b);
    TamperKeepsUnique(log, Global, hash, b);
    assert log'[i] in log';
    FindUnique(log', log'[i]);
  }

  /** An overwrite breaks exactly the seals on its block. */
  lemma SealAfterTamper(log: seq<Block>, b: Block, hash: string, cp: Checkpoint)
    requires UniqueNumbers(log, Global) && b in log && hash != b.hash && Sealed(log, cp)
    ensures Sealed(Tamper(log, b.sequence, hash), cp) <==> cp.sequence != b.sequence
  {
    FindFacts(log, Global, cp.sequence);
    var x := FindByNumber(log, Global, cp.sequence).value;
    FindAfterTamper(log, b, hash, x);
    if x.sequence == b.sequence {
      SameNumberSameBlock(log, Global, x, b);
    }
  }

  /** With every seal respected before, the first broken one after is on the overwritten block. */
  lemma BrokenAfterTamper(log: seq<Block>, b: Block, hash: string, cps: seq<Checkpoint>)
    requires UniqueNumbers(log, Global) && b in log && hash != b.hash
    requires FirstBrokenSeal(log, cps).None?
    ensures FirstBrokenSeal(Tamper(log, b.sequence, hash), cps) == if Seals(cps, b.sequence) then Some(b.sequence) else None
  {
    var log' := Tamper(log, b.sequence, hash);
    forall i | 0 <= i < |cps| ensures Sealed(log', cps[i]) <==> cps[i].sequence != b.sequence {
      SealAfterTamper(log, b, hash, cps[i]);
    }
    FirstBrokenIsBroken(log', cps);
  }

  lemma SealsSorted(st: State, scope: Scope, sequence: nat)
    ensures Seals(Sort(CheckpointsOf(st, scope), BySequence()), sequence) <==> IsSealed(st, scope, sequence)
  {
    var cps := CheckpointsOf(st, scope);
    var sorted := Sort(cps, BySequence());
    SortElements(cps, BySequence());
    if Seals(cps, sequence) {
      var i :| 0 <= i < |cps| && cps[i].sequence == sequence;
      assert cps[i] in sorted;
    }
    if Seals(sorted, sequence) {
      var i :| 0 <= i < |sorted| && sorted[i].sequence == sequence;
      assert sorted[i] in cps;
    }
  }

  /** The situation of the query: a valid chain, seals respected, one hash overwritten, no throttle. */
  ghost predicate Overwrite(c: Crypto, st: State, scope: Scope, k: nat, hash: string, now: int) {
    && UniqueNumbers(st.log, Global) && UniqueNumbers(st.log, scope) && k < |Chain(st.log, scope)|
    && FullScan(c, st.log, scope).Valid? && hash != Chain(st.log, scope)[k].hash
    && BrokenCheckpoint(st, scope).None? && !IsThrottled(st, scope, now)
  }

  lemma StoredBlock(log: seq<Block>, scope: Scope, k: nat)
    requires k < |Chain(log, scope)|
    requires UniqueNumbers(log, scope)
    ensures Chain(log, scope)[k] in log && InScope(scope, Chain(log, scope)[k])
  {
    QueryFacts(log, scope, None);
    assert Chain(log, scope)[k] in Chain(log, scope);
  }

  /** What the forced verification inside the query reports. */
  lemma ForcedReport(c: Crypto, st: State, scope: Scope, k: nat, hash: string, now: int)
    requires Overwrite(c, st, scope, k, hash, now)
    ensures var st', b := AfterTamper(st, scope, k, hash), Chain(st.log, scope)[k];
      Verify(c, st', scope, true, now).1 ==
        if IsSealed(st, scope, b.sequence) then CheckpointBroken(b.sequence) else FullScan(c, st'.log, scope)
  {
    var b := Chain(st.log, scope)[k];
    StoredBlock(st.log, scope, k);
    BrokenAfterTamper(st.log, b, hash, Sort(CheckpointsOf(st, scope), BySequence()));
    SealsSorted(st, scope, b.sequence);
  }

  /** What the query should return: the overwritten block and the next, with both hashes. */
  function Pair(chain: seq<Block>, k: nat, hash: string): seq<Record>
    requires k < |chain|
  {
    var original := Some(chain[k].hash);
    [Record(chain[k].(hash := hash), Tampered(hash, original))]
    + (if k + 1 < |chain| then [Record(chain[k + 1], Victim(original, original))] else [])
  }

  /** What the forced verification and the query after it return once the hash is overwritten. */
  function Returns(c: Crypto, st: State, scope: Scope, k: nat, hash: string, now: int): seq<Record>
    requires k < |Chain(st.log, scope)|
  {
    var st' := AfterTamper(st, scope, k, hash);
    Compromised(st'.log, scope, Verify(c, st', scope, true, now).1)
  }

  /** The generic answer never begins with a block tagged with the hash it should have. */
  lemma AroundKnowsNoHash(log: seq<Block>, scope: Scope, at: nat)
    ensures var r := Around(log, scope, at);
      r != [] && r[0].role.Tampered? ==> r[0].role.expectedHash.None?
  {
  }

  /**
   * Overwriting the hash of a block: the query returns exactly that block and the next, tagged with
   * the corrupted and the original hash, if and only if no checkpoint seals the block.
   */
  lemma ReturnsPairIffUnsealed(c: Crypto, st: State, scope: Scope, k: nat, hash: string, now: int)
    requires Overwrite(c, st, scope, k, hash, now)
    ensures Returns(c, st, scope, k, hash, now) == Pair(Chain(st.log, scope), k, hash)
       <==> !IsSealed(st, scope, Chain(st.log, scope)[k].sequence)
  {
    ForcedReport(c, st, scope, k, hash, now);
    if IsSealed(st, scope, Chain(st.log, scope)[k].sequence) {
      AroundKnowsNoHash(AfterTamper(st, scope, k, hash).log, scope, Chain(st.log, scope)[k].sequence);
    } else {
      CompromisedBlocks(c, st.log, scope, k, hash);
    }
  }

  predicate Returned(records: seq<Record>, b: Block) {
    exists i | 0 <= i < |records| :: records[i].block == b
  }

  predicate ReturnedAsTampered(records: seq<Record>, b: Block) {
    exists i | 0 <= i < |records| :: records[i].block == b && records[i].role.Tampered?
  }

  /** The two blocks around a number hold a given block only under its own number. */
  lemma AroundReturns(log: seq<Block>, scope: Scope, at: nat, b: Block)
    requires at > 0 && FindByNumber(log, scope, Num(scope, b)) == Some(b)
    ensures Returned(Around(log, scope, at), b) <==> at in {Num(scope, b), Num(scope, b) + 1}
    ensures ReturnedAsTampered(Around(log, scope, at), b) <==> at == Num(scope, b) + 1
  {
    var records := Around(log, scope, at);
    var victim, previous := FindByNumber(log, scope, at), FindByNumber(log, scope, at - 1);
    FindFacts(log, scope, at);
    FindFacts(log, scope, at - 1);
    FindFacts(log, scope, Num(scope, b));
    if at == Num(scope, b) + 1 {
      assert records[0].block == b && records[0].role.Tampered?;
    }
    if at == Num(scope, b) {
      assert records[|records| - 1].block == b;
    }
    assert forall i | 0 <= i < |records| ::
      (records[i].role.Tampered? && previous == Some(records[i].block))
      || (records[i].role.Victim? && victim == Some(records[i].block));
  }

  /**
   * Overwriting the hash of a sealed block: the checkpoint stops the verification with the block's
   * global number, and the query returns the blocks of the scope with that number and the one
   * before. So the overwritten block is returned exactly when its scope number is its global one
   * or the one before it, and as the tampered one only in the second case.
   */
  lemma SealedTamperIsReturnedIff(c: Crypto, st: State, scope: Scope, k: nat, hash: string, now: int)
    requires Overwrite(c, st, scope, k, hash, now) && IsSealed(st, scope, Chain(st.log, scope)[k].sequence)
    ensures var b, records := Chain(st.log, scope)[k], Returns(c, st, scope, k, hash, now);
      && (Returned(records, b.(hash := hash)) <==>
            b.sequence != 0 && b.sequence in {Num(scope, b), Num(scope, b) + 1})
      && (ReturnedAsTampered(records, b.(hash := hash)) <==> b.sequence == Num(scope, b) + 1)
  {
    var st', b := AfterTamper(st, scope, k, hash), Chain(st.log, scope)[k];
    ForcedReport(c, st, scope, k, hash, now);
    TamperedChain(st.log, scope, k, hash);
    TamperKeepsNumbers(b, hash, scope);
    FindInChain(st'.log, scope, k);
    if b.sequence != 0 {
      AroundReturns(st'.log, scope, b.sequence, b.(hash := hash));
    }
  }
}
