/** Checkpoints: when one is made and of which block, and which broken one is reported. */
module AuditSeals {
  import opened Base
  import opened AuditChain
  import opened ChainStore
  import opened ChainScan
  import opened Sorting
  import opened AuditState
  import opened AuditForensics

  /** The block of the scope with the largest number. */
  ghost predicate Heads(log: seq<Block>, scope: Scope, b: Block) {
    && b in log && InScope(scope, b)
    && forall x | x in log && InScope(scope, x) :: Num(scope, x) <= Num(scope, b)
  }

  lemma LastBlockHeads(log: seq<Block>, scope: Scope)
    requires UniqueNumbers(log, scope)
    ensures var last := LastBlock(log, scope);
      && (last.None? <==> forall x | x in log :: !InScope(scope, x))
      && (last.Some? ==> Heads(log, scope, last.value))
  {
    QueryFacts(log, scope, None);
    QueryIncreasing(log, scope, None);
    var chain := Chain(log, scope);
    if chain != [] {
      var b := chain[|chain| - 1];
      assert b in chain;
      forall x | x in log && InScope(scope, x) ensures Num(scope, x) <= Num(scope, b) {
        var i := PositionInChain(log, scope, x);
        assert i == |chain| - 1 || Num(scope, chain[i]) < Num(scope, b);
      }
    } else {
      forall x | x in log ensures !InScope(scope, x) {
        assert InScope(scope, x) ==> x in chain;
      }
    }
  }

  /**
   * A checkpoint is made exactly when the scope has a block and its last one is not sealed in it
   * yet. It is added behind the scope's others, with the global number and the hash of that block.
   */
  lemma CheckpointSealsLast(st: State, scope: Scope)
    requires UniqueNumbers(st.log, scope)
    ensures match CreateCheckpoint(st, scope)
      case Err(EmptyChain) => forall x | x in st.log :: !InScope(scope, x)
      case Err(AlreadySealed) => exists b :: Heads(st.log, scope, b) && IsSealed(st, scope, b.sequence)
      case Ok(st') =>
        exists b :: Heads(st.log, scope, b) && !IsSealed(st, scope, b.sequence)
          && st' == st.(checkpoints :=
               st.checkpoints[scope := CheckpointsOf(st, scope) + [Checkpoint(b.sequence, b.hash)]])
  {
    LastBlockHeads(st.log, scope);
    var last := LastBlock(st.log, scope);
    assert last.Some? ==> Heads(st.log, scope, last.value);
  }

  lemma {:induction false} FirstBrokenIsLeast(log: seq<Block>, cps: seq<Checkpoint>)
    requires Ordered(cps, BySequence())
    ensures var r := FirstBrokenSeal(log, cps);
      r.Some? ==> forall i | 0 <= i < |cps| && !Sealed(log, cps[i]) :: r.value <= cps[i].sequence
  {
    if cps != [] && Sealed(log, cps[0]) {
      var rest := cps[1..];
      assert forall i | 0 <= i < |rest| :: rest[i] == cps[i + 1];
      FirstBrokenIsLeast(log, rest);
    } else {
      assert forall i | 0 < i < |cps| :: !BySequence()(cps[i], cps[0]);
    }
  }

  /** The seal is broken: its block is not stored or has another hash. */
  predicate IsBroken(log: seq<Block>, cp: Checkpoint) {
    forall i | 0 <= i < |log| :: log[i].sequence == cp.sequence ==> log[i].hash != cp.hash
  }

  lemma SealedIffUnbroken(log: seq<Block>, cp: Checkpoint)
    requires UniqueNumbers(log, Global)
    ensures Sealed(log, cp) <==> !IsBroken(log, cp)
  {
    FindFacts(log, Global, cp.sequence);
    var found := FindByNumber(log, Global, cp.sequence);
    forall i | 0 <= i < |log| && log[i].sequence == cp.sequence ensures found == Some(log[i]) {
      assert log[i] in log;
      SameNumberSameBlock(log, Global, log[i], found.value);
    }
    if found.Some? {
      var i :| 0 <= i < |log| && log[i] == found.value;
    }
  }

  /** Of the scope's broken seals the one with the least number is reported, and nothing if none is broken. */
  lemma LeastBrokenSealIsReported(st: State, scope: Scope)
    requires UniqueNumbers(st.log, Global)
    ensures var cps, r := CheckpointsOf(st, scope), BrokenCheckpoint(st, scope);
      && (r.None? <==> forall i | 0 <= i < |cps| :: !IsBroken(st.log, cps[i]))
      && (r.Some? ==>
            && (exists i :: 0 <= i < |cps| && IsBroken(st.log, cps[i]) && cps[i].sequence == r.value)
            && forall i | 0 <= i < |cps| && IsBroken(st.log, cps[i]) :: r.value <= cps[i].sequence)
  {
    var cps := CheckpointsOf(st, scope);
    var sorted, r := Sort(cps, BySequence()), BrokenCheckpoint(st, scope);
    SortOrders(cps, BySequence());
    SortElements(cps, BySequence());
    FirstBrokenIsLeast(st.log, sorted);
    FirstBrokenIsBroken(st.log, sorted);
    forall cp ensures Sealed(st.log, cp) <==> !IsBroken(st.log, cp) {
      SealedIffUnbroken(st.log, cp);
    }
    forall i | 0 <= i < |cps| ensures cps[i] in sorted {
      assert cps[i] in cps;
    }
    if r.Some? {
      var k :| 0 <= k < |sorted| && !Sealed(st.log, sorted[k]) && sorted[k].sequence == r.value;
      assert sorted[k] in sorted && sorted[k] in cps;
    } else {
      assert forall i | 0 <= i < |cps| :: Sealed(st.log, cps[i]);
    }
  }

  /** A verification that is not throttled stops at that seal, before it scans, and writes nothing. */
  lemma VerificationStopsAtSeal(c: Crypto, st: State, scope: Scope, forceFull: bool, now: int)
    ensures var broken, r := BrokenCheckpoint(st, scope), Verify(c, st, scope, forceFull, now);
      && (r.1 == Throttled <==>
            forceFull && scope in st.markers && st.markers[scope].lastFullVerificationAt.Some?
            && now - st.markers[scope].lastFullVerificationAt.value < 24 * 3600000)
      && (r.1.CheckpointBroken? <==> r.1 != Throttled && broken.Some?)
      && (r.1.CheckpointBroken? ==> r == (st, CheckpointBroken(broken.value)))
      && (r.1.Throttled? ==> r.0 == st)
  {
  }
}
