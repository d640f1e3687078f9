/**
 * What a checkpoint commits to. A log as it was written, and any log that passes the scan later and
 * holds a block with the same hash, agree on the hashed strings; on the fields they agree exactly
 * when no separator has got into the later ones.
 */
module AuditCommitment {
  import opened Base
  import opened AuditChain
  import opened ChainStore
  import opened ChainScan
  import opened PlainPayload
  import opened Serialization
  import opened Sorting
  import opened AuditState
  import opened AuditRuns
  import opened AuditGate

  /** The first k blocks pass the scan from genesis. */
  ghost predicate PassesUpTo(c: Crypto, scope: Scope, chain: seq<Block>, k: nat) {
    k <= |chain| && CleanUpTo(c, scope, FromGenesis(c, scope), chain, k)
  }

  /** The hash of the block before position i, or the genesis hash. */
  function HashBefore(c: Crypto, scope: Scope, chain: seq<Block>, i: nat): string
    requires i <= |chain|
  {
    if i == 0 then GenesisHash(c, scope) else chain[i - 1].hash
  }

  /** In the blocks that pass, each hash recomputes, and each link is the hash before it. */
  lemma PassingBlock(c: Crypto, scope: Scope, chain: seq<Block>, k: nat, i: nat)
    requires PassesUpTo(c, scope, chain, k) && i < k
    ensures chain[i].hash == BlockHash(c, chain[i]) && LinkOf(scope, chain[i]) == Some(HashBefore(c, scope, chain, i))
  {
    assert FaultAt(c, scope, FromGenesis(c, scope), chain, i).None?;
  }

  ghost predicate AllClean(chain: seq<Block>) {
    forall b :: b in chain ==> Clean(b)
  }

  /** No separator stands in the text fields of the first k blocks. */
  predicate FrontClean(chain: seq<Block>, k: nat) {
    k <= |chain| && forall i | 0 <= i < k :: Clean(chain[i])
  }

  lemma LinkIsHashed(scope: Scope, a: Block, b: Block)
    requires HashedPart(a) == HashedPart(b)
    ensures LinkOf(scope, a) == LinkOf(scope, b)
  {
  }

  lemma CleanIsHashed(a: Block, b: Block)
    requires HashedPart(a) == HashedPart(b)
    ensures Clean(a) == Clean(b)
  {
  }

  /** The chains agree on every hashed field in their first k blocks. */
  ghost predicate AgreeUpTo(a: seq<Block>, b: seq<Block>, k: nat) {
    k <= |a| && k <= |b| && forall i | 0 <= i < k :: HashedPart(a[i]) == HashedPart(b[i]) && a[i].hash == b[i].hash
  }

  /**
   * Where payloads are plain, agreeing on the hashed text is agreeing on the payload up to key order
   * and kinds, and where their strings spell no other scalar, up to key order.
   */
  lemma AgreementReachesPayloads(a: seq<Block>, b: seq<Block>, k: nat)
    requires AgreeUpTo(a, b, k)
    requires forall i | 0 <= i < k :: Plain(a[i].payload) && Plain(b[i].payload)
    ensures forall i | 0 <= i < k :: SameUpToKinds(a[i].payload, b[i].payload)
    ensures forall i | 0 <= i < k && Unspelled(a[i].payload) && Unspelled(b[i].payload) ::
              SameUpToKeyOrder(a[i].payload, b[i].payload)
  {
    forall i | 0 <= i < k
      ensures SameUpToKinds(a[i].payload, b[i].payload)
      ensures Unspelled(a[i].payload) && Unspelled(b[i].payload) ==> SameUpToKeyOrder(a[i].payload, b[i].payload)
    {
      TextDeterminesPayload(a[i].payload, b[i].payload);
    }
  }

  lemma SameBlock(c: Crypto, scope: Scope, a: seq<Block>, b: seq<Block>, i: nat, j: nat)
    requires CollisionFree(c) && DatesReadable(c)
    requires PassesUpTo(c, scope, a, i + 1) && PassesUpTo(c, scope, b, j + 1)
    requires a[i].hash == b[j].hash && Clean(a[i]) && Clean(b[j])
    ensures HashedPart(a[i]) == HashedPart(b[j]) && HashBefore(c, scope, a, i) == HashBefore(c, scope, b, j)
  {
    PassingBlock(c, scope, a, i + 1, i);
    PassingBlock(c, scope, b, j + 1, j);
    EqualHashes(c, a[i], b[j]);
    LinkIsHashed(scope, a[i], b[j]);
  }

  /** A hash before position i equals one before position j only if both, or neither, are genesis hashes. */
  lemma GenesisTogether(c: Crypto, scope: Scope, a: seq<Block>, b: seq<Block>, i: nat, j: nat)
    requires CollisionFree(c) && NoBar(GenesisText(c, scope))
    requires PassesUpTo(c, scope, a, i) && PassesUpTo(c, scope, b, j)
    requires HashBefore(c, scope, a, i) == HashBefore(c, scope, b, j)
    ensures i == 0 <==> j == 0
  {
    if i > 0 {
      PassingBlock(c, scope, a, i, i - 1);
      NotGenesis(c, a[i - 1], scope);
    }
    if j > 0 {
      PassingBlock(c, scope, b, j, j - 1);
      NotGenesis(c, b[j - 1], scope);
    }
  }

  /** One step back from a common hash. */
  lemma StepBack(c: Crypto, scope: Scope, a: seq<Block>, b: seq<Block>, i: nat, j: nat)
    requires CollisionFree(c) && DatesReadable(c) && NoBar(GenesisText(c, scope))
    requires PassesUpTo(c, scope, a, i + 1) && PassesUpTo(c, scope, b, j + 1)
    requires a[i].hash == b[j].hash && Clean(a[i]) && Clean(b[j])
    ensures HashedPart(a[i]) == HashedPart(b[j]) && PassesUpTo(c, scope, a, i) && PassesUpTo(c, scope, b, j)
    ensures (i == 0 <==> j == 0) && (i > 0 && j > 0 ==> a[i - 1].hash == b[j - 1].hash)
  {
    SameBlock(c, scope, a, b, i, j);
    GenesisTogether(c, scope, a, b, i, j);
  }

  /** Backward from a common hash to genesis, through blocks without a separator in their fields. */
  lemma {:induction false} CleanFrontsAgree(c: Crypto, scope: Scope, a: seq<Block>, b: seq<Block>, i: nat, j: nat)
    requires CollisionFree(c) && DatesReadable(c) && NoBar(GenesisText(c, scope))
    requires PassesUpTo(c, scope, a, i + 1) && PassesUpTo(c, scope, b, j + 1)
    requires FrontClean(a, i + 1) && FrontClean(b, j + 1) && a[i].hash == b[j].hash
    ensures i == j && AgreeUpTo(a, b, i + 1)
    decreases i
  {
    StepBack(c, scope, a, b, i, j);
    if i > 0 {
      CleanFrontsAgree(c, scope, a, b, i - 1, j - 1);
    }
  }

  /**
   * A chain as it was written, and any chain that passes up to a block with the same hash: the
   * positions and all hashed fields up to it coincide exactly when no separator has got into the
   * fields of the second.
   */
  lemma CommonHash(c: Crypto, scope: Scope, a: seq<Block>, b: seq<Block>, i: nat, j: nat)
    requires CollisionFree(c) && DatesReadable(c) && NoBar(GenesisText(c, scope))
    requires PassesUpTo(c, scope, a, i + 1) && PassesUpTo(c, scope, b, j + 1)
    requires FrontClean(a, i + 1) && a[i].hash == b[j].hash
    ensures i == j && AgreeUpTo(a, b, i + 1) <==> FrontClean(b, j + 1)
  {
    if FrontClean(b, j + 1) {
      CleanFrontsAgree(c, scope, a, b, i, j);
    }
    if i == j && AgreeUpTo(a, b, i + 1) {
      forall k | 0 <= k < j + 1 ensures Clean(b[k]) {
        CleanIsHashed(a[k], b[k]);
      }
    }
  }

  lemma BrokenCheckpointFacts(st: State, scope: Scope, cp: Checkpoint)
    requires BrokenCheckpoint(st, scope).None? && cp in CheckpointsOf(st, scope)
    ensures Sealed(st.log, cp)
  {
    var cps := Sort(CheckpointsOf(st, scope), BySequence());
    SortElements(CheckpointsOf(st, scope), BySequence());
    assert cp in cps;
  }

  /** The block at the sealed sequence, if there is one, carries the scope. */
  predicate SealInScope(log: seq<Block>, scope: Scope, cp: Checkpoint) {
    var found := FindByNumber(log, Global, cp.sequence);
    found.Some? ==> InScope(scope, found.value)
  }

  /** No separator stands in the fields of the scope's blocks up to the sealed one. */
  predicate SealedFrontClean(log: seq<Block>, scope: Scope, cp: Checkpoint) {
    var found := FindByNumber(log, Global, cp.sequence);
    found.Some? && InScope(scope, found.value) ==>
      forall i | 0 <= i < |Chain(log, scope)| && Num(scope, Chain(log, scope)[i]) <= Num(scope, found.value) ::
        Clean(Chain(log, scope)[i])
  }

  /** The seal was taken on a passing log as the service wrote it, and a later passing log respects it. */
  ghost predicate SealRespected(c: Crypto, before: State, after: State, scope: Scope, cp: Checkpoint) {
    && UniqueNumbers(before.log, scope) && UniqueNumbers(after.log, scope) && UniqueNumbers(after.log, Global)
    && AllClean(before.log)
    && FullScan(c, before.log, scope).Valid? && FullScan(c, after.log, scope).Valid?
    && CreateCheckpoint(before, scope).Ok?
    && cp == CheckpointsOf(CreateCheckpoint(before, scope).value, scope)[|CheckpointsOf(before, scope)|]
    && cp in CheckpointsOf(after, scope) && BrokenCheckpoint(after, scope).None?
  }

  /** What the seal was taken on, and what is stored at its number later. */
  lemma SealFacts(c: Crypto, before: State, after: State, scope: Scope, cp: Checkpoint)
    requires SealRespected(c, before, after, scope, cp)
    ensures var a, b := Chain(before.log, scope), Chain(after.log, scope);
      var found := FindByNumber(after.log, Global, cp.sequence);
      && a != [] && PassesUpTo(c, scope, a, |a|) && FrontClean(a, |a|) && PassesUpTo(c, scope, b, |b|)
      && cp.sequence == a[|a| - 1].sequence
      && found.Some? && found.value in after.log && found.value.sequence == cp.sequence
      && found.value.hash == a[|a| - 1].hash
  {
    BrokenCheckpointFacts(after, scope, cp);
    FindFacts(after.log, Global, cp.sequence);
    ValidIffClean(c, before.log, scope);
    ValidIffClean(c, after.log, scope);
    QueryFacts(before.log, scope, None);
    forall i | 0 <= i < |Chain(before.log, scope)| ensures Clean(Chain(before.log, scope)[i]) {
      assert Chain(before.log, scope)[i] in before.log;
    }
  }

  /** In a chain, the blocks up to the one at position j are those with no larger number. */
  lemma FrontByNumber(log: seq<Block>, scope: Scope, j: nat)
    requires UniqueNumbers(log, scope) && j < |Chain(log, scope)|
    ensures var chain := Chain(log, scope);
      FrontClean(chain, j + 1) <==>
        forall i | 0 <= i < |chain| && Num(scope, chain[i]) <= Num(scope, chain[j]) :: Clean(chain[i])
  {
    var chain := Chain(log, scope);
    QueryIncreasing(log, scope, None);
    assert forall i | 0 <= i < |chain| :: i <= j <==> Num(scope, chain[i]) <= Num(scope, chain[j]);
  }

  lemma AgreedIsFound(scope: Scope, a: seq<Block>, log: seq<Block>, found: Block)
    requires UniqueNumbers(log, scope) && UniqueNumbers(log, Global) && found in log
    requires a != [] && AgreeUpTo(a, Chain(log, scope), |a|) && found.sequence == a[|a| - 1].sequence
    ensures Chain(log, scope)[|a| - 1] == found && InScope(scope, found)
  {
    var x := Chain(log, scope)[|a| - 1];
    QueryFacts(log, scope, None);
    assert HashedPart(x) == HashedPart(a[|a| - 1]);
    assert x in Chain(log, scope);
    SameNumberSameBlock(log, Global, x, found);
  }

  lemma AgreesAtPosition(c: Crypto, scope: Scope, a: seq<Block>, b: seq<Block>, j: nat)
    requires CollisionFree(c) && DatesReadable(c) && NoBar(GenesisText(c, scope))
    requires a != [] && PassesUpTo(c, scope, a, |a|) && FrontClean(a, |a|)
    requires j < |b| && PassesUpTo(c, scope, b, |b|) && b[j].hash == a[|a| - 1].hash
    ensures j == |a| - 1 && AgreeUpTo(a, b, |a|) <==> FrontClean(b, j + 1)
  {
    CommonHash(c, scope, a, b, |a| - 1, j);
  }

  lemma OnePosition(log: seq<Block>, scope: Scope, i: nat, j: nat)
    requires UniqueNumbers(log, scope) && i < |Chain(log, scope)| && j < |Chain(log, scope)|
    requires Chain(log, scope)[i] == Chain(log, scope)[j]
    ensures i == j
  {
    QueryIncreasing(log, scope, None);
  }

  /** A clean passing chain, and a later log with a block of the last one's hash and number. */
  lemma SealedChainAgrees(c: Crypto, scope: Scope, a: seq<Block>, log: seq<Block>, found: Block)
    requires CollisionFree(c) && DatesReadable(c) && NoBar(GenesisText(c, scope))
    requires UniqueNumbers(log, scope) && UniqueNumbers(log, Global) && found in log
    requires a != [] && PassesUpTo(c, scope, a, |a|) && FrontClean(a, |a|)
    requires PassesUpTo(c, scope, Chain(log, scope), |Chain(log, scope)|)
    requires found.hash == a[|a| - 1].hash && found.sequence == a[|a| - 1].sequence
    ensures var b := Chain(log, scope);
      AgreeUpTo(a, b, |a|) <==>
        InScope(scope, found) && forall i | 0 <= i < |b| && Num(scope, b[i]) <= Num(scope, found) :: Clean(b[i])
  {
    var b := Chain(log, scope);
    if AgreeUpTo(a, b, |a|) {
      AgreedIsFound(scope, a, log, found);
    }
    if InScope(scope, found) {
      var j := PositionInChain(log, scope, found);
      FrontByNumber(log, scope, j);
      AgreesAtPosition(c, scope, a, b, j);
      if AgreeUpTo(a, b, |a|) {
        OnePosition(log, scope, |a| - 1, j);
      }
    }
  }

  /**
   * Checkpoint commitment in any scope, with nothing assumed of the later log but that it passes
   * the checkpoint check and the full scan. The whole sealed chain is a prefix of the later one in
   * every hashed field, with nothing missing and nothing inserted, exactly when the sealed block
   * still carries the scope and no separator has got into the fields of the chain up to it: ids
   * are not hashed, and the hashed string can be cut into fields in another way.
   */
  lemma CheckpointCommits(c: Crypto, before: State, after: State, scope: Scope, cp: Checkpoint)
    requires CollisionFree(c) && DatesReadable(c) && NoBar(GenesisText(c, scope))
    requires SealRespected(c, before, after, scope, cp)
    ensures var a, b := Chain(before.log, scope), Chain(after.log, scope);
      AgreeUpTo(a, b, |a|) <==> SealInScope(after.log, scope, cp) && SealedFrontClean(after.log, scope, cp)
  {
    SealFacts(c, before, after, scope, cp);
    var found := FindByNumber(after.log, Global, cp.sequence).value;
    SealedChainAgrees(c, scope, Chain(before.log, scope), after.log, found);
  }

  /** A seal on the last block of a one-block log, and the log with that block's voting id removed. */
  function SealedState(b: Block, v: string): State {
    State([b], map[], map[], map[Voting(v) := [Checkpoint(b.sequence, b.hash)]])
  }

  function Relabelled(b: Block, v: string): State {
    SealedState(b, v).(log := [b.(votingId := None)])
  }

  lemma OneBlockChain(b: Block, scope: Scope)
    ensures UniqueNumbers([b], scope) && Chain([b], scope) == if InScope(scope, b) then [b] else []
  {
    var docs := if InScope(scope, b) then [b] else [];
    assert forall x :: x in [b] <==> x == b;
    QueryIs([b], scope, None, docs);
  }

  /**
   * Without the scope's id the commitment fails: for any one-block voting chain that passes, remove
   * the block's voting id after sealing it. Both logs pass, the seal is respected, and the later
   * voting chain is empty.
   */
  lemma RelabellingEscapesSeal(c: Crypto, b: Block, v: string)
    requires b.votingId == Some(v) && b.votingSequence == Some(1) && Clean(b) && b.hash == BlockHash(c, b)
    requires b.votingPrevHash == Some(GenesisHash(c, Voting(v)))
    ensures var before, after, scope := State([b], map[], map[], map[]), Relabelled(b, v), Voting(v);
      var cp := Checkpoint(b.sequence, b.hash);
      && CreateCheckpoint(before, scope) == Ok(SealedState(b, v))
      && SealRespected(c, before, after, scope, cp) && AllClean(after.log)
      && FullScan(c, before.log, scope) == Valid(1) && FullScan(c, after.log, scope) == Valid(0)
      && !SealInScope(after.log, scope, cp)
      && !AgreeUpTo(Chain(before.log, scope), Chain(after.log, scope), 1)
  {
    var scope, relabelled := Voting(v), b.(votingId := None);
    OneBlockChain(b, scope);
    OneBlockChain(relabelled, scope);
    OneBlockChain(relabelled, Global);
    DecidesOnce(c, scope, FromGenesis(c, scope), [b], FullScan(c, [b], scope), Valid(1));
    DecidesOnce(c, scope, FromGenesis(c, scope), [], FullScan(c, [relabelled], scope), Valid(0));
    var cp := Checkpoint(b.sequence, b.hash);
    assert Sort([cp], BySequence()) == [cp] by { assert [cp][1..] == []; }
    assert FindByNumber([relabelled], Global, b.sequence) == Some(relabelled);
    var empty: seq<Checkpoint>, none: map<Scope, seq<Checkpoint>> := [], map[];
    assert empty + [cp] == [cp];
    assert none[scope := empty + [cp]] == map[scope := [cp]];
  }

  /** The first block ever appended for a voting is such a block. */
  lemma FirstBlockEscapesSeal(c: Crypto, ctx: Context, now: int, v: string)
    requires Sound(c) && NoBar(ctx.action) && v != "" && ctx.votingId == Some(v)
    ensures var b := NewBlock(c, EMPTY, ctx, now);
      && Append(c, EMPTY, ctx, now, false).log == [b]
      && FullScan(c, [b], Voting(v)) == Valid(1) && FullScan(c, Relabelled(b, v).log, Voting(v)) == Valid(0)
      && BrokenCheckpoint(Relabelled(b, v), Voting(v)).None?
  {
    var b := NewBlock(c, EMPTY, ctx, now);
    forall scope: Scope ensures Numbered(EMPTY, scope) {
    }
    NewBlockClean(c, EMPTY, ctx, now);
    AppendedBlock(c, EMPTY, ctx, now, Voting(v));
    RelabellingEscapesSeal(c, b, v);
  }

  // ---- the global scope ----

  /** The sealed prefix of the later log is exactly its blocks up to the sealed sequence. */
  lemma SealedPrefix(after: seq<Block>, before: seq<Block>, cp: Checkpoint)
    requires UniqueNumbers(after, Global)
    requires 0 < |Chain(before, Global)| <= |Chain(after, Global)|
    requires Chain(after, Global)[|Chain(before, Global)| - 1].sequence == cp.sequence
    ensures forall x :: x in after && x.sequence <= cp.sequence <==>
                        x in Chain(after, Global)[..|Chain(before, Global)|]
  {
    var b, k := Chain(after, Global), |Chain(before, Global)|;
    QueryFacts(after, Global, None);
    QueryIncreasing(after, Global, None);
    forall x ensures x in after && x.sequence <= cp.sequence <==> x in b[..k] {
      if x in after {
        assert x in b;
        var i :| 0 <= i < |b| && b[i] == x;
        assert i < k <==> x.sequence <= cp.sequence;
        if i < k { assert b[..k][i] == x; }
      }
      if x in b[..k] {
        var i :| 0 <= i < k && b[..k][i] == x;
        assert b[i] == x;
      }
    }
  }

  /** With hash outputs free of the separator, the first field of a passing block can be read off. */
  lemma FirstFieldReadOff(c: Crypto, a: Block, b: Block)
    requires CollisionFree(c) && BlockHash(c, a) == BlockHash(c, b) && NoBar(a.prevHash) && NoBar(b.prevHash)
    ensures a.prevHash == b.prevHash && Preimage(c, a) == Preimage(c, b)
  {
    var p, q := Heads(a) + [Serialize(a.payload), c.toISOString(a.createdAt)],
                Heads(b) + [Serialize(b.payload), c.toISOString(b.createdAt)];
    assert p[0] == a.prevHash && q[0] == b.prevHash;
    PeelFront(a.prevHash, Join(p[1..], "|"), b.prevHash, Join(q[1..], "|"));
  }

  lemma LinksAreHashes(c: Crypto, chain: seq<Block>, i: nat)
    requires HexOutput(c) && PassesUpTo(c, Global, chain, i + 1)
    ensures NoBar(chain[i].prevHash) && chain[i].prevHash == HashBefore(c, Global, chain, i)
  {
    PassingBlock(c, Global, chain, i + 1, i);
    if i > 0 {
      PassingBlock(c, Global, chain, i + 1, i - 1);
    }
  }

  lemma GlobalSameBlock(c: Crypto, a: seq<Block>, b: seq<Block>, i: nat, j: nat)
    requires Sound(c) && NoBar(c.genesisSeed)
    requires PassesUpTo(c, Global, a, i + 1) && PassesUpTo(c, Global, b, j + 1) && a[i].hash == b[j].hash
    ensures Preimage(c, a[i]) == Preimage(c, b[j]) && (i == 0 <==> j == 0)
    ensures i > 0 && j > 0 ==> a[i - 1].hash == b[j - 1].hash
  {
    PassingBlock(c, Global, a, i + 1, i);
    PassingBlock(c, Global, b, j + 1, j);
    LinksAreHashes(c, a, i);
    LinksAreHashes(c, b, j);
    FirstFieldReadOff(c, a[i], b[j]);
    GenesisTogether(c, Global, a, b, i, j);
  }

  /** The same hash and the same hashed string. */
  predicate SameString(c: Crypto, a: Block, b: Block) {
    a.hash == b.hash && Preimage(c, a) == Preimage(c, b)
  }

  /** Backward from a common hash to genesis in the global scope, whatever the blocks of b hold. */
  lemma {:induction false} GlobalCommonHash(c: Crypto, a: seq<Block>, b: seq<Block>, i: nat, j: nat)
    requires Sound(c) && NoBar(c.genesisSeed)
    requires PassesUpTo(c, Global, a, i + 1) && PassesUpTo(c, Global, b, j + 1) && a[i].hash == b[j].hash
    ensures i == j && forall k | 0 <= k < i + 1 :: SameString(c, a[k], b[k])
    decreases i
  {
    GlobalSameBlock(c, a, b, i, j);
    if i > 0 {
      GlobalCommonHash(c, a, b, i - 1, j - 1);
    }
  }

  /** A block of the last one's hash is at the same position in the later log. */
  lemma GlobalPosition(c: Crypto, a: seq<Block>, log: seq<Block>, found: Block)
    requires Sound(c) && NoBar(c.genesisSeed) && UniqueNumbers(log, Global) && found in log
    requires a != [] && PassesUpTo(c, Global, a, |a|) && PassesUpTo(c, Global, Chain(log, Global), |Chain(log, Global)|)
    requires found.hash == a[|a| - 1].hash
    ensures var b := Chain(log, Global);
      |a| <= |b| && b[|a| - 1] == found && forall i | 0 <= i < |a| :: SameString(c, a[i], b[i])
  {
    var b := Chain(log, Global);
    var j := PositionInChain(log, Global, found);
    GlobalCommonHash(c, a, b, |a| - 1, j);
  }

  /** Where the hashed strings are the same and the first block is clean, the fields are the same iff the second is. */
  lemma FieldsAgreeIff(c: Crypto, a: Block, b: Block)
    requires DatesReadable(c) && Clean(a) && Preimage(c, a) == Preimage(c, b)
    ensures HashedPart(a) == HashedPart(b) <==> Clean(b)
  {
    if Clean(b) {
      PreimageInjective(c, a, b);
    } else if HashedPart(a) == HashedPart(b) {
      CleanIsHashed(a, b);
    }
  }

  /**
   * The global scope, with nothing assumed of the later log but that it passes: its first blocks
   * are those sealed, in position, hash and hashed string, with none missing and none inserted; and
   * each agrees in every hashed field exactly when no separator has got into its own fields.
   */
  lemma GlobalCheckpointCommits(c: Crypto, before: State, after: State, cp: Checkpoint)
    requires Sound(c) && NoBar(c.genesisSeed) && SealRespected(c, before, after, Global, cp)
    ensures var a, b := Chain(before.log, Global), Chain(after.log, Global);
      && |a| <= |b| && (forall i | 0 <= i < |a| :: SameString(c, a[i], b[i]))
      && (forall i | 0 <= i < |a| :: HashedPart(a[i]) == HashedPart(b[i]) <==> Clean(b[i]))
    ensures forall x :: x in after.log && x.sequence <= cp.sequence <==>
                        x in Chain(after.log, Global)[..|Chain(before.log, Global)|]
  {
    var a, b := Chain(before.log, Global), Chain(after.log, Global);
    SealFacts(c, before, after, Global, cp);
    GlobalPosition(c, a, after.log, FindByNumber(after.log, Global, cp.sequence).value);
    forall i | 0 <= i < |a| ensures HashedPart(a[i]) == HashedPart(b[i]) <==> Clean(b[i]) {
      FieldsAgreeIff(c, a[i], b[i]);
    }
    SealedPrefix(after.log, before.log, cp);
  }
}
