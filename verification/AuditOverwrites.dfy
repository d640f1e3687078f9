/**
 * The secure gate once hashes can also be overwritten in place, as the public tamper endpoint does.
 * An overwrite of a block the marker covers is not looked at again until a full verification, so
 * the status stays secure; without one, the status still means what it says.
 */
module AuditOverwrites {
  import opened Base
  import opened AuditChain
  import opened ChainStore
  import opened ChainScan
  import opened Sorting
  import opened AuditState
  import opened AuditRuns
  import opened AuditGate
  import opened AuditTampering
  import opened AuditWitnesses
  import VotingStore

  datatype Act = Operate(step: Step) | Overwrite(sequence: nat, hash: string)

  /** The unique index on hashes refuses the hash of another block. */
  predicate HashTaken(log: seq<Block>, sequence: nat, hash: string) {
    exists i | 0 <= i < |log| :: log[i].sequence != sequence && log[i].hash == hash
  }

  function Do(c: Crypto, st: State, act: Act): State {
    match act
    case Operate(step) => Perform(c, st, step)
    case Overwrite(sequence, hash) =>
      if HashTaken(st.log, sequence, hash) then st else st.(log := Tamper(st.log, sequence, hash))
  }

  function DoAll(c: Crypto, st: State, acts: seq<Act>): State
    decreases |acts|
  {
    if acts == [] then st else DoAll(c, Do(c, st, acts[0]), acts[1..])
  }

  /** The act changes the hash of a block of the scope that its marker covers. */
  predicate Exposes(st: State, scope: Scope, act: Act) {
    act.Overwrite? && !HashTaken(st.log, act.sequence, act.hash) &&
    var found := FindByNumber(st.log, Global, act.sequence);
    && found.Some? && found.value.hash != act.hash
    && InScope(scope, found.value) && Num(scope, found.value) <= MarkerOf(st, scope)
  }

  ghost predicate GateHolds(c: Crypto, st: State, scope: Scope) {
    MarkerInvariant(c, st, scope) && Numbered(st, Global)
  }

  // ---- overwrites the marker does not cover ----

  lemma {:induction false} TamperNothing(log: seq<Block>, sequence: nat, hash: string)
    requires forall b :: b in log && b.sequence == sequence ==> b.hash == hash
    ensures Tamper(log, sequence, hash) == log
  {
    if log != [] {
      if log[0].sequence == sequence {
        assert log[0] in log && log[0].(hash := hash) == log[0];
      } else {
        TamperNothing(log[1..], sequence, hash);
      }
      assert log == [log[0]] + log[1..];
    }
  }

  lemma NumberedAfterTamper(st: State, b: Block, hash: string, scope: Scope)
    requires Numbered(st, scope) && Numbered(st, Global) && b in st.log
    ensures Numbered(st.(log := Tamper(st.log, b.sequence, hash)), scope)
  {
    var log' := Tamper(st.log, b.sequence, hash);
    TamperMembers(st.log, b.sequence, hash, b);
    TamperKeepsUnique(st.log, scope, hash, b);
    assert Counter(st.(log := log'), scope) == Counter(st, scope);
    forall x | x in log' && InScope(scope, x) ensures 1 <= Num(scope, x) <= Counter(st, scope) {
      var i :| 0 <= i < |log'| && log'[i] == x;
      assert st.log[i] in st.log;
      TamperKeepsNumbers(st.log[i], hash, scope);
    }
  }

  lemma SequenceInLog(log: seq<Block>, b: Block, i: nat)
    requires UniqueNumbers(log, Global) && b in log && i < |log|
    ensures log[i].sequence == b.sequence ==> log[i] == b
  {
    var j :| 0 <= j < |log| && log[j] == b;
    assert i != j ==> Num(Global, log[i]) != Num(Global, log[j]);
  }

  /** A block outside the scope leaves the scope's chain as it was. */
  lemma TamperedElsewhere(log: seq<Block>, b: Block, hash: string, scope: Scope)
    requires UniqueNumbers(log, Global) && UniqueNumbers(log, scope) && b in log && !InScope(scope, b)
    ensures Chain(Tamper(log, b.sequence, hash), scope) == Chain(log, scope)
  {
    var log' := Tamper(log, b.sequence, hash);
    TamperMembers(log, b.sequence, hash, b);
    QueryFacts(log, scope, None);
    QueryIncreasing(log, scope, None);
    forall x ensures x in Chain(log, scope) <==> x in log' && Selected(scope, None, x) {
      if x in log && Selected(scope, None, x) {
        var i :| 0 <= i < |log| && log[i] == x;
        SequenceInLog(log, b, i);
        assert log'[i] == x;
      }
      if x in log' && Selected(scope, None, x) {
        var i :| 0 <= i < |log'| && log'[i] == x;
        SequenceInLog(log, b, i);
        assert log[i] == x;
      }
    }
    TamperKeepsUnique(log, scope, hash, b);
    QueryIs(log', scope, None, Chain(log, scope));
  }

  /** A block of the scope beyond the marker leaves what the marker covers as it was. */
  lemma TamperedBeyond(c: Crypto, log: seq<Block>, scope: Scope, k: nat, hash: string, marker: nat)
    requires UniqueNumbers(log, Global) && UniqueNumbers(log, scope) && k < |Chain(log, scope)|
    requires Num(scope, Chain(log, scope)[k]) > marker && PrefixClean(c, log, scope, marker)
    ensures PrefixClean(c, Tamper(log, Chain(log, scope)[k].sequence, hash), scope, marker)
  {
    var chain, genesis := Chain(log, scope), FromGenesis(c, scope);
    var chain' := chain[k := chain[k].(hash := hash)];
    TamperedChain(log, scope, k, hash);
    TamperKeepsNumbers(chain[k], hash, scope);
    QueryIncreasing(log, scope, None);
    forall i | k <= i < |chain'| ensures Num(scope, chain'[i]) > marker {
      assert i == k || Num(scope, chain[k]) < Num(scope, chain[i]);
    }
    forall i | 0 <= i < |chain'| && Num(scope, chain'[i]) <= marker ensures FaultAt(c, scope, genesis, chain', i).None? {
      assert i < k;
      assert FaultAt(c, scope, genesis, chain, i).None?;
    }
  }

  lemma NumberStaysStored(log: seq<Block>, b: Block, hash: string, scope: Scope, n: nat)
    requires UniqueNumbers(log, Global) && b in log && FindByNumber(log, scope, n).Some?
    ensures FindByNumber(Tamper(log, b.sequence, hash), scope, n).Some?
  {
    var log' := Tamper(log, b.sequence, hash);
    FindFacts(log, scope, n);
    FindFacts(log', scope, n);
    TamperMembers(log, b.sequence, hash, b);
    var i :| 0 <= i < |log| && log[i] == FindByNumber(log, scope, n).value;
    TamperKeepsNumbers(log[i], hash, scope);
    assert log'[i] in log';
  }

  lemma OneBlockPerSequence(log: seq<Block>, b: Block)
    requires UniqueNumbers(log, Global) && b in log
    ensures forall x :: x in log && x.sequence == b.sequence ==> x == b
  {
    forall x | x in log && x.sequence == b.sequence ensures x == b {
      var i :| 0 <= i < |log| && log[i] == x;
      SequenceInLog(log, b, i);
    }
  }

  lemma ChangedKeepsGate(c: Crypto, st: State, scope: Scope, b: Block, hash: string)
    requires GateHolds(c, st, scope) && b in st.log
    requires InScope(scope, b) ==> Num(scope, b) > MarkerOf(st, scope)
    ensures GateHolds(c, st.(log := Tamper(st.log, b.sequence, hash)), scope)
  {
    var marker := MarkerOf(st, scope);
    NumberedAfterTamper(st, b, hash, scope);
    NumberedAfterTamper(st, b, hash, Global);
    if marker != 0 {
      NumberStaysStored(st.log, b, hash, scope, marker);
      if InScope(scope, b) {
        var k := PositionInChain(st.log, scope, b);
        TamperedBeyond(c, st.log, scope, k, hash, marker);
      } else {
        TamperedElsewhere(st.log, b, hash, scope);
      }
    }
  }

  lemma UnexposedKeepsGate(c: Crypto, st: State, scope: Scope, sequence: nat, hash: string)
    requires GateHolds(c, st, scope) && !Exposes(st, scope, Overwrite(sequence, hash))
    ensures GateHolds(c, Do(c, st, Overwrite(sequence, hash)), scope)
  {
    FindFacts(st.log, Global, sequence);
    var found := FindByNumber(st.log, Global, sequence);
    if HashTaken(st.log, sequence, hash) {
    } else if found.None? {
      TamperNothing(st.log, sequence, hash);
    } else if found.value.hash == hash {
      OneBlockPerSequence(st.log, found.value);
      TamperNothing(st.log, sequence, hash);
    } else {
      ChangedKeepsGate(c, st, scope, found.value, hash);
    }
  }

  lemma StepKeepsNumbered(c: Crypto, st: State, step: Step)
    requires Numbered(st, Global)
    ensures Numbered(Perform(c, st, step), Global)
  {
    if step.AppendStep? {
      NumberedAfterAppend(c, st, step.ctx, step.now, step.storeFails, Global);
    } else {
      assert Perform(c, st, step).log == st.log && Perform(c, st, step).counters == st.counters;
    }
  }

  lemma ActKeepsGate(c: Crypto, st: State, act: Act, scope: Scope)
    requires GateHolds(c, st, scope) && !Exposes(st, scope, act)
    ensures GateHolds(c, Do(c, st, act), scope)
  {
    match act
    case Operate(step) =>
      StepKeepsMarker(c, st, step, scope);
      StepKeepsNumbered(c, st, step);
    case Overwrite(sequence, hash) => UnexposedKeepsGate(c, st, scope, sequence, hash);
  }

  lemma {:induction false} ActsKeepGate(c: Crypto, st: State, acts: seq<Act>, scope: Scope)
    requires GateHolds(c, st, scope)
    requires forall i | 0 <= i < |acts| :: !Exposes(DoAll(c, st, acts[..i]), scope, acts[i])
    ensures GateHolds(c, DoAll(c, st, acts), scope)
    decreases |acts|
  {
    if acts != [] {
      var st', rest := Do(c, st, acts[0]), acts[1..];
      assert DoAll(c, st, acts[..0]) == st;
      ActKeepsGate(c, st, acts[0], scope);
      forall i | 0 <= i < |rest| ensures !Exposes(DoAll(c, st', rest[..i]), scope, rest[i]) {
        assert acts[..i + 1][1..] == rest[..i];
        assert !Exposes(DoAll(c, st, acts[..i + 1]), scope, acts[i + 1]);
      }
      ActsKeepGate(c, st', rest, scope);
    }
  }

  /**
   * Over every run of operations and overwrites in which no overwrite changes a block that the
   * scope's marker covers at that moment, a secure status still means a valid full scan.
   */
  lemma SecureUnlessExposed(c: Crypto, st: State, acts: seq<Act>, scope: Scope, now: int)
    requires Numbered(st, scope) && Numbered(st, Global) && MarkerOf(st, scope) == 0
    requires forall i | 0 <= i < |acts| :: !Exposes(DoAll(c, st, acts[..i]), scope, acts[i])
    ensures IsSecure(DoAll(c, st, acts), scope, now) ==> FullScan(c, DoAll(c, st, acts).log, scope).Valid?
  {
    ActsKeepGate(c, st, acts, scope);
    if IsSecure(DoAll(c, st, acts), scope, now) {
      SecureMeansValid(c, DoAll(c, st, acts), scope, now);
    }
  }

  // ---- overwrites it does cover ----

  lemma SameMaxSequence(log: seq<Block>, scope: Scope, k: nat, hash: string)
    requires UniqueNumbers(log, Global) && UniqueNumbers(log, scope) && k < |Chain(log, scope)|
    ensures MaxSequence(Tamper(log, Chain(log, scope)[k].sequence, hash), scope) == MaxSequence(log, scope)
  {
    TamperedChain(log, scope, k, hash);
    TamperKeepsNumbers(Chain(log, scope)[k], hash, scope);
  }

  lemma ExposedMarkerUnsound(c: Crypto, log: seq<Block>, scope: Scope, k: nat, hash: string, marker: nat)
    requires UniqueNumbers(log, Global) && UniqueNumbers(log, scope) && k < |Chain(log, scope)|
    requires FullScan(c, log, scope).Valid? && hash != Chain(log, scope)[k].hash
    requires Num(scope, Chain(log, scope)[k]) <= marker
    ensures !MarkerSound(c, Tamper(log, Chain(log, scope)[k].sequence, hash), scope, marker)
  {
    var chain := Chain(log, scope);
    ValidIffClean(c, log, scope);
    TamperedChain(log, scope, k, hash);
    TamperKeepsNumbers(chain[k], hash, scope);
    TamperedFault(c, scope, chain, k, hash, k);
  }

  /** The status looks at the marker and the last number only. */
  lemma StatusStays(st: State, scope: Scope, k: nat, hash: string, now: int)
    requires UniqueNumbers(st.log, Global) && UniqueNumbers(st.log, scope) && k < |Chain(st.log, scope)|
    ensures IsSecure(st.(log := Tamper(st.log, Chain(st.log, scope)[k].sequence, hash)), scope, now)
         == IsSecure(st, scope, now)
  {
    SameMaxSequence(st.log, scope, k, hash);
  }

  lemma LostGate(c: Crypto, st: State, scope: Scope)
    requires MarkerOf(st, scope) != 0 && !MarkerSound(c, st.log, scope, MarkerOf(st, scope))
    ensures !GateHolds(c, st, scope)
  {
  }

  /** What an overwrite of a covered block does to a chain that passes. */
  lemma ExposedBreaks(c: Crypto, st: State, scope: Scope, k: nat, hash: string)
    requires GateHolds(c, st, scope) && FullScan(c, st.log, scope).Valid? && k < |Chain(st.log, scope)|
    requires hash != Chain(st.log, scope)[k].hash && Num(scope, Chain(st.log, scope)[k]) <= MarkerOf(st, scope)
    ensures var st' := st.(log := Tamper(st.log, Chain(st.log, scope)[k].sequence, hash));
      && !GateHolds(c, st', scope) && FullScan(c, st'.log, scope).Broken?
      && forall now :: IsSecure(st', scope, now) == IsSecure(st, scope, now)
  {
    var st' := st.(log := Tamper(st.log, Chain(st.log, scope)[k].sequence, hash));
    FullScanLocatesTamper(c, st.log, scope, k, hash);
    ExposedMarkerUnsound(c, st.log, scope, k, hash, MarkerOf(st, scope));
    LastIsLargest(st.log, scope, k);
    LostGate(c, st', scope);
    forall now ensures IsSecure(st', scope, now) == IsSecure(st, scope, now) {
      StatusStays(st, scope, k, hash, now);
    }
  }

  /**
   * On a chain that passes, an overwrite keeps the markers sound exactly when it does not change a
   * block the marker covers. If it does, the full scan breaks, and the status is what it was.
   */
  lemma OverwriteKeepsGateIff(c: Crypto, st: State, scope: Scope, sequence: nat, hash: string)
    requires GateHolds(c, st, scope) && FullScan(c, st.log, scope).Valid?
    ensures var act := Overwrite(sequence, hash);
      var st' := Do(c, st, act);
      && (GateHolds(c, st', scope) <==> !Exposes(st, scope, act))
      && (Exposes(st, scope, act) ==>
            FullScan(c, st'.log, scope).Broken? && forall now :: IsSecure(st', scope, now) == IsSecure(st, scope, now))
  {
    if Exposes(st, scope, Overwrite(sequence, hash)) {
      FindFacts(st.log, Global, sequence);
      var k := PositionInChain(st.log, scope, FindByNumber(st.log, Global, sequence).value);
      ExposedBreaks(c, st, scope, k, hash);
    } else {
      UnexposedKeepsGate(c, st, scope, sequence, hash);
    }
  }

  // ---- a run in which a voting is finalised on a broken chain ----

  ghost predicate Recorded(c: Crypto, before: seq<Step>, v: string, t: int) {
    Sound(c) && AppendsOnly(before) && NoFailures(before) && ClockFrom(t, before) && Appends(before, Voting(v)) > 0
  }

  /** A full verification of a chain that passes, with no mark or seal yet, makes the status secure for a day. */
  lemma FullVerificationSecures(c: Crypto, st: State, scope: Scope, at: int)
    requires FullScan(c, st.log, scope).Valid? && Chain(st.log, scope) != [] && MaxSequence(st.log, scope) > 0
    requires st.markers == map[] && st.checkpoints == map[]
    ensures var checked := Verify(c, st, scope, true, at).0;
      MarkerOf(checked, scope) == MaxSequence(st.log, scope) && forall now | now - at < DAY :: IsSecure(checked, scope, now)
  {
    ValidIffClean(c, st.log, scope);
  }

  /** After successful appends a full verification makes the status secure for a day. */
  lemma VerifiedRunIsSecure(c: Crypto, before: seq<Step>, v: string, t: int, at: int)
    requires Recorded(c, before, v, t)
    ensures var st, checked := Run(c, EMPTY, before), Run(c, EMPTY, before + [VerifyStep(Voting(v), true, at)]);
      && checked.log == st.log && GateHolds(c, checked, Voting(v)) && FullScan(c, st.log, Voting(v)).Valid?
      && |Chain(st.log, Voting(v))| == Appends(before, Voting(v))
      && MarkerOf(checked, Voting(v)) == MaxSequence(st.log, Voting(v))
      && forall now | now - at < DAY :: IsSecure(checked, Voting(v), now)
  {
    var st, scope := Run(c, EMPTY, before), Voting(v);
    SuccessfulRunsAreValid(c, before, t, scope);
    RunKeepsComplete(c, EMPTY, before, scope);
    AppendsWriteNoMarks(c, EMPTY, before);
    RunThen(c, EMPTY, before, VerifyStep(scope, true, at));
    assert Numbered(st, scope) && Numbered(st, Global);
    LastIsLargest(st.log, scope, 0);
    FullVerificationSecures(c, st, scope, at);
    StepKeepsMarker(c, st, VerifyStep(scope, true, at), scope);
    StepKeepsNumbered(c, st, VerifyStep(scope, true, at));
  }

  /**
   * Overwriting the hash of any block of the voting after that leaves the status secure on a broken
   * chain, and a voting that could be finalised is finalised on it.
   */
  lemma FinalizedOnBrokenChain(
      c: Crypto, before: seq<Step>, v: string, t: int, at: int, now: int, k: nat, hash: string, st: VotingStore.State)
    requires Recorded(c, before, v, t) && now - at < DAY
    requires VotingStore.Finalize(st, v, true, now).1.Ok?
    requires k < |Chain(Run(c, EMPTY, before).log, Voting(v))|
    requires hash != Chain(Run(c, EMPTY, before).log, Voting(v))[k].hash
    requires !HashTaken(Run(c, EMPTY, before).log, Chain(Run(c, EMPTY, before).log, Voting(v))[k].sequence, hash)
    ensures var checked := Run(c, EMPTY, before + [VerifyStep(Voting(v), true, at)]);
      var audit := Do(c, checked, Overwrite(Chain(Run(c, EMPTY, before).log, Voting(v))[k].sequence, hash));
      && VotingStore.Finalize(st, v, IsSecure(audit, Voting(v), now), now).1.Ok?
      && FullScan(c, audit.log, Voting(v)).Broken?
  {
    var checked, scope := Run(c, EMPTY, before + [VerifyStep(Voting(v), true, at)]), Voting(v);
    VerifiedRunIsSecure(c, before, v, t, at);
    LastIsLargest(checked.log, scope, k);
    ExposedBreaks(c, checked, scope, k, hash);
  }
}
