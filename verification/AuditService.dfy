/**
 * The audit service as the object it is: fields that the append, the verification loop and the
 * forensic operations update in place. Each operation is proved to have exactly the effect the
 * state functions describe, so what is proved about those holds of the object.
 */
module AuditServices {
  import opened Base
  import opened AuditChain
  import opened ChainStore
  import opened ChainScan
  import opened Sorting
  import opened AuditState
  import opened AuditTampering

  datatype Status = Status(lastVerifiedSequence: nat, maxSequence: nat, isSecure: bool)

  class AuditService {
    const crypto: Crypto
    var log: seq<Block>
    var counters: map<Scope, nat>
    var markers: map<Scope, Marker>
    var checkpoints: map<Scope, seq<Checkpoint>>

    ghost function Current(): State
      reads this
    {
      State(log, counters, markers, checkpoints)
    }

    /** The unique indexes of the collection hold. */
    ghost predicate Valid()
      reads this
    {
      forall scope: Scope :: UniqueNumbers(log, scope)
    }

    constructor (crypto: Crypto)
      ensures Valid() && Current() == EMPTY && this.crypto == crypto
    {
      this.crypto := crypto;
      log, counters, markers, checkpoints := [], map[], map[], map[];
    }

    // ---- append ----

    /** INCR on the scope's counter. */
    method NextSequence(scope: Scope) returns (n: nat)
      modifies this`counters
      ensures counters == Bump(old(counters), scope) && n == counters[scope]
    {
      n := (if scope in counters then counters[scope] else 0) + 1;
      counters := counters[scope := n];
    }

    /** The number and link of the scope, taken only when the context names one. */
    method TakeNumber(present: bool, scope: Scope) returns (n: Option<nat>)
      modifies this`counters
      ensures counters == BumpIf(old(counters), present, scope)
      ensures n == if present then Some((if scope in old(counters) then old(counters)[scope] else 0) + 1) else None
    {
      n := None;
      if present {
        var taken := NextSequence(scope);
        n := Some(taken);
      }
    }

    /** All numbers are taken first, outside the insert transaction. */
    method TakeNumbers(ctx: Context) returns (global: nat, group: Option<nat>, voting: Option<nat>, survey: Option<nat>)
      modifies this`counters
      ensures counters == BumpedCounters(old(Current()), ctx)
      ensures global == Counter(old(Current()), Global) + 1
      ensures group == NextIf(old(Current()), Present(ctx.groupId), Group(IdText(ctx.groupId)))
      ensures voting == NextIf(old(Current()), Present(ctx.votingId), Voting(IdText(ctx.votingId)))
      ensures survey == NextIf(old(Current()), Present(ctx.surveyId), Survey(IdText(ctx.surveyId)))
    {
      global := NextSequence(Global);
      group := TakeNumber(Present(ctx.groupId), Group(IdText(ctx.groupId)));
      voting := TakeNumber(Present(ctx.votingId), Voting(IdText(ctx.votingId)));
      survey := TakeNumber(Present(ctx.surveyId), Survey(IdText(ctx.surveyId)));
    }

    /** The insert of one block; the unique indexes or the store may refuse it. */
    method Insert(b: Block, storeFails: bool) returns (stored: bool)
      requires Valid()
      modifies this`log
      ensures Valid()
      ensures stored <==> !storeFails && !Rejected(old(log), b)
      ensures log == if stored then old(log) + [b] else old(log)
    {
      stored := !storeFails && !Rejected(log, b);
      if stored {
        InsertKeepsIndexes(log, b);
        log := log + [b];
      }
    }

    method ProcessAppend(ctx: Context, now: int, storeFails: bool) returns (stored: bool)
      requires Valid()
      modifies this`counters, this`log
      ensures Valid() && Current() == Append(crypto, old(Current()), ctx, now, storeFails)
      ensures stored <==> |log| == |old(log)| + 1
    {
      var globalSeq, groupSeq, votingSeq, surveySeq := TakeNumbers(ctx);
      var b := Block(
        globalSeq, groupSeq, votingSeq, surveySeq,
        ctx.action, ctx.payload, ctx.userId, ctx.groupId, ctx.votingId, ctx.surveyId, now,
        LastHash(crypto, log, Global),
        LinkIf(crypto, log, Present(ctx.groupId), Group(IdText(ctx.groupId))),
        LinkIf(crypto, log, Present(ctx.votingId), Voting(IdText(ctx.votingId))),
        LinkIf(crypto, log, Present(ctx.surveyId), Survey(IdText(ctx.surveyId))),
        "");
      assert b == UnhashedBlock(crypto, old(Current()), ctx, now);
      b := b.(hash := BlockHash(crypto, b));
      stored := Insert(b, storeFails);
    }

    // ---- markers and seals ----

    method SetLastVerifiedSequence(scope: Scope, sequence: nat, fullAt: Option<int>)
      modifies this`markers
      ensures Current() == SetMarker(old(Current()), scope, sequence, fullAt)
    {
      var stamp := fullAt;
      if fullAt.None? && scope in markers {
        stamp := markers[scope].lastFullVerificationAt;
      }
      markers := markers[scope := Marker(sequence, stamp)];
    }

    method SealCheckpoint(scope: Scope) returns (error: Option<CheckpointError>)
      modifies this`checkpoints
      ensures match CreateCheckpoint(old(Current()), scope)
              case Ok(st) => error == None && Current() == st
              case Err(e) => error == Some(e) && Current() == old(Current())
    {
      var last := LastBlock(log, scope);
      if last.None? {
        return Some(EmptyChain);
      }
      var cps := if scope in checkpoints then checkpoints[scope] else [];
      if exists i | 0 <= i < |cps| :: cps[i].sequence == last.value.sequence {
        return Some(AlreadySealed);
      }
      checkpoints := checkpoints[scope := cps + [Checkpoint(last.value.sequence, last.value.hash)]];
      return None;
    }

    method VerifyCheckpoints(scope: Scope) returns (brokenAt: Option<nat>)
      ensures brokenAt == BrokenCheckpoint(Current(), scope)
    {
      var cps := Sort(if scope in checkpoints then checkpoints[scope] else [], BySequence());
      var i := 0;
      while i < |cps|
        invariant i <= |cps|
        invariant FirstBrokenSeal(log, cps) == FirstBrokenSeal(log, cps[i..])
      {
        var doc := FindByNumber(log, Global, cps[i].sequence);
        if doc.None? || doc.value.hash != cps[i].hash {
          return Some(cps[i].sequence);
        }
        assert cps[i..][1..] == cps[i + 1..];
        i := i + 1;
      }
      return None;
    }

    // ---- verification ----

    /** The checks on one block, against what the loop remembers of the one before. */
    method CheckDoc(scope: Scope, doc: Block, expectedPrevHash: Option<string>, prevSequence: Option<nat>,
                    prevCreatedAt: Option<int>)
      returns (fault: Option<Fault>)
      ensures fault == Check(crypto, scope, Cursor(expectedPrevHash, prevSequence, prevCreatedAt), doc)
    {
      var number := Num(scope, doc);
      if prevSequence.Some? && number != prevSequence.value + 1 {
        return Some(Gap(prevSequence.value + 1, number));
      }
      if prevCreatedAt.Some? && doc.createdAt < prevCreatedAt.value {
        return Some(TimeManipulation);
      }
      var expected := BlockHash(crypto, doc);
      if expected != doc.hash {
        return Some(TamperedHash(expected, doc.hash, doc));
      }
      if expectedPrevHash.Some? && LinkOf(scope, doc) != expectedPrevHash {
        return Some(BrokenLink(expectedPrevHash.value, LinkOf(scope, doc), doc));
      }
      return None;
    }

    /** The scan over the cursor, one block at a time. */
    method ScanDocs(scope: Scope, start: Cursor, docs: seq<Block>) returns (report: Report, headSequence: nat)
      ensures report == Scan(crypto, scope, start, docs)
      ensures report.Valid? && docs != [] ==> headSequence == Num(scope, docs[|docs| - 1])
    {
      var totalChecked := 0;
      var expectedPrevHash, prevSequence, prevCreatedAt := start.expectedPrevHash, start.prevSequence, start.prevCreatedAt;
      headSequence := 0;
      while totalChecked < |docs|
        invariant totalChecked <= |docs|
        invariant CleanUpTo(crypto, scope, start, docs, totalChecked)
        invariant Cursor(expectedPrevHash, prevSequence, prevCreatedAt) == Before(scope, start, docs, totalChecked)
        invariant totalChecked > 0 ==> headSequence == Num(scope, docs[totalChecked - 1])
      {
        var doc := docs[totalChecked];
        var number := Num(scope, doc);
        totalChecked := totalChecked + 1;
        var fault := CheckDoc(scope, doc, expectedPrevHash, prevSequence, prevCreatedAt);
        assert fault == FaultAt(crypto, scope, start, docs, totalChecked - 1);
        if fault.Some? {
          report := Broken(totalChecked, number, fault.value);
          ScanIs(crypto, scope, start, docs, report);
          return;
        }
        expectedPrevHash, prevSequence, prevCreatedAt := Some(doc.hash), Some(number), Some(doc.createdAt);
        headSequence := number;
      }
      report := Report.Valid(totalChecked);
      ScanIs(crypto, scope, start, docs, report);
    }

    method VerifyChain(scope: Scope, forceFull: bool, now: int) returns (report: Report)
      requires Valid()
      modifies this`markers
      ensures Valid() && (Current(), report) == Verify(crypto, old(Current()), scope, forceFull, now)
    {
      if forceFull && scope in markers && markers[scope].lastFullVerificationAt.Some?
         && now - markers[scope].lastFullVerificationAt.value < DAY {
        return Throttled;
      }
      var seals := VerifyCheckpoints(scope);
      if seals.Some? {
        return CheckpointBroken(seals.value);
      }
      var lastVerified := if forceFull || scope !in markers then 0 else markers[scope].lastVerifiedSequence;
      report := ScanAndMark(scope, lastVerified, if forceFull then Some(now) else None);
    }

    /** The part of a verification after the throttle and the seals. */
    method ScanAndMark(scope: Scope, lastVerified: nat, fullAt: Option<int>) returns (report: Report)
      requires Valid()
      modifies this`markers
      ensures Valid()
      ensures report == ScanFrom(crypto, log, scope, lastVerified)
      ensures Current() == Settle(old(Current()), scope, lastVerified, report, fullAt)
    {
      var docs := Query(log, scope, if lastVerified == 0 then None else Some(lastVerified));
      var start := if lastVerified == 0 then FromGenesis(crypto, scope) else FromMarker(log, scope, lastVerified);
      if |docs| == 0 {
        ScanIs(crypto, scope, start, docs, Report.Valid(0));
        return Report.Valid(0);
      }
      var headSequence;
      report, headSequence := ScanDocs(scope, start, docs);
      if report.Broken? {
        SetLastVerifiedSequence(scope, 0, None);
        return;
      }
      LastOfQuery(log, scope, lastVerified);
      if headSequence > lastVerified {
        SetLastVerifiedSequence(scope, headSequence, fullAt);
      }
    }

    method GetAuditStatus(scope: Scope, now: int) returns (status: Status)
      ensures status == Status(MarkerOf(Current(), scope), MaxSequence(log, scope), IsSecure(Current(), scope, now))
    {
      var last := LastBlock(log, scope);
      var maxSequence := if last.Some? then Num(scope, last.value) else 0;
      var lastVerified, isWithin24h := 0, false;
      if scope in markers {
        lastVerified := markers[scope].lastVerifiedSequence;
        var stamp := markers[scope].lastFullVerificationAt;
        isWithin24h := stamp.Some? && now - stamp.value < DAY;
      }
      return Status(lastVerified, maxSequence, isWithin24h && lastVerified >= maxSequence);
    }

    // ---- forensics ----

    /** Always a full scan, after an optional reset of the marker; None is the throttling error. */
    method GetCompromisedBlocks(scope: Scope, forceFull: bool, now: int) returns (records: Option<seq<Record>>)
      requires Valid()
      modifies this`markers
      ensures Valid()
      ensures var st := if forceFull then SetMarker(old(Current()), scope, 0, None) else old(Current());
              var (st', report) := Verify(crypto, st, scope, true, now);
              && Current() == st'
              && records == if report.Throttled? then None else Some(Compromised(log, scope, report))
    {
      if forceFull {
        SetLastVerifiedSequence(scope, 0, None);
      }
      var report := VerifyChain(scope, true, now);
      return if report.Throttled? then None else Some(Compromised(log, scope, report));
    }

    /** The raw overwrite of one block's hash; only the unique index on hashes can refuse it. */
    method TamperHash(sequence: nat, hash: string) returns (done: bool)
      requires Valid()
      modifies this`log
      ensures Valid()
      ensures done <==> !exists i | 0 <= i < |old(log)| :: old(log)[i].sequence != sequence && old(log)[i].hash == hash
      ensures log == if done then Tamper(old(log), sequence, hash) else old(log)
    {
      done := !exists i | 0 <= i < |log| :: log[i].sequence != sequence && log[i].hash == hash;
      if done {
        TamperKeepsIndexes(log, sequence, hash);
        log := Tamper(log, sequence, hash);
      }
    }
  }

  // ---- the unique indexes are kept ----

  lemma InsertKeepsIndexes(log: seq<Block>, b: Block)
    requires forall scope: Scope :: UniqueNumbers(log, scope)
    requires !Rejected(log, b)
    ensures forall scope: Scope :: UniqueNumbers(log + [b], scope)
  {
    forall scope: Scope ensures UniqueNumbers(log + [b], scope) {
      assert UniqueNumbers(log, scope);
      forall i, j | 0 <= i < j < |log + [b]| && InScope(scope, (log + [b])[i]) && InScope(scope, (log + [b])[j])
        ensures Num(scope, (log + [b])[i]) != Num(scope, (log + [b])[j])
      {
        if j == |log| {
          assert !Conflict(log[i], b);
          assert !SameNumber(log[i], b, scope);
        }
      }
    }
  }

  lemma {:induction false} TamperAbsent(log: seq<Block>, sequence: nat, hash: string)
    requires forall b :: b in log ==> b.sequence != sequence
    ensures Tamper(log, sequence, hash) == log
  {
    if log != [] {
      assert log[0] in log;
      TamperAbsent(log[1..], sequence, hash);
    }
  }

  lemma TamperKeepsIndexes(log: seq<Block>, sequence: nat, hash: string)
    requires forall scope: Scope :: UniqueNumbers(log, scope)
    ensures forall scope: Scope :: UniqueNumbers(Tamper(log, sequence, hash), scope)
  {
    if forall b :: b in log ==> b.sequence != sequence {
      TamperAbsent(log, sequence, hash);
    } else {
      var b :| b in log && b.sequence == sequence;
      assert UniqueNumbers(log, Global);
      forall scope: Scope ensures UniqueNumbers(Tamper(log, sequence, hash), scope) {
        assert UniqueNumbers(log, scope);
        TamperKeepsUnique(log, scope, hash, b);
      }
    }
  }

  /** The last block after a marker is the last block of the chain. */
  lemma LastOfQuery(log: seq<Block>, scope: Scope, marker: nat)
    requires UniqueNumbers(log, scope)
    ensures var docs := Query(log, scope, if marker == 0 then None else Some(marker));
            docs != [] ==> Num(scope, docs[|docs| - 1]) == MaxSequence(log, scope)
  {
    if marker != 0 {
      var k := AfterIsSuffix(log, scope, marker);
    }
  }
}
