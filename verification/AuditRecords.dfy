/**
 * What the log records: after a successful run the chain of a scope holds, in order, what was
 * appended to that scope; and the string a block's hash is taken of, read back field by field.
 */
module AuditRecords {
  import opened Base
  import opened Serialization
  import opened AuditChain
  import opened ChainStore
  import opened ChainScan
  import opened AuditState
  import opened AuditRuns

  // ---- what was appended ----

  /** The block holds what one append was given, and its time. */
  predicate Records(b: Block, ctx: Context, now: int) {
    && b.action == ctx.action && b.payload == ctx.payload && b.userId == ctx.userId
    && b.groupId == ctx.groupId && b.votingId == ctx.votingId && b.surveyId == ctx.surveyId
    && b.createdAt == now
  }

  /** The appends to the scope, in order. */
  function Appended(steps: seq<Step>, scope: Scope): (r: seq<Step>)
    ensures forall i | 0 <= i < |r| :: r[i].AppendStep? && Touches(r[i].ctx, scope)
  {
    if steps == [] then []
    else
      var last := steps[|steps| - 1];
      Appended(steps[..|steps| - 1], scope) + (if last.AppendStep? && Touches(last.ctx, scope) then [last] else [])
  }

  predicate ChainRecords(chain: seq<Block>, appended: seq<Step>) {
    && |chain| == |appended|
    && forall i | 0 <= i < |chain| :: appended[i].AppendStep? && Records(chain[i], appended[i].ctx, appended[i].now)
  }

  lemma NewBlockRecords(c: Crypto, st: State, ctx: Context, now: int)
    ensures Records(NewBlock(c, st, ctx, now), ctx, now)
  {
  }

  lemma OneMore(chain: seq<Block>, b: Block, appended: seq<Step>, step: Step)
    requires ChainRecords(chain, appended) && step.AppendStep? && Records(b, step.ctx, step.now)
    ensures ChainRecords(chain + [b], appended + [step])
  {
  }

  lemma AppendRecords(c: Crypto, st: State, ctx: Context, now: int, scope: Scope, appended: seq<Step>)
    requires Sound(c) && CleanLog(c, st.log) && AllNumbered(st) && NoBar(ctx.action)
    requires ChainRecords(Chain(st.log, scope), appended)
    ensures var chain := Chain(Append(c, st, ctx, now, false).log, scope);
      ChainRecords(chain, if Touches(ctx, scope) then appended + [AppendStep(ctx, now, false)] else appended)
  {
    assert Numbered(st, scope);
    NeverRejected(c, st, ctx, now);
    StoredAppend(c, st, ctx, now, scope);
    AppendedBlock(c, st, ctx, now, scope);
    if Touches(ctx, scope) {
      NewBlockRecords(c, st, ctx, now);
      OneMore(Chain(st.log, scope), NewBlock(c, st, ctx, now), appended, AppendStep(ctx, now, false));
    }
  }

  lemma StepRecords(c: Crypto, st: State, step: Step, scope: Scope, appended: seq<Step>)
    requires Sound(c) && CleanLog(c, st.log) && AllNumbered(st)
    requires step.AppendStep? ==> !step.storeFails && NoBar(step.ctx.action)
    requires ChainRecords(Chain(st.log, scope), appended)
    ensures ChainRecords(Chain(Perform(c, st, step).log, scope),
                         if step.AppendStep? && Touches(step.ctx, scope) then appended + [step] else appended)
  {
    if step.AppendStep? {
      AppendRecords(c, st, step.ctx, step.now, scope, appended);
    } else {
      assert Perform(c, st, step).log == st.log;
    }
  }

  lemma AppendedThen(steps: seq<Step>, last: Step, scope: Scope)
    ensures Appended(steps + [last], scope)
         == if last.AppendStep? && Touches(last.ctx, scope) then Appended(steps, scope) + [last] else Appended(steps, scope)
  {
    assert (steps + [last])[..|steps|] == steps;
  }

  lemma OneMoreStepRecords(c: Crypto, front: seq<Step>, last: Step, scope: Scope)
    requires Sound(c) && NoFailures(front + [last])
    requires ChainRecords(Chain(Run(c, EMPTY, front).log, scope), Appended(front, scope))
    ensures ChainRecords(Chain(Run(c, EMPTY, front + [last]).log, scope), Appended(front + [last], scope))
  {
    assert NoFailures(front) by {
      assert forall i | 0 <= i < |front| :: (front + [last])[i] == front[i];
    }
    assert (front + [last])[|front|] == last;
    RunKeepsComplete(c, EMPTY, front, scope);
    RunThen(c, EMPTY, front, last);
    AppendedThen(front, last, scope);
    StepRecords(c, Run(c, EMPTY, front), last, scope, Appended(front, scope));
  }

  /**
   * After any successful run the chain of every scope records, in order, the action, the payload,
   * the user, the group, voting and survey, and the time of every append to it, and nothing else.
   */
  lemma {:induction false} RunRecords(c: Crypto, steps: seq<Step>, scope: Scope)
    requires Sound(c) && NoFailures(steps)
    ensures ChainRecords(Chain(Run(c, EMPTY, steps).log, scope), Appended(steps, scope))
    decreases |steps|
  {
    if steps == [] {
      assert Chain(EMPTY.log, scope) == [];
    } else {
      var front, last := steps[..|steps| - 1], steps[|steps| - 1];
      RunRecords(c, front, scope);
      OneMoreStepRecords(c, front, last, scope);
      assert steps == front + [last];
    }
  }

  // ---- the indexes, and numbers that are lost ----

  predicate HashesDiffer(log: seq<Block>) {
    forall i, j | 0 <= i < j < |log| :: log[i].hash != log[j].hash
  }

  lemma StepKeepsHashes(c: Crypto, st: State, step: Step)
    requires HashesDiffer(st.log)
    ensures HashesDiffer(Perform(c, st, step).log)
  {
    if step.AppendStep? {
      var b := NewBlock(c, st, step.ctx, step.now);
      if !step.storeFails && !Rejected(st.log, b) {
        forall i | 0 <= i < |st.log| ensures st.log[i].hash != b.hash {
          assert !Conflict(st.log[i], b);
        }
      }
    } else {
      assert Perform(c, st, step).log == st.log;
    }
  }

  lemma StepKeepsNumbered(c: Crypto, st: State, step: Step, scope: Scope)
    requires Numbered(st, scope)
    ensures Numbered(Perform(c, st, step), scope)
  {
    if step.AppendStep? {
      NumberedAfterAppend(c, st, step.ctx, step.now, step.storeFails, scope);
    } else {
      var st' := Perform(c, st, step);
      assert st'.log == st.log && st'.counters == st.counters;
      assert Counter(st', scope) == Counter(st, scope);
    }
  }

  /** Whatever fails, no two blocks of the log share a hash, or a number in any scope. */
  lemma {:induction false} IndexesHold(c: Crypto, st: State, steps: seq<Step>, scope: Scope)
    requires HashesDiffer(st.log) && Numbered(st, scope)
    ensures HashesDiffer(Run(c, st, steps).log) && Numbered(Run(c, st, steps), scope)
    decreases |steps|
  {
    if steps != [] {
      StepKeepsHashes(c, st, steps[0]);
      StepKeepsNumbered(c, st, steps[0], scope);
      IndexesHold(c, Perform(c, st, steps[0]), steps[1..], scope);
    }
  }

  /** The id names a scope: it is there and not empty. */
  predicate Names(id: Option<string>) {
    id != None && id != Some("")
  }

  /** A block has a number and a link in a group, voting or survey exactly when it names one. */
  predicate NumberedWhereNamed(b: Block) {
    && (b.groupSequence.Some? <==> Names(b.groupId)) && (b.groupPrevHash.Some? <==> Names(b.groupId))
    && (b.votingSequence.Some? <==> Names(b.votingId)) && (b.votingPrevHash.Some? <==> Names(b.votingId))
    && (b.surveySequence.Some? <==> Names(b.surveyId)) && (b.surveyPrevHash.Some? <==> Names(b.surveyId))
  }

  ghost predicate AllNumberedWhereNamed(log: seq<Block>) {
    forall b | b in log :: NumberedWhereNamed(b)
  }

  lemma StepNumbersWhereNamed(c: Crypto, st: State, step: Step)
    requires AllNumberedWhereNamed(st.log)
    ensures AllNumberedWhereNamed(Perform(c, st, step).log)
  {
    if step.AppendStep? {
      assert NumberedWhereNamed(NewBlock(c, st, step.ctx, step.now));
    } else {
      assert Perform(c, st, step).log == st.log;
    }
  }

  lemma {:induction false} RunsNumberWhereNamed(c: Crypto, st: State, steps: seq<Step>)
    requires AllNumberedWhereNamed(st.log)
    ensures AllNumberedWhereNamed(Run(c, st, steps).log)
    decreases |steps|
  {
    if steps != [] {
      StepNumbersWhereNamed(c, st, steps[0]);
      RunsNumberWhereNamed(c, Perform(c, st, steps[0]), steps[1..]);
    }
  }

  /** A failed insert stores nothing and still takes a number in every scope it was for. */
  lemma FailedAppendTakesNumbers(c: Crypto, st: State, ctx: Context, now: int, scope: Scope)
    ensures var st' := Append(c, st, ctx, now, true);
      && st'.log == st.log && st'.markers == st.markers && st'.checkpoints == st.checkpoints
      && Counter(st', scope) == Counter(st, scope) + (if Touches(ctx, scope) then 1 else 0)
  {
    BumpedCounter(st, ctx, scope);
  }

  lemma GapAtEnd(c: Crypto, st: State, scope: Scope, t: int, n: nat)
    requires ChainInvariant(c, st, scope, t) && |Chain(st.log, scope)| == n + 1 && scope.Voting?
    requires forall i | 0 <= i < n :: Num(scope, Chain(st.log, scope)[i]) == i + 1
    requires Num(scope, Chain(st.log, scope)[n]) == n + 2
    ensures FullScan(c, st.log, scope) == Broken(n + 1, n + 2, Gap(n + 1, n + 2))
  {
    var chain := Chain(st.log, scope);
    forall i | 0 <= i <= n
      ensures FaultAt(c, scope, FromGenesis(c, scope), chain, i) == if i < n then None else Some(Gap(n + 1, n + 2))
    {
      OnlyGaps(c, st, scope, t, i);
    }
    ScanIs(c, scope, FromGenesis(c, scope), chain, Broken(n + 1, n + 2, Gap(n + 1, n + 2)));
  }

  /** A number lost and the next one stored leave a chain of n blocks with one more, numbered n + 2. */
  lemma LostThenStored(c: Crypto, st: State, lost: Context, ctx: Context, now: int, scope: Scope)
    requires Sound(c) && CleanLog(c, st.log) && AllNumbered(st) && NoBar(ctx.action) && Complete(st, scope)
    requires Touches(lost, scope) && Touches(ctx, scope)
    ensures var chain := Chain(Append(c, Append(c, st, lost, now, true), ctx, now, false).log, scope);
      var n := Counter(st, scope);
      && |chain| == n + 1 && Num(scope, chain[n]) == n + 2
      && forall i | 0 <= i < n :: Num(scope, chain[i]) == i + 1
  {
    var mid := Append(c, st, lost, now, true);
    FailedAppendTakesNumbers(c, st, lost, now, scope);
    AppendKeepsNumbered(c, st, lost, now, true);
    NeverRejected(c, mid, ctx, now);
    assert Numbered(mid, scope);
    StoredAppend(c, mid, ctx, now, scope);
    AppendedBlock(c, mid, ctx, now, scope);
  }

  lemma RunThenTwo(c: Crypto, steps: seq<Step>, a: Step, b: Step)
    ensures Run(c, EMPTY, steps + [a] + [b]) == Perform(c, Perform(c, Run(c, EMPTY, steps), a), b)
  {
    RunThen(c, EMPTY, steps, a);
    RunThen(c, EMPTY, steps + [a], b);
  }

  /**
   * So after a successful run, a failed append and a successful one to the same voting, the scan
   * breaks at the second, over the number the first one lost.
   */
  lemma LostNumberIsReported(c: Crypto, steps: seq<Step>, lost: Context, ctx: Context, v: string, t: int, now: int)
    requires Sound(c) && NoFailures(steps) && NoBar(ctx.action)
    requires ClockFrom(t, steps + [AppendStep(lost, now, true)] + [AppendStep(ctx, now, false)])
    requires Touches(lost, Voting(v)) && Touches(ctx, Voting(v))
    ensures var n := Appends(steps, Voting(v));
      FullScan(c, Run(c, EMPTY, steps + [AppendStep(lost, now, true)] + [AppendStep(ctx, now, false)]).log, Voting(v))
        == Broken(n + 1, n + 2, Gap(n + 1, n + 2))
  {
    var scope, failed, last := Voting(v), AppendStep(lost, now, true), AppendStep(ctx, now, false);
    RunKeepsComplete(c, EMPTY, steps, scope);
    RunThenTwo(c, steps, failed, last);
    LostThenStored(c, Run(c, EMPTY, steps), lost, ctx, now, scope);
    EmptyInvariant(c, scope, t);
    var t' := RunKeepsChain(c, EMPTY, steps + [failed] + [last], t, scope);
    GapAtEnd(c, Run(c, EMPTY, steps + [failed] + [last]), scope, t', Appends(steps, scope));
  }

  // ---- the hashed string, read back ----

  /** The pieces of a string between its separators. */
  function Cut(s: string): (r: seq<string>)
    ensures r != []
  {
    if s == "" then [""]
    else if s[0] == '|' then [""] + Cut(s[1..])
    else
      var rest := Cut(s[1..]);
      [[s[0]] + rest[0]] + rest[1..]
  }

  lemma {:induction false} CutPart(part: string, rest: string)
    requires NoBar(part)
    ensures Cut(part + "|" + rest) == [part] + Cut(rest)
  {
    var s := part + "|" + rest;
    if part == "" {
      assert s[0] == '|' && s[1..] == rest;
    } else {
      CutPart(part[1..], rest);
      assert s[0] == part[0] && s[1..] == part[1..] + "|" + rest;
      assert [part[0]] + part[1..] == part;
    }
  }

  lemma {:induction false} CutLast(part: string)
    requires NoBar(part)
    ensures Cut(part) == [part]
  {
    if part != "" {
      CutLast(part[1..]);
      assert [part[0]] + part[1..] == part;
    }
  }

  lemma {:induction false} CutJoined(parts: seq<string>)
    requires parts != [] && forall i | 0 <= i < |parts| :: NoBar(parts[i])
    ensures Cut(Join(parts, "|")) == parts
  {
    if |parts| == 1 {
      CutLast(parts[0]);
    } else {
      CutJoined(parts[1..]);
      CutPart(parts[0], Join(parts[1..], "|"));
      assert parts == [parts[0]] + parts[1..];
    }
  }

  function Digit(c: char): nat {
    if '0' <= c <= '9' then c as int - '0' as int else 0
  }

  /** The number a decimal text stands for. */
  function Decimal(text: string): nat {
    if text == "" then 0 else Decimal(text[..|text| - 1]) * 10 + Digit(text[|text| - 1])
  }

  lemma DigitOf(d: nat)
    requires d < 10
    ensures Digit("0123456789"[d]) == d
  {
  }

  lemma DecimalStep(text: string, c: char)
    ensures Decimal(text + [c]) == Decimal(text) * 10 + Digit(c)
  {
    assert (text + [c])[..|text|] == text;
  }

  lemma {:induction false} DecimalOfText(n: nat)
    ensures Decimal(NatText(n)) == n && (n > 0 ==> NatText(n)[0] != '0')
  {
    DigitOf(n % 10);
    if n < 10 {
      assert NatText(n) == "" + ["0123456789"[n]];
      DecimalStep("", "0123456789"[n]);
    } else {
      DecimalOfText(n / 10);
      NatTextFacts(n / 10);
      DecimalStep(NatText(n / 10), "0123456789"[n % 10]);
    }
  }

  /** A piece holds an optional number: nothing for none, else its decimal text. */
  predicate Holds(piece: string, n: Option<nat>) {
    (piece == "" <==> n.None?) && (n.Some? ==> Decimal(piece) == n.value)
  }

  predicate HoldsText(piece: string, s: Option<string>) {
    (piece == "" <==> s.None?) && (s.Some? ==> piece == s.value)
  }

  lemma OptionalHolds(n: Option<nat>)
    ensures Holds(OptionalNumber(n), n) && NoBar(OptionalNumber(n))
  {
    if n.Some? {
      DecimalOfText(n.value);
      NatTextFacts(n.value);
    }
  }

  lemma HeadsHoldNoBar(b: Block)
    requires Clean(b)
    ensures forall i | 0 <= i < |Heads(b)| :: NoBar(Heads(b)[i])
  {
    NatTextFacts(b.sequence);
    OptionalHolds(b.groupSequence);
    OptionalHolds(b.votingSequence);
    OptionalHolds(b.surveySequence);
  }

  lemma PreimagePieces(c: Crypto, b: Block)
    requires Clean(b) && NoBar(Serialize(b.payload)) && NoBar(c.toISOString(b.createdAt))
    ensures Cut(Preimage(c, b)) == Heads(b) + [Serialize(b.payload), c.toISOString(b.createdAt)]
  {
    HeadsHoldNoBar(b);
    CutJoined(Heads(b) + [Serialize(b.payload), c.toISOString(b.createdAt)]);
  }

  /**
   * The string of a block whose texts hold no separator has eleven pieces: the global link and
   * number, the numbers and then the links in group, voting and survey, the action, the payload and
   * the time.
   */
  lemma HashedStringReadsBack(c: Crypto, b: Block)
    requires Clean(b) && NoBar(Serialize(b.payload)) && NoBar(c.toISOString(b.createdAt))
    ensures var pieces := Cut(Preimage(c, b));
      && |pieces| == 11
      && pieces[0] == b.prevHash && Decimal(pieces[1]) == b.sequence
      && Holds(pieces[2], b.groupSequence) && Holds(pieces[3], b.votingSequence) && Holds(pieces[4], b.surveySequence)
      && HoldsText(pieces[5], b.groupPrevHash) && HoldsText(pieces[6], b.votingPrevHash)
      && HoldsText(pieces[7], b.surveyPrevHash)
      && pieces[8] == b.action && pieces[9] == Serialize(b.payload) && pieces[10] == c.toISOString(b.createdAt)
  {
    PreimagePieces(c, b);
    DecimalOfText(b.sequence);
    OptionalHolds(b.groupSequence);
    OptionalHolds(b.votingSequence);
    OptionalHolds(b.surveySequence);
  }

  /** Chains of different scopes start at different hashes. */
  lemma GenesisHashesDiffer(c: Crypto, a: Scope, b: Scope)
    requires CollisionFree(c) && a != b
    ensures GenesisHash(c, a) != GenesisHash(c, b)
  {
    var s, t, n := GenesisText(c, a), GenesisText(c, b), |c.genesisSeed|;
    assert a.Group? ==> s[n + 1] == 'g' && a.id == s[n + 7..];
    assert b.Group? ==> t[n + 1] == 'g' && b.id == t[n + 7..];
    assert a.Voting? ==> s[n + 1] == 'v' && a.id == s[n + 8..];
    assert b.Voting? ==> t[n + 1] == 'v' && b.id == t[n + 8..];
    assert a.Survey? ==> s[n + 1] == 's' && a.id == s[n + 8..];
    assert b.Survey? ==> t[n + 1] == 's' && b.id == t[n + 8..];
  }
}
