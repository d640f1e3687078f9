/**
 * The secure gate before sealing: votings and surveys are finalised only on a scope whose audit
 * status is secure, and that status is earned only by a chain that passes the scan from genesis.
 */
module FinalizeGate {
  import opened Base
  import opened AuditChain
  import opened ChainStore
  import opened ChainScan
  import AuditState
  import AuditRuns
  import AuditGate
  import AuditStamps
  import VotingStore
  import SurveyStore

  /** Any voting state, with the audit state of any run that started without a marker for the voting. */
  lemma FinalizedVotingHasValidChain(
      c: Crypto, log: AuditState.State, steps: seq<AuditRuns.Step>, st: VotingStore.State, v: string, now: int)
    requires AuditRuns.Numbered(log, Voting(v)) && AuditState.MarkerOf(log, Voting(v)) == 0
    ensures var audit := AuditRuns.Run(c, log, steps);
      VotingStore.Finalize(st, v, AuditState.IsSecure(audit, Voting(v), now), now).1.Ok? ==>
        FullScan(c, audit.log, Voting(v)) == Valid(|Chain(audit.log, Voting(v))|)
  {
    var audit := AuditRuns.Run(c, log, steps);
    AuditGate.SecureStatusIsEarned(c, log, steps, Voting(v), now);
    AuditGate.ValidIffClean(c, audit.log, Voting(v));
  }

  lemma FinalizedSurveyHasValidChain(
      c: Crypto, log: AuditState.State, steps: seq<AuditRuns.Step>, st: SurveyStore.State, s: string, now: int)
    requires AuditRuns.Numbered(log, Survey(s)) && AuditState.MarkerOf(log, Survey(s)) == 0
    ensures var audit := AuditRuns.Run(c, log, steps);
      SurveyStore.Finalize(st, s, AuditState.IsSecure(audit, Survey(s), now), now).1.Ok? ==>
        FullScan(c, audit.log, Survey(s)) == Valid(|Chain(audit.log, Survey(s))|)
  {
    var audit := AuditRuns.Run(c, log, steps);
    AuditGate.SecureStatusIsEarned(c, log, steps, Survey(s), now);
    AuditGate.ValidIffClean(c, audit.log, Survey(s));
  }

  /** An audit run after which the gate is open at this moment: a full verification within the day, and one more at the end. */
  ghost predicate Opened(
      c: Crypto, scope: Scope, before: seq<AuditRuns.Step>, at: int, more: seq<AuditRuns.Step>, later: int, t: int, now: int)
  {
    && AuditStamps.Succeeds(c, AuditStamps.Watched(before, scope, at, more, later), t)
    && AuditRuns.Appends(before, scope) > 0 && now - at < 24 * 3600000
    && !AuditState.IsThrottled(AuditRuns.Run(c, AuditState.EMPTY, before), scope, at)
  }

  /** The gate lets votings through: an ended voting is finalised after such a run. */
  lemma WatchedVotingIsFinalized(
      c: Crypto, before: seq<AuditRuns.Step>, at: int, more: seq<AuditRuns.Step>, later: int, t: int,
      st: VotingStore.State, v: string, now: int)
    requires Opened(c, Voting(v), before, at, more, later, t, now)
    requires v in st.votings && !st.votings[v].isDeleted && !st.votings[v].isFinalized && v !in st.results
    requires st.votings[v].endAt.None? || st.votings[v].endAt.value <= now
    ensures var audit := AuditRuns.Run(c, AuditState.EMPTY, AuditStamps.Watched(before, Voting(v), at, more, later));
      VotingStore.Finalize(st, v, AuditState.IsSecure(audit, Voting(v), now), now).1.Ok?
  {
    AuditStamps.StaysSecure(c, before, Voting(v), at, more, later, t);
  }

  lemma WatchedSurveyIsFinalized(
      c: Crypto, before: seq<AuditRuns.Step>, at: int, more: seq<AuditRuns.Step>, later: int, t: int,
      st: SurveyStore.State, s: string, now: int)
    requires Opened(c, Survey(s), before, at, more, later, t, now)
    requires s in st.surveys && !st.surveys[s].isDeleted && !st.surveys[s].isFinalized && s !in st.results
    requires st.surveys[s].endAt.None? || st.surveys[s].endAt.value <= now
    ensures var audit := AuditRuns.Run(c, AuditState.EMPTY, AuditStamps.Watched(before, Survey(s), at, more, later));
      SurveyStore.Finalize(st, s, AuditState.IsSecure(audit, Survey(s), now), now).1.Ok?
  {
    AuditStamps.StaysSecure(c, before, Survey(s), at, more, later, t);
  }
}
