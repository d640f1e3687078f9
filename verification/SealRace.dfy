/**
 * Voting and finalising in small steps. A vote is admitted, and its ballots stored later in one
 * transaction that looks at no flag; finalising counts the options, the abstentions and the total
 * one after another and then writes the seal. No lock covers both.
 */
module SealRace {
  import opened Base
  import opened Counting
  import opened VotingStore
  import opened VotingTallies
  import opened VotingInvariants

  datatype Phase = Arrived | Admitted | Finished

  datatype Call = Call(req: Request, phase: Phase)

  /** How far finalising has come, with what it has counted so far. */
  datatype Sealing =
    | Unguarded
    | Guarded
    | OptionsCounted(options: seq<OptionCount>)
    | AbstentionsCounted(options: seq<OptionCount>, abstentions: nat)
    | TotalCounted(options: seq<OptionCount>, abstentions: nat, total: nat)
    | Written

  datatype World = World(st: State, calls: seq<Call>, sealing: Sealing)

  datatype Step =
    | Admit(i: nat, now: int)
    | Store(i: nat)
    | Guard(secure: bool, now: int)
    | CountOptions
    | CountAbstentions
    | CountTotal
    | WriteSeal

  predicate Enabled(w: World, step: Step) {
    match step
    case Admit(i, _) => i < |w.calls| && w.calls[i].phase.Arrived?
    case Store(i) => i < |w.calls| && w.calls[i].phase.Admitted?
    case Guard(_, _) => w.sealing.Unguarded?
    case CountOptions => w.sealing.Guarded?
    case CountAbstentions => w.sealing.OptionsCounted?
    case CountTotal => w.sealing.AbstentionsCounted?
    case WriteSeal => w.sealing.TotalCounted?
  }

  /** The transaction of a vote; the pending ballot may be gone already. */
  function StoredVote(st: State, req: Request): State {
    st.(options := if CreatesOption(st, req) then st.options + [OptionRow(req.newOptionId, req.votingId, req.other, true)]
                   else st.options,
        ballots := st.ballots + NewBallots(st, req),
        pending := st.pending - {req.tokenHash})
  }

  /** It writes what the atomic vote writes to the tables; the counter and the snapshot are Redis's. */
  lemma StoredAsCommitted(st: State, req: Request)
    requires req.tokenHash in st.pending
    ensures StoredVote(st, req)
         == Commit(st, req).(totalVotes := st.totalVotes, snapshots := st.snapshots, history := st.history)
  {
  }

  function At(w: World, i: nat, phase: Phase): World
    requires i < |w.calls|
  {
    w.(calls := w.calls[i := w.calls[i].(phase := phase)])
  }

  /** A refused or practice vote ends; so does one whose transaction is rolled back. */
  function Next(w: World, step: Step, v: string): World
    requires Enabled(w, step)
  {
    match step
    case Admit(i, now) =>
      var req := w.calls[i].req;
      At(w, i, if CheckVote(w.st, req, now).None? && !Practice(w.st, req) then Admitted else Finished)
    case Store(i) =>
      var req := w.calls[i].req;
      At(if CheckCommit(w.st, req).None? then w.(st := StoredVote(w.st, req)) else w, i, Finished)
    case Guard(secure, now) => if Finalize(w.st, v, secure, now).1.Ok? then w.(sealing := Guarded) else w
    case CountOptions => w.(sealing := OptionsCounted(Tally(w.st, v).options))
    case CountAbstentions => w.(sealing := AbstentionsCounted(w.sealing.options, Tally(w.st, v).abstentionsCount))
    case CountTotal =>
      w.(sealing := TotalCounted(w.sealing.options, w.sealing.abstentions, Tally(w.st, v).totalBallots))
    case WriteSeal =>
      var sealed := Sealed(w.sealing.options, w.sealing.abstentions, w.sealing.total);
      if v !in w.st.votings then w
      else
        World(w.st.(votings := w.st.votings[v := w.st.votings[v].(isFinalized := true)],
                    results := w.st.results[v := sealed]),
              w.calls, Written)
  }

  predicate Runs(w: World, steps: seq<Step>, v: string)
    decreases |steps|
  {
    steps == [] || (Enabled(w, steps[0]) && Runs(Next(w, steps[0], v), steps[1..], v))
  }

  function RunAll(w: World, steps: seq<Step>, v: string): World
    requires Runs(w, steps, v)
    decreases |steps|
  {
    if steps == [] then w else RunAll(Next(w, steps[0], v), steps[1..], v)
  }

  /** The step stores a vote in v. */
  predicate Stores(w: World, step: Step, v: string) {
    step.Store? && Enabled(w, step) && w.calls[step.i].req.votingId == v && CheckCommit(w.st, w.calls[step.i].req).None?
  }

  /** What the vote adds to has been counted: the abstentions for an abstention, the options for any other. */
  predicate Late(w: World, step: Step, v: string) {
    Stores(w, step, v) &&
    if w.calls[step.i].req.isAbstention then w.sealing.AbstentionsCounted? || w.sealing.TotalCounted? || w.sealing.Written?
    else !w.sealing.Unguarded? && !w.sealing.Guarded?
  }

  predicate OnTime(w: World, steps: seq<Step>, v: string)
    requires Runs(w, steps, v)
    decreases |steps|
  {
    steps == [] || (!Late(w, steps[0], v) && OnTime(Next(w, steps[0], v), steps[1..], v))
  }

  // ---- what a stored vote does to the live tally ----

  /** What the guards have established of an admitted vote, and no later step undoes. */
  predicate Fitting(st: State, req: Request) {
    && (forall k | 0 <= k < |req.optionIds| :: IsOptionOf(st.options, req.votingId, req.optionIds[k]))
    && (req.isAbstention <==> req.optionIds == [] && req.other == "")
  }

  lemma AdmittedFits(st: State, req: Request, now: int)
    requires CheckVote(st, req, now).None?
    ensures Fitting(st, req)
  {
  }

  lemma FittingStays(st: State, req: Request, other: Request)
    requires Fitting(st, req)
    ensures Fitting(StoredVote(st, other), req)
  {
    forall k | 0 <= k < |req.optionIds|
      ensures IsOptionOf(StoredVote(st, other).options, req.votingId, req.optionIds[k])
    {
      OptionStays(st.options, [OptionRow(other.newOptionId, other.votingId, other.other, true)],
                  req.votingId, req.optionIds[k]);
    }
  }

  lemma OtherListed(st: State, req: Request)
    requires req.other != ""
    ensures IsOptionOf(StoredVote(st, req).options, req.votingId, OtherId(st, req))
  {
    FoundDynamic(st.options, req.votingId, req.other);
    if CreatesOption(st, req) {
      assert StoredVote(st, req).options[|st.options|].id == req.newOptionId;
    }
  }

  lemma StoredBallots(st: State, req: Request)
    requires Fitting(st, req)
    ensures var added := NewBallots(st, req);
      && added != []
      && forall k | 0 <= k < |added| ::
           added[k].votingId == req.votingId && added[k].isAbstention == req.isAbstention
           && WellFormed(StoredVote(st, req).options, added[k])
  {
    var v, options := req.votingId, StoredVote(st, req).options;
    FittingStays(st, req, req);
    if req.other != "" {
      OtherListed(st, req);
    }
    var chosen := OptionBallots(v, req.optionIds, req.signature);
    forall k | 0 <= k < |chosen| ensures WellFormed(options, chosen[k]) {
      assert IsOptionOf(options, v, req.optionIds[k]);
    }
  }

  lemma StoreKeepsReferences(st: State, req: Request)
    requires References(st) && Fitting(st, req) && CheckCommit(st, req).None?
    ensures References(StoredVote(st, req))
  {
    var st', added := StoredVote(st, req), NewBallots(st, req);
    StoredBallots(st, req);
    forall k | 0 <= k < |st'.ballots| ensures WellFormed(st'.options, st'.ballots[k]) {
      if k < |st.ballots| {
        assert WellFormed(st.options, st.ballots[k]);
        MoreOptions(st.options, [OptionRow(req.newOptionId, req.votingId, req.other, true)], st.ballots[k]);
      } else {
        assert st'.ballots[k] == added[k - |st.ballots|];
      }
    }
  }

  lemma StoreElsewhere(st: State, req: Request, v: string)
    requires References(st) && Fitting(st, req) && CheckCommit(st, req).None? && req.votingId != v
    ensures Tally(StoredVote(st, req), v) == Tally(st, v)
  {
    var st' := StoredVote(st, req);
    StoreKeepsReferences(st, req);
    StoredBallots(st, req);
    var extra := if CreatesOption(st, req) then [OptionRow(req.newOptionId, req.votingId, req.other, true)] else [];
    assert st'.options == st.options + extra;
    AdditionsElsewhere(st, st', v, extra, NewBallots(st, req));
    UndisturbedResults(st, st', v, true, true);
  }

  /** An abstention raises the abstentions and the total; the options stay as they were. */
  lemma StoreAbstention(st: State, req: Request)
    requires Fitting(st, req) && req.isAbstention
    ensures var t, t' := Tally(st, req.votingId), Tally(StoredVote(st, req), req.votingId);
      t'.options == t.options && t'.abstentionsCount == t.abstentionsCount + 1 && t'.totalBallots == t.totalBallots + 1
  {
    var v, st' := req.votingId, StoredVote(st, req);
    var b := Ballot(v, None, true, Receipt(v, "abstention", req.signature));
    assert NewBallots(st, req) == [b];
    CountOne(st.ballots, b, AbstainedIn(v));
    CountOne(st.ballots, b, InVoting(v));
    var rows := OptionsOf(st.options, v);
    forall k | 0 <= k < |rows| ensures Counts(rows, st'.ballots)[k] == Counts(rows, st.ballots)[k] {
      CountOne(st.ballots, b, ForOption(rows[k].id));
    }
  }

  /** Any other vote raises the sum of the options and leaves the abstentions as they were. */
  lemma StoreChoices(st: State, req: Request)
    requires References(st) && Fitting(st, req) && CheckCommit(st, req).None? && !req.isAbstention
    ensures var t, t' := Tally(st, req.votingId), Tally(StoredVote(st, req), req.votingId);
      Total(t'.options) > Total(t.options) && t'.abstentionsCount == t.abstentionsCount
  {
    var v, added := req.votingId, NewBallots(st, req);
    StoreKeepsReferences(st, req);
    StoredBallots(st, req);
    BallotsAreConserved(st, v);
    BallotsAreConserved(StoredVote(st, req), v);
    CountConcat(st.ballots, added, InVoting(v));
    CountConcat(st.ballots, added, AbstainedIn(v));
    CountAll(added, InVoting(v));
    CountNone(added, AbstainedIn(v));
  }

  // ---- what has been counted against the live tally ----

  /** What finalising has counted is live, or, once a vote has come late, falls short somewhere. */
  predicate OptionsTrack(live: Sealed, options: seq<OptionCount>, late: bool) {
    if late then Total(options) < Total(live.options) else options == live.options
  }

  predicate Tracks(live: Sealed, counted: Sealed, late: bool) {
    if late then
      && Total(counted.options) <= Total(live.options) && counted.abstentionsCount <= live.abstentionsCount
      && (Total(counted.options) < Total(live.options) || counted.abstentionsCount < live.abstentionsCount)
    else counted.options == live.options && counted.abstentionsCount == live.abstentionsCount
  }

  predicate Follows(w: World, v: string, late: bool) {
    var live := Tally(w.st, v);
    match w.sealing
    case OptionsCounted(options) => OptionsTrack(live, options, late)
    case AbstentionsCounted(options, abstentions) => Tracks(live, Sealed(options, abstentions, 0), late)
    case TotalCounted(options, abstentions, total) =>
      Tracks(live, Sealed(options, abstentions, total), late) && (!late ==> total == live.totalBallots)
    case Written =>
      && v in w.st.results && Tracks(live, w.st.results[v], late)
      && (!late ==> w.st.results[v].totalBallots == live.totalBallots)
    case _ => !late
  }

  ghost predicate Holds(w: World, v: string, late: bool) {
    && References(w.st) && Follows(w, v, late)
    && forall i | 0 <= i < |w.calls| && w.calls[i].phase.Admitted? :: Fitting(w.st, w.calls[i].req)
  }

  lemma StoreFollows(w: World, i: nat, v: string, late: bool)
    requires Holds(w, v, late) && Enabled(w, Store(i)) && CheckCommit(w.st, w.calls[i].req).None?
    ensures Follows(Next(w, Store(i), v), v, late || Late(w, Store(i), v))
  {
    var req := w.calls[i].req;
    if req.votingId != v {
      StoreElsewhere(w.st, req, v);
    } else if req.isAbstention {
      StoreAbstention(w.st, req);
    } else {
      StoreChoices(w.st, req);
    }
  }

  lemma SealingFollows(w: World, step: Step, v: string, late: bool)
    requires Holds(w, v, late) && Enabled(w, step) && !step.Admit? && !step.Store?
    ensures Holds(Next(w, step, v), v, late)
  {
  }

  lemma StepHolds(w: World, step: Step, v: string, late: bool)
    requires Holds(w, v, late) && Enabled(w, step)
    ensures Holds(Next(w, step, v), v, late || Late(w, step, v))
  {
    match step
    case Admit(i, now) =>
      if CheckVote(w.st, w.calls[i].req, now).None? {
        AdmittedFits(w.st, w.calls[i].req, now);
      }
    case Store(i) =>
      var req := w.calls[i].req;
      if CheckCommit(w.st, req).None? {
        StoreFollows(w, i, v, late);
        StoreKeepsReferences(w.st, req);
        forall j | 0 <= j < |w.calls| && w.calls[j].phase.Admitted? ensures Fitting(StoredVote(w.st, req), w.calls[j].req) {
          FittingStays(w.st, w.calls[j].req, req);
        }
      }
    case _ =>
      SealingFollows(w, step, v, late);
  }

  lemma {:induction false} RunHolds(w: World, steps: seq<Step>, v: string, late: bool)
    requires Holds(w, v, late) && Runs(w, steps, v)
    ensures Holds(RunAll(w, steps, v), v, late || !OnTime(w, steps, v))
    decreases |steps|
  {
    if steps != [] {
      StepHolds(w, steps[0], v, late);
      RunHolds(Next(w, steps[0], v), steps[1..], v, late || Late(w, steps[0], v));
    }
  }

  ghost predicate Initial(w: World) {
    References(w.st) && w.sealing.Unguarded? && forall i | 0 <= i < |w.calls| :: w.calls[i].phase.Arrived?
  }

  /**
   * Over all interleavings of votes in any votings with the finalising of v, before and after the
   * seal is written: the sealed tally is the live one exactly when no vote in v was stored after
   * what it adds to had been counted.
   */
  lemma SealIsLiveIff(w: World, steps: seq<Step>, v: string)
    requires Initial(w) && Runs(w, steps, v) && RunAll(w, steps, v).sealing.Written?
    ensures var st := RunAll(w, steps, v).st;
      v in st.results && (st.results[v] == Tally(st, v) <==> OnTime(w, steps, v))
  {
    RunHolds(w, steps, v, false);
  }

  // ---- the failing run ----

  const SEAL: seq<Step> := [CountOptions, CountAbstentions, CountTotal, WriteSeal]

  lemma Prepend(w: World, step: Step, rest: seq<Step>, v: string)
    requires Enabled(w, step) && Runs(Next(w, step, v), rest, v)
    ensures Runs(w, [step] + rest, v) && RunAll(w, [step] + rest, v) == RunAll(Next(w, step, v), rest, v)
    ensures OnTime(w, [step] + rest, v) <==> !Late(w, step, v) && OnTime(Next(w, step, v), rest, v)
  {
    assert ([step] + rest)[1..] == rest;
  }

  lemma SameTables(a: State, b: State, req: Request, v: string)
    requires a.options == b.options && a.ballots == b.ballots
    ensures CheckCommit(a, req) == CheckCommit(b, req) && Tally(a, v) == Tally(b, v)
    ensures References(a) == References(b) && Fitting(a, req) == Fitting(b, req)
  {
  }

  /** Counting and writing the seal, with no vote stored in between, seals the live tally. */
  function AfterSeal(w: World, v: string): World
    requires v in w.st.votings
  {
    World(w.st.(votings := w.st.votings[v := w.st.votings[v].(isFinalized := true)],
                results := w.st.results[v := Tally(w.st, v)]),
          w.calls, Written)
  }

  lemma SealRuns(w: World, rest: seq<Step>, v: string)
    requires v in w.st.votings && w.sealing.Guarded? && Runs(AfterSeal(w, v), rest, v)
    ensures Runs(w, SEAL + rest, v) && RunAll(w, SEAL + rest, v) == RunAll(AfterSeal(w, v), rest, v)
  {
    var w1 := Next(w, CountOptions, v);
    var w2 := Next(w1, CountAbstentions, v);
    var w3 := Next(w2, CountTotal, v);
    assert Next(w3, WriteSeal, v) == AfterSeal(w, v);
    Prepend(w3, WriteSeal, rest, v);
    Prepend(w2, CountTotal, [WriteSeal] + rest, v);
    Prepend(w1, CountAbstentions, [CountTotal] + ([WriteSeal] + rest), v);
    Prepend(w, CountOptions, [CountAbstentions] + ([CountTotal] + ([WriteSeal] + rest)), v);
    assert SEAL + rest == [CountOptions] + ([CountAbstentions] + ([CountTotal] + ([WriteSeal] + rest)));
  }

  lemma OneStep(w: World, step: Step, v: string)
    requires Enabled(w, step)
    ensures Runs(w, [step], v) && RunAll(w, [step], v) == Next(w, step, v)
  {
    assert [step][1..] == [];
    assert RunAll(Next(w, step, v), [], v) == Next(w, step, v);
  }

  /**
   * Whenever finalising has passed its guards while an admitted vote that can be stored is still to
   * come, the seal can be written first, and is then not the live tally once the vote is stored.
   */
  lemma AdmittedVoteOutlivesSeal(w: World, i: nat, v: string)
    requires References(w.st) && v in w.st.votings && w.sealing.Guarded?
    requires i < |w.calls| && w.calls[i].phase.Admitted? && w.calls[i].req.votingId == v
    requires Fitting(w.st, w.calls[i].req) && CheckCommit(w.st, w.calls[i].req).None?
    ensures Runs(w, SEAL + [Store(i)], v)
    ensures var st := RunAll(w, SEAL + [Store(i)], v).st;
      v in st.results && v in st.votings && st.votings[v].isFinalized && st.results[v] != Tally(st, v)
  {
    var sealed, req := AfterSeal(w, v), w.calls[i].req;
    SameTables(w.st, sealed.st, req, v);
    OneStep(sealed, Store(i), v);
    SealRuns(w, [Store(i)], v);
    if req.isAbstention {
      StoreAbstention(sealed.st, req);
    } else {
      StoreChoices(sealed.st, req);
    }
  }

  /** So from the start: any vote that would be accepted, admitted before the guards, can come after the seal. */
  lemma AcceptedVoteOutlivesSeal(w: World, i: nat, now: int, later: int, v: string)
    requires Initial(w) && i < |w.calls| && w.calls[i].req.votingId == v
    requires Vote(w.st, w.calls[i].req, now).1 == Ok(false) && Finalize(w.st, v, true, later).1.Ok?
    ensures var steps := [Admit(i, now)] + ([Guard(true, later)] + (SEAL + [Store(i)]));
      && Runs(w, steps, v)
      && var st := RunAll(w, steps, v).st;
         v in st.results && st.results[v] != Tally(st, v)
  {
    var w1 := Next(w, Admit(i, now), v);
    var w2 := Next(w1, Guard(true, later), v);
    AdmittedFits(w.st, w.calls[i].req, now);
    AdmittedVoteOutlivesSeal(w2, i, v);
    Prepend(w1, Guard(true, later), SEAL + [Store(i)], v);
    Prepend(w, Admit(i, now), [Guard(true, later)] + (SEAL + [Store(i)]), v);
  }
}
