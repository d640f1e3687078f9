/**
 * What a read of the results shows and writes, in every reachable state: the rows of the voting
 * with the number of ballots that name them, whether it has closed, and when the snapshot is used.
 */
module VotingReads {
  import opened Base
  import opened Counting
  import opened VotingStore
  import opened VotingTallies
  import opened VotingInvariants
  import opened VotingGuarantees

  // ---- the rows of one kind ----

  /** The positions, in order, of the voting's rows that were created with it or by Other answers. */
  predicate Positions(options: seq<OptionRow>, v: string, dynamic: bool, at: seq<nat>) {
    && (forall i, j | 0 <= i < j < |at| :: at[i] < at[j])
    && (forall k | 0 <= k < |at| ::
          at[k] < |options| && options[at[k]].votingId == v && options[at[k]].isDynamic == dynamic)
    && (forall i | 0 <= i < |options| && options[i].votingId == v && options[i].isDynamic == dynamic :: i in at)
  }

  /** One line for each such row: its id and how many ballots name it. */
  predicate ListsAt(options: seq<OptionRow>, ballots: seq<Ballot>, lines: seq<OptionCount>, at: seq<nat>) {
    && |lines| == |at| && (forall k | 0 <= k < |at| :: at[k] < |options|)
    && forall k | 0 <= k < |at| ::
         lines[k].id == options[at[k]].id
         && lines[k].voteCount == Count(ballots, (b: Ballot) => b.optionId == Some(options[at[k]].id))
  }

  ghost predicate Lists(st: State, v: string, dynamic: bool, lines: seq<OptionCount>) {
    exists at: seq<nat> :: Positions(st.options, v, dynamic, at) && ListsAt(st.options, st.ballots, lines, at)
  }

  function Sum(lines: seq<OptionCount>): nat {
    if lines == [] then 0 else Sum(lines[..|lines| - 1]) + lines[|lines| - 1].voteCount
  }

  lemma KindOfStep(first: OptionRow, rest: seq<OptionRow>, dynamic: bool)
    ensures Kind([first] + rest, dynamic) == (if first.isDynamic == dynamic then [first] else []) + Kind(rest, dynamic)
  {
    assert ([first] + rest)[1..] == rest;
  }

  lemma {:induction false} KindOfConcat(a: seq<OptionRow>, b: seq<OptionRow>, dynamic: bool)
    ensures Kind(a + b, dynamic) == Kind(a, dynamic) + Kind(b, dynamic)
  {
    if a == [] {
      assert a + b == b;
    } else {
      var first, rest := a[0], a[1..];
      KindOfConcat(rest, b, dynamic);
      KindOfStep(first, rest, dynamic);
      KindOfStep(first, rest + b, dynamic);
      assert a == [first] + rest && a + b == [first] + (rest + b);
    }
  }

  lemma PositionsExtend(front: seq<OptionRow>, x: OptionRow, v: string, dynamic: bool, at: seq<nat>)
    requires Positions(front, v, dynamic, at)
    ensures Positions(front + [x], v, dynamic, if x.votingId == v && x.isDynamic == dynamic then at + [|front|] else at)
  {
    var next := if x.votingId == v && x.isDynamic == dynamic then at + [|front|] else at;
    forall i | 0 <= i < |front + [x]| && (front + [x])[i].votingId == v && (front + [x])[i].isDynamic == dynamic
      ensures i in next
    {
      if i < |front| {
        assert front[i] == (front + [x])[i] && i in at;
      } else {
        assert next[|at|] == i;
      }
    }
  }

  /** Filtering by voting and then by kind leaves the rows at such positions. */
  lemma {:induction false} KindIsAtPositions(options: seq<OptionRow>, v: string, dynamic: bool) returns (at: seq<nat>)
    ensures Positions(options, v, dynamic, at)
    ensures var rows := Kind(OptionsOf(options, v), dynamic);
      |rows| == |at| && forall k | 0 <= k < |at| :: rows[k] == options[at[k]]
    decreases |options|
  {
    at := [];
    if options != [] {
      var last := |options| - 1;
      var front, x := options[..last], options[last];
      at := KindIsAtPositions(front, v, dynamic);
      assert options == front + [x];
      OptionsOfConcat(front, [x], v);
      KindOfConcat(OptionsOf(front, v), OptionsOf([x], v), dynamic);
      assert OptionsOf([x], v) == if x.votingId == v then [x] else [];
      assert Kind([x], dynamic) == if x.isDynamic == dynamic then [x] else [];
      PositionsExtend(front, x, v, dynamic, at);
      if x.votingId == v && x.isDynamic == dynamic {
        at := at + [last];
      }
    }
  }

  lemma {:induction false} SumAfter(line: OptionCount, rest: seq<OptionCount>)
    ensures Sum([line] + rest) == line.voteCount + Sum(rest)
  {
    if rest == [] {
      assert [line] + rest == [line];
      assert [line][..0] == [];
    } else {
      var n := |rest| - 1;
      SumAfter(line, rest[..n]);
      assert ([line] + rest)[..n + 1] == [line] + rest[..n];
    }
  }

  lemma {:induction false} TotalIsSum(lines: seq<OptionCount>)
    ensures Total(lines) == Sum(lines)
  {
    if lines != [] {
      TotalIsSum(lines[1..]);
      SumAfter(lines[0], lines[1..]);
      assert lines == [lines[0]] + lines[1..];
    }
  }

  lemma {:induction false} SameCount(ballots: seq<Ballot>, p: Ballot -> bool, q: Ballot -> bool)
    requires forall b: Ballot :: p(b) == q(b)
    ensures Count(ballots, p) == Count(ballots, q)
  {
    if ballots != [] {
      SameCount(ballots[..|ballots| - 1], p, q);
    }
  }

  lemma CountsList(st: State, v: string, dynamic: bool)
    ensures Lists(st, v, dynamic, Counts(Kind(OptionsOf(st.options, v), dynamic), st.ballots))
  {
    var lines := Counts(Kind(OptionsOf(st.options, v), dynamic), st.ballots);
    var at := KindIsAtPositions(st.options, v, dynamic);
    forall k | 0 <= k < |at|
      ensures lines[k].voteCount == Count(st.ballots, (b: Ballot) => b.optionId == Some(st.options[at[k]].id))
    {
      SameCount(st.ballots, ForOption(st.options[at[k]].id), (b: Ballot) => b.optionId == Some(st.options[at[k]].id));
    }
    assert ListsAt(st.options, st.ballots, lines, at);
  }

  // ---- what a read shows ----

  /** The results hold the voting's rows, its abstentions, and the number of its ballots as the total. */
  ghost predicate Shows(st: State, v: string, r: Results) {
    && Lists(st, v, false, r.options)
    && r.abstentionsCount == Count(st.ballots, (b: Ballot) => b.votingId == v && b.isAbstention)
    && r.totalBallots == Count(st.ballots, (b: Ballot) => b.votingId == v)
    && (r.otherTotal.Some? <==> r.dynamicOptions.Some?)
    && (r.otherTotal.Some? ==>
          Lists(st, v, true, r.dynamicOptions.value) && r.otherTotal.value == Sum(r.dynamicOptions.value))
  }

  lemma RecountShows(st: State, v: string, allowOther: bool, isClosed: bool)
    requires References(st)
    ensures Shows(st, v, Recount(st, v, allowOther, isClosed))
    ensures Recount(st, v, allowOther, isClosed).otherTotal.Some? == allowOther
    ensures Recount(st, v, allowOther, isClosed).isClosed == isClosed
  {
    CountsList(st, v, false);
    CountsList(st, v, true);
    TotalIsSum(Counts(Kind(OptionsOf(st.options, v), true), st.ballots));
    TotalsAgree(st, v, allowOther, isClosed);
    SameCount(st.ballots, InVoting(v), (b: Ballot) => b.votingId == v);
    SameCount(st.ballots, AbstainedIn(v), (b: Ballot) => b.votingId == v && b.isAbstention);
  }

  /** Nothing is cached of a voting that has closed. */
  predicate OpenSnapshots(st: State) {
    forall v | v in st.snapshots :: !st.snapshots[v].results.isClosed
  }

  lemma ReadKeepsOpen(st: State, v: string, forceFresh: bool, now: int)
    requires OpenSnapshots(st)
    ensures OpenSnapshots(GetResults(st, v, forceFresh, now).0)
  {
  }

  lemma UpdateKeepsOpen(st: State, v: string, edit: Edit, permitted: bool, now: int)
    requires OpenSnapshots(st)
    ensures OpenSnapshots(Update(st, v, edit, permitted, now).0)
  {
    if FindVoting(st, v).Some? {
      ReadKeepsOpen(st.(votings := st.votings[v := Edited(FindVoting(st, v).value, edit)]), v, false, now);
    }
  }

  lemma UpdateOptionKeepsOpen(st: State, v: string, optionId: string, text: string, permitted: bool, now: int)
    requires OpenSnapshots(st)
    ensures OpenSnapshots(UpdateOption(st, v, optionId, text, permitted, now).0)
  {
    ReadKeepsOpen(st.(options := Retext(st.options, optionId, text)), v, false, now);
  }

  lemma StepKeepsOpen(st: State, step: Step)
    requires OpenSnapshots(st)
    ensures OpenSnapshots(Apply(st, step))
  {
    match step
    case Reading(v, forceFresh, now) => ReadKeepsOpen(st, v, forceFresh, now);
    case Updating(v, edit, permitted, now) => UpdateKeepsOpen(st, v, edit, permitted, now);
    case UpdatingOption(v, id, text, permitted, now) => UpdateOptionKeepsOpen(st, v, id, text, permitted, now);
    case _ =>
  }

  lemma {:induction false} RunKeepsOpen(st: State, steps: seq<Step>)
    requires OpenSnapshots(st)
    ensures OpenSnapshots(Run(st, steps))
    decreases |steps|
  {
    if steps != [] {
      StepKeepsOpen(st, steps[0]);
      RunKeepsOpen(Apply(st, steps[0]), steps[1..]);
    }
  }

  // ---- every read ----

  predicate Exists(st: State, v: string) {
    v in st.votings && !st.votings[v].isDeleted
  }

  predicate Closed(voting: VotingRow, now: int) {
    voting.endAt.Some? && voting.endAt.value < now
  }

  /** The next broadcast is not due: since the last one, or the creation, the interval of hours has not passed. */
  predicate BetweenBroadcasts(voting: VotingRow, now: int) {
    now - (if voting.lastBroadcastAt.Some? then voting.lastBroadcastAt.value else voting.createdAt)
      < voting.broadcastInterval * 3600000
  }

  /** The read is answered from the snapshot. */
  predicate FromSnapshot(st: State, v: string, forceFresh: bool, now: int)
    requires Exists(st, v)
  {
    && !st.votings[v].isFinalized && !Closed(st.votings[v], now) && !forceFresh
    && BetweenBroadcasts(st.votings[v], now) && v in st.snapshots && now < st.snapshots[v].expiresAt
  }

  lemma ReadFlags(st: State, v: string, forceFresh: bool, now: int)
    requires AllSealed(st) && OpenSnapshots(st) && Exists(st, v)
    ensures var outcome := GetResults(st, v, forceFresh, now).1;
      && outcome.Ok? && (outcome.value.isClosed <==> Closed(st.votings[v], now))
      && (if FromSnapshot(st, v, forceFresh, now) then outcome.value == st.snapshots[v].results
          else outcome.value.otherTotal.Some? <==> st.votings[v].allowOther)
  {
  }

  lemma MissingIsNotFound(st: State, v: string, forceFresh: bool, now: int)
    requires !Exists(st, v)
    ensures GetResults(st, v, forceFresh, now).1 == Err(NotFound)
  {
  }

  /**
   * In every reachable state a read succeeds exactly on an existing voting and shows the live
   * numbers; the voting is shown as closed exactly when its end has passed, and the Other answers
   * exactly when it allows them, unless the read is answered from the snapshot, which it then is.
   */
  lemma ReadShows(steps: seq<Step>, v: string, forceFresh: bool, now: int)
    ensures var st := FromEmpty(steps);
      var outcome := GetResults(st, v, forceFresh, now).1;
      && (outcome.Ok? <==> Exists(st, v)) && (outcome.Err? ==> outcome.error == NotFound)
      && (outcome.Ok? ==>
            && Shows(st, v, outcome.value)
            && (outcome.value.isClosed <==> Closed(st.votings[v], now))
            && (if FromSnapshot(st, v, forceFresh, now) then outcome.value == st.snapshots[v].results
                else outcome.value.otherTotal.Some? <==> st.votings[v].allowOther))
  {
    var st := FromEmpty(steps);
    ReachableHolds(steps);
    assert OpenSnapshots(EMPTY);
    RunKeepsOpen(EMPTY, steps);
    if Exists(st, v) {
      ReadFlags(st, v, forceFresh, now);
      EveryReadIsLive(steps, v, forceFresh, now);
      var r := GetResults(st, v, forceFresh, now).1.value;
      RecountShows(st, v, r.otherTotal.Some?, r.isClosed);
    } else {
      MissingIsNotFound(st, v, forceFresh, now);
    }
  }

  /** The read finds the voting open and counts its ballots. */
  predicate Recounts(st: State, v: string, forceFresh: bool, now: int) {
    && Exists(st, v) && !st.votings[v].isFinalized && !Closed(st.votings[v], now)
    && !FromSnapshot(st, v, forceFresh, now)
  }

  /** It is a broadcast that is due. */
  predicate Broadcasts(st: State, v: string, forceFresh: bool, now: int) {
    && Exists(st, v) && !st.votings[v].isFinalized && !Closed(st.votings[v], now)
    && !forceFresh && !BetweenBroadcasts(st.votings[v], now)
  }

  lemma ReadCaches(st: State, v: string, forceFresh: bool, now: int)
    requires AllSealed(st)
    ensures var (st', outcome) := GetResults(st, v, forceFresh, now);
      if Recounts(st, v, forceFresh, now) then
        outcome.Ok? && st'.snapshots == st.snapshots[v := Snapshot(outcome.value, now + 2 * 3600000)]
      else st'.snapshots == st.snapshots
  {
  }

  lemma ReadMarks(st: State, v: string, forceFresh: bool, now: int)
    requires AllSealed(st)
    ensures GetResults(st, v, forceFresh, now).0.votings ==
              if Broadcasts(st, v, forceFresh, now) then st.votings[v := st.votings[v].(lastBroadcastAt := Some(now))]
              else st.votings
  {
  }

  /**
   * What the read writes: the results for two hours when it recounted an open voting, and the time
   * of the broadcast when it was one that is due. Nothing else.
   */
  lemma ReadWrites(steps: seq<Step>, v: string, forceFresh: bool, now: int)
    ensures var st := FromEmpty(steps);
      var (st', outcome) := GetResults(st, v, forceFresh, now);
      && (Recounts(st, v, forceFresh, now) ==> outcome.Ok?)
      && st' == st.(snapshots := if Recounts(st, v, forceFresh, now)
                                 then st.snapshots[v := Snapshot(outcome.value, now + 2 * 3600000)] else st.snapshots,
                    votings := if Broadcasts(st, v, forceFresh, now)
                               then st.votings[v := st.votings[v].(lastBroadcastAt := Some(now))] else st.votings)
  {
    ReachableHolds(steps);
    ReadingFrame(FromEmpty(steps), v, forceFresh, now);
    ReadCaches(FromEmpty(steps), v, forceFresh, now);
    ReadMarks(FromEmpty(steps), v, forceFresh, now);
  }

  /** A move of the broadcast time is the step's own, and comes no sooner than the interval allows. */
  predicate MovesInTime(before: Option<int>, after: VotingRow, now: int) {
    after.lastBroadcastAt != before ==>
      after.lastBroadcastAt == Some(now) && !BetweenBroadcasts(after.(lastBroadcastAt := before), now)
  }

  lemma ReadMovesInTime(st: State, w: string, forceFresh: bool, now: int, v: string)
    requires AllSealed(st) && v in st.votings
    ensures var st' := GetResults(st, w, forceFresh, now).0;
      && v in st'.votings && MovesInTime(st.votings[v].lastBroadcastAt, st'.votings[v], now)
      && (st'.votings[v].lastBroadcastAt != st.votings[v].lastBroadcastAt ==> w == v)
  {
    ReadMarks(st, w, forceFresh, now);
  }

  lemma UpdateMovesInTime(st: State, w: string, edit: Edit, permitted: bool, now: int, v: string)
    requires Invariant(st) && v in st.votings
    ensures var st' := Update(st, w, edit, permitted, now).0;
      && v in st'.votings && MovesInTime(st.votings[v].lastBroadcastAt, st'.votings[v], now)
      && (st'.votings[v].lastBroadcastAt != st.votings[v].lastBroadcastAt ==> w == v)
  {
    var found := FindVoting(st, w);
    if found.Some? && !found.value.isFinalized {
      RowChangeKeeps(st, w, Edited(found.value, edit));
      ReadMovesInTime(st.(votings := st.votings[w := Edited(found.value, edit)]), w, false, now, v);
    }
  }

  lemma UpdateOptionMovesInTime(st: State, w: string, id: string, text: string, permitted: bool, now: int, v: string)
    requires Invariant(st) && v in st.votings
    ensures var st' := UpdateOption(st, w, id, text, permitted, now).0;
      && v in st'.votings && MovesInTime(st.votings[v].lastBroadcastAt, st'.votings[v], now)
      && (st'.votings[v].lastBroadcastAt != st.votings[v].lastBroadcastAt ==> w == v)
  {
    RetextKeeps(st, id, text);
    ReadMovesInTime(st.(options := Retext(st.options, id, text)), w, false, now, v);
  }

  lemma OtherStepsKeepMark(st: State, step: Step, v: string)
    requires v in st.votings && !step.Reading? && !step.Updating? && !step.UpdatingOption?
    ensures v in Apply(st, step).votings && Apply(st, step).votings[v].lastBroadcastAt == st.votings[v].lastBroadcastAt
  {
  }

  /** The time of the last broadcast moves only when the interval has passed since the one before. */
  lemma BroadcastsKeepInterval(steps: seq<Step>, step: Step, v: string)
    requires v in FromEmpty(steps).votings
    ensures var st, st' := FromEmpty(steps), Apply(FromEmpty(steps), step);
      && v in st'.votings
      && (st'.votings[v].lastBroadcastAt != st.votings[v].lastBroadcastAt ==>
            && (step.Reading? || step.Updating? || step.UpdatingOption?) && step.v == v
            && MovesInTime(st.votings[v].lastBroadcastAt, st'.votings[v], step.now))
  {
    var st := FromEmpty(steps);
    ReachableHolds(steps);
    match step
    case Reading(w, forceFresh, now) => ReadMovesInTime(st, w, forceFresh, now, v);
    case Updating(w, edit, permitted, now) => UpdateMovesInTime(st, w, edit, permitted, now, v);
    case UpdatingOption(w, id, text, permitted, now) => UpdateOptionMovesInTime(st, w, id, text, permitted, now, v);
    case _ => OtherStepsKeepMark(st, step, v);
  }
}
