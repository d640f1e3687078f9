/**
 * The other calls of the voting service: when issuing a token, creating, updating and deleting a
 * voting and changing an option's text succeed, and exactly what they change.
 */
module VotingEdits {
  import opened Base
  import opened Counting
  import opened VotingStore
  import opened VotingTallies
  import opened VotingInvariants
  import opened VotingGuarantees
  import opened VotingReads
  import opened SharedTokens

  // ---- issuing a token ----

  /**
   * A token is issued exactly for an existing voting, under a hash not in use, to a user who has
   * not participated yet unless it is for practice. It is good for an hour; the participation is
   * noted unless it is for practice. The signing key is made even if the token is then refused.
   */
  lemma SignIff(st: State, v: string, userId: string, tokenHash: string, isPractice: bool, now: int)
    ensures var (st', outcome) := Sign(st, v, userId, tokenHash, isPractice, now);
      var may := Exists(st, v) && (isPractice || Participation(userId, v) !in st.participations);
      && (outcome.Ok? <==> may && tokenHash !in st.pending)
      && (outcome.Ok? ==>
            && st'.pending == st.pending[tokenHash := Pending(userId, Some(v), None, isPractice, now + 60 * 60 * 1000)]
            && st'.participations == (if isPractice then st.participations
                                      else st.participations + {Participation(userId, v)}))
      && (outcome.Err? ==> st'.pending == st.pending && st'.participations == st.participations)
      && st' == st.(keys := if may then st.keys + {v} else st.keys, pending := st'.pending,
                    participations := st'.participations)
  {
  }

  /** A survey issues its tokens into the same table, naming no voting. */
  lemma SurveySignIff(st: State, s: string, userId: string, tokenHash: string, isPractice: bool, now: int)
    ensures SurveySign(st, s, userId, tokenHash, isPractice, now) ==
              if tokenHash in st.pending then st
              else st.(pending := st.pending[tokenHash := Pending(userId, None, Some(s), isPractice, now + 60 * 60 * 1000)])
  {
  }

  // ---- creating ----

  /** Both bounds are given, neither is 0, and the lower one is above the upper. */
  predicate Crossed(minChoices: Option<int>, maxChoices: Option<int>) {
    minChoices.Some? && maxChoices.Some? && minChoices.value != 0 && maxChoices.value != 0
    && maxChoices.value < minChoices.value
  }

  /** The new options' ids are neither repeated nor in use. */
  predicate FreeIds(options: seq<OptionRow>, drafts: seq<Draft>) {
    && (forall i, j | 0 <= i < j < |drafts| :: drafts[i].id != drafts[j].id)
    && (forall i, k | 0 <= i < |drafts| && 0 <= k < |options| :: drafts[i].id != options[k].id)
  }

  lemma FreeIdsIff(options: seq<OptionRow>, v: string, drafts: seq<Draft>)
    requires DistinctIds(options)
    ensures DistinctIds(options + NewRows(v, drafts)) <==> FreeIds(options, drafts)
  {
    var all, rows := options + NewRows(v, drafts), NewRows(v, drafts);
    if DistinctIds(all) {
      forall i, j | 0 <= i < j < |drafts| ensures drafts[i].id != drafts[j].id {
        assert all[|options| + i] == rows[i] && all[|options| + j] == rows[j];
      }
      forall i, k | 0 <= i < |drafts| && 0 <= k < |options| ensures drafts[i].id != options[k].id {
        assert all[|options| + i] == rows[i] && all[k] == options[k];
      }
    }
  }

  /**
   * A voting is created exactly when it is permitted, has two options or more, its bounds do not
   * cross and nothing of it is there yet. It starts open, with its options in order, none dynamic.
   */
  lemma CreateIff(st: State, v: string, row: VotingRow, minChoices: Option<int>, drafts: seq<Draft>, permitted: bool)
    requires DistinctIds(st.options)
    ensures var (st', outcome) := Create(st, v, row, minChoices, drafts, permitted);
      && (outcome.Ok? <==>
            && permitted && |drafts| >= 2 && !(row.multipleChoice && Crossed(minChoices, row.maxChoices))
            && v !in st.votings && FreeIds(st.options, drafts))
      && (outcome.Err? ==> st' == st)
      && (outcome.Ok? ==>
            && v in st'.votings && st' == st.(votings := st.votings[v := st'.votings[v]], options := st'.options)
            && var made := st'.votings[v];
            && !made.isFinalized && !made.isDeleted && made.lastBroadcastAt.None?
            && made.minChoices == (if minChoices.Some? then minChoices.value else 1)
            && made == row.(isFinalized := false, isDeleted := false, lastBroadcastAt := None, minChoices := made.minChoices)
            && |st'.options| == |st.options| + |drafts| && st'.options[..|st.options|] == st.options
            && forall i | 0 <= i < |drafts| ::
                 st'.options[|st.options| + i] == OptionRow(drafts[i].id, v, drafts[i].text, false))
  {
    FreeIdsIff(st.options, v, drafts);
  }

  // ---- finalising ----

  /**
   * What finalising writes: the mark and the sealed numbers, which are those of the ballots at that
   * moment; and what each of its refusals says is so.
   */
  lemma FinalizeWrites(st: State, v: string, secure: bool, now: int)
    ensures var (st', outcome) := Finalize(st, v, secure, now);
      match outcome
      case Ok(sealed) =>
        && Exists(st, v)
        && st' == st.(votings := st.votings[v := st.votings[v].(isFinalized := true)], results := st.results[v := sealed])
        && sealed.totalBallots == Count(st.ballots, InVoting(v)) && sealed.abstentionsCount == Count(st.ballots, AbstainedIn(v))
      case Err(NotFound) => st' == st && !Exists(st, v)
      case Err(IsFinalized) => st' == st && Exists(st, v) && st.votings[v].isFinalized
      case Err(NotEnded) => st' == st && Exists(st, v) && st.votings[v].endAt.Some? && now < st.votings[v].endAt.value
      case Err(NotSecure) =>
        && st' == st && Exists(st, v) && !st.votings[v].isFinalized && !secure
        && (st.votings[v].endAt.Some? ==> st.votings[v].endAt.value <= now)
      case Err(IdInUse) => st' == st && secure && v in st.results
      case Err(_) => false
  {
  }

  // ---- updating a voting ----

  /** Each field of the row is the one asked for, or the one it had. */
  predicate EditedAs(before: VotingRow, after: VotingRow, edit: Edit) {
    && after.allowOther == (if edit.allowOther.Some? then edit.allowOther.value else before.allowOther)
    && after.minChoices == (if edit.minChoices.Some? then edit.minChoices.value else before.minChoices)
    && after.maxChoices == (if edit.maxChoices.Some? then edit.maxChoices else before.maxChoices)
    && after.startAt == (if edit.startAt.Some? then edit.startAt else before.startAt)
    && after.endAt == (if edit.endAt.Some? then edit.endAt else before.endAt)
    && after.broadcastInterval
         == (if edit.broadcastInterval.Some? then edit.broadcastInterval.value else before.broadcastInterval)
    && after.multipleChoice == before.multipleChoice && after.createdAt == before.createdAt
    && after.isFinalized == before.isFinalized && after.isDeleted == before.isDeleted
  }

  /** Nothing but the rows of votings, the snapshots and the options' texts is ever edited. */
  predicate OnlyEdits(st: State, st': State, v: string) {
    && st'.ballots == st.ballots && st'.participations == st.participations && st'.pending == st.pending
    && st'.keys == st.keys && st'.totalVotes == st.totalVotes && st'.results == st.results && st'.history == st.history
    && st'.votings.Keys == st.votings.Keys
    && forall w | w in st.votings && w != v :: st'.votings[w] == st.votings[w]
  }

  lemma ReadOnlyEdits(st: State, v: string, forceFresh: bool, now: int)
    requires AllSealed(st)
    ensures var st' := GetResults(st, v, forceFresh, now).0;
      && OnlyEdits(st, st', v) && st'.options == st.options
      && (v in st.votings ==> st'.votings[v].(lastBroadcastAt := None) == st.votings[v].(lastBroadcastAt := None))
  {
    ReadingFrame(st, v, forceFresh, now);
    ReadMarks(st, v, forceFresh, now);
  }

  /** A change to the row of an open voting, and what it leaves to the read that follows. */
  lemma EditedRow(st: State, v: string, edit: Edit)
    requires Invariant(st) && Exists(st, v) && !st.votings[v].isFinalized
    ensures var mid := st.(votings := st.votings[v := Edited(st.votings[v], edit)]);
      Invariant(mid) && Exists(mid, v) && EditedAs(st.votings[v], mid.votings[v], edit) && OnlyEdits(st, mid, v)
  {
    RowChangeKeeps(st, v, Edited(st.votings[v], edit));
  }

  predicate UpdateAllowed(st: State, v: string, edit: Edit, permitted: bool) {
    && Exists(st, v) && permitted && !st.votings[v].isFinalized
    && !((if edit.retyped.Some? then edit.retyped.value else st.votings[v].multipleChoice)
         && Crossed(edit.minChoices, edit.maxChoices))
  }

  lemma UpdateReads(st: State, v: string, edit: Edit, permitted: bool, now: int)
    requires UpdateAllowed(st, v, edit, permitted)
    ensures var mid := st.(votings := st.votings[v := Edited(st.votings[v], edit)]);
      Update(st, v, edit, permitted, now) == GetResults(mid, v, false, now) && GetResults(mid, v, false, now).1.Ok?
  {
  }

  lemma UpdateRefused(st: State, v: string, edit: Edit, permitted: bool, now: int)
    requires !UpdateAllowed(st, v, edit, permitted)
    ensures Update(st, v, edit, permitted, now).1.Err? && Update(st, v, edit, permitted, now).0 == st
  {
  }

  /**
   * An update succeeds exactly on an existing, open voting, permitted, with bounds that do not
   * cross as a multiple choice. It sets the given fields of that voting and leaves all the rest,
   * apart from what reading the results then writes.
   */
  lemma UpdateIff(st: State, v: string, edit: Edit, permitted: bool, now: int)
    requires Invariant(st)
    ensures var (st', outcome) := Update(st, v, edit, permitted, now);
      && (outcome.Ok? <==> UpdateAllowed(st, v, edit, permitted))
      && (outcome.Err? ==> st' == st)
      && (outcome.Ok? ==>
            && OnlyEdits(st, st', v) && st'.options == st.options && EditedAs(st.votings[v], st'.votings[v], edit)
            && (st'.votings[v].lastBroadcastAt != st.votings[v].lastBroadcastAt ==>
                  st'.votings[v].lastBroadcastAt == Some(now)))
  {
    if UpdateAllowed(st, v, edit, permitted) {
      var mid := st.(votings := st.votings[v := Edited(st.votings[v], edit)]);
      EditedRow(st, v, edit);
      UpdateReads(st, v, edit, permitted, now);
      ReadOnlyEdits(mid, v, false, now);
      ReadMarks(mid, v, false, now);
    } else {
      UpdateRefused(st, v, edit, permitted, now);
    }
  }

  // ---- changing an option's text ----

  predicate Retexted(before: seq<OptionRow>, after: seq<OptionRow>, id: string, text: string) {
    && |after| == |before|
    && forall k | 0 <= k < |after| ::
         && after[k].id == before[k].id && after[k].votingId == before[k].votingId
         && after[k].isDynamic == before[k].isDynamic
         && after[k].text == if before[k].id == id then text else before[k].text
  }

  predicate NoBallots(st: State, v: string) {
    forall i | 0 <= i < |st.ballots| :: st.ballots[i].votingId != v
  }

  lemma {:induction false} CountedIffAny(ballots: seq<Ballot>, v: string)
    ensures Count(ballots, InVoting(v)) == 0 <==> forall i | 0 <= i < |ballots| :: ballots[i].votingId != v
  {
    if ballots != [] {
      CountedIffAny(ballots[..|ballots| - 1], v);
      assert forall i | 0 <= i < |ballots| - 1 :: ballots[..|ballots| - 1][i] == ballots[i];
    }
  }

  predicate RetextAllowed(st: State, v: string, optionId: string, permitted: bool) {
    && Exists(st, v) && permitted && !st.votings[v].isFinalized && NoBallots(st, v)
    && exists k | 0 <= k < |st.options| :: st.options[k].id == optionId
  }

  lemma RetextReads(st: State, v: string, optionId: string, text: string, permitted: bool, now: int)
    requires RetextAllowed(st, v, optionId, permitted) && Count(st.ballots, InVoting(v)) == 0
    ensures var mid := st.(options := Retext(st.options, optionId, text));
      && UpdateOption(st, v, optionId, text, permitted, now) == GetResults(mid, v, false, now)
      && GetResults(mid, v, false, now).1.Ok?
  {
  }

  lemma RetextRefused(st: State, v: string, optionId: string, text: string, permitted: bool, now: int)
    requires !RetextAllowed(st, v, optionId, permitted) && (Count(st.ballots, InVoting(v)) == 0 <==> NoBallots(st, v))
    ensures var (st', outcome) := UpdateOption(st, v, optionId, text, permitted, now);
      outcome.Err? && st' == st
  {
  }

  /**
   * Changing a text succeeds exactly when it is permitted, the named voting exists, is open and has
   * no ballots, and the option exists. It changes the text of the option with that id and nothing
   * else, apart from what reading the results then writes.
   */
  lemma UpdateOptionIff(st: State, v: string, optionId: string, text: string, permitted: bool, now: int)
    requires Invariant(st)
    ensures var (st', outcome) := UpdateOption(st, v, optionId, text, permitted, now);
      && (outcome.Ok? <==> RetextAllowed(st, v, optionId, permitted))
      && (outcome.Err? ==> st' == st)
      && (outcome.Ok? ==> OnlyEdits(st, st', v) && Retexted(st.options, st'.options, optionId, text)
                          && st'.votings[v].(lastBroadcastAt := None) == st.votings[v].(lastBroadcastAt := None))
  {
    CountedIffAny(st.ballots, v);
    if RetextAllowed(st, v, optionId, permitted) {
      RetextKeeps(st, optionId, text);
      RetextReads(st, v, optionId, text, permitted, now);
      ReadOnlyEdits(st.(options := Retext(st.options, optionId, text)), v, false, now);
    } else {
      RetextRefused(st, v, optionId, text, permitted, now);
    }
  }

  /** Votings that can still be updated and have no ballots. */
  predicate Editable(st: State, v: string) {
    Exists(st, v) && !st.votings[v].isFinalized && NoBallots(st, v)
  }

  /** The call leaves the option's text as it was. */
  predicate KeepsText(st: State, v: string, k: nat, text: string, permitted: bool, now: int)
    requires k < |st.options|
  {
    var st' := UpdateOption(st, v, st.options[k].id, text, permitted, now).0;
    k < |st'.options| && st'.options[k].text == st.options[k].text
  }

  lemma KeepsTextIff(st: State, v: string, k: nat, text: string, permitted: bool, now: int)
    requires Invariant(st) && k < |st.options|
    ensures KeepsText(st, v, k, text, permitted, now) <==>
              !Editable(st, v) || !permitted || text == st.options[k].text
  {
    UpdateOptionIff(st, v, st.options[k].id, text, permitted, now);
  }

  /**
   * The option need not be one of the voting that is named. So no call changes the text of an option
   * whose voting has ballots exactly when no other voting is open to edits without ballots.
   */
  lemma VotedOptionKeepsTextIff(st: State, k: nat)
    requires Invariant(st) && k < |st.options| && !NoBallots(st, st.options[k].votingId)
    ensures (forall v, text, permitted, now :: KeepsText(st, v, k, text, permitted, now)) <==>
              forall v | v != st.options[k].votingId :: !Editable(st, v)
  {
    if forall v | v != st.options[k].votingId :: !Editable(st, v) {
      forall v, text, permitted, now ensures KeepsText(st, v, k, text, permitted, now) {
        KeepsTextIff(st, v, k, text, permitted, now);
      }
    } else {
      var v :| v != st.options[k].votingId && Editable(st, v);
      var text := st.options[k].text + "!";
      KeepsTextIff(st, v, k, text, true, 0);
      assert text != st.options[k].text by {
        assert |text| == |st.options[k].text| + 1;
      }
      assert !KeepsText(st, v, k, text, true, 0);
    }
  }

  // a run in which it is changed: a vote for option x of one voting, another voting, and a call naming that

  const OTHER: Step := Creating("w", OPEN, None, [Draft("c", "third"), Draft("d", "fourth")], true)

  lemma VotedState()
    ensures var st := FromEmpty(BORROWED);
      && st.ballots == [Ballot("v", Some("x"), false, Receipt("v", "x", "sig"))]
      && |st.options| == 2 && st.options == NewRows("v", DRAFTS) && st.votings.Keys == {"v"}
  {
    BorrowedRun();
    SurveyTokenVotes();
    assert NewBallots(Borrowed(), VOTE) == [Ballot("v", Some("x"), false, Receipt("v", "x", "sig"))];
  }

  lemma OtherVotingExists()
    ensures var st, st' := FromEmpty(BORROWED), Apply(FromEmpty(BORROWED), OTHER);
      && Editable(st', "w") && st.options <= st'.options && st'.ballots == st.ballots
  {
    VotedState();
    var st := FromEmpty(BORROWED);
    FreeIdsIff(st.options, "w", OTHER.drafts);
    assert FreeIds(st.options, OTHER.drafts);
  }

  lemma VotedOptionIsRetexted()
    ensures var st := Apply(FromEmpty(BORROWED), OTHER);
      var st' := Apply(st, UpdatingOption("w", "x", "another", true, 2));
      && !NoBallots(st, "v") && |st.options| == |st'.options| == 4
      && st.options[0] == OptionRow("x", "v", DRAFTS[0].text, false) && st'.options[0] == st.options[0].(text := "another")
  {
    VotedState();
    OtherVotingExists();
    ReachableHolds(BORROWED);
    StepKeeps(FromEmpty(BORROWED), OTHER);
    var st := Apply(FromEmpty(BORROWED), OTHER);
    assert st.ballots[0].votingId == "v" && st.options[0].id == "x";
    UpdateOptionIff(st, "w", "x", "another", true, 2);
  }

  // ---- deleting ----

  /** A voting is deleted exactly when it exists, is open and the user may; only its mark is set. */
  lemma DeleteIff(st: State, v: string, permitted: bool)
    ensures var (st', outcome) := Delete(st, v, permitted);
      && (outcome.Ok? <==> Exists(st, v) && permitted && !st.votings[v].isFinalized)
      && (outcome.Err? ==> st' == st)
      && (outcome.Ok? ==> st' == st.(votings := st.votings[v := st.votings[v].(isDeleted := true)]))
  {
  }

  predicate IsDeleted(st: State, v: string) {
    v in st.votings && st.votings[v].isDeleted
  }

  lemma ReadKeepsDeleted(st: State, w: string, forceFresh: bool, now: int, v: string)
    requires IsDeleted(st, v)
    ensures IsDeleted(GetResults(st, w, forceFresh, now).0, v)
  {
  }

  lemma UpdateKeepsDeleted(st: State, w: string, edit: Edit, permitted: bool, now: int, v: string)
    requires IsDeleted(st, v)
    ensures IsDeleted(Update(st, w, edit, permitted, now).0, v)
  {
    if Exists(st, w) {
      ReadKeepsDeleted(st.(votings := st.votings[w := Edited(st.votings[w], edit)]), w, false, now, v);
    }
  }

  lemma UpdateOptionKeepsDeleted(st: State, w: string, id: string, text: string, permitted: bool, now: int, v: string)
    requires IsDeleted(st, v)
    ensures IsDeleted(UpdateOption(st, w, id, text, permitted, now).0, v)
  {
    ReadKeepsDeleted(st.(options := Retext(st.options, id, text)), w, false, now, v);
  }

  lemma StepKeepsDeleted(st: State, step: Step, v: string)
    requires IsDeleted(st, v)
    ensures IsDeleted(Apply(st, step), v)
  {
    match step
    case Reading(w, forceFresh, now) => ReadKeepsDeleted(st, w, forceFresh, now, v);
    case Updating(w, edit, permitted, now) => UpdateKeepsDeleted(st, w, edit, permitted, now, v);
    case UpdatingOption(w, id, text, permitted, now) => UpdateOptionKeepsDeleted(st, w, id, text, permitted, now, v);
    case _ =>
  }

  /** And from then on it is deleted for good: its row stays, and every read of it finds nothing. */
  lemma {:induction false} DeletedForGood(st: State, steps: seq<Step>, v: string, forceFresh: bool, now: int)
    requires IsDeleted(st, v)
    ensures IsDeleted(Run(st, steps), v) && GetResults(Run(st, steps), v, forceFresh, now).1 == Err(NotFound)
    decreases |steps|
  {
    if steps == [] {
      MissingIsNotFound(st, v, forceFresh, now);
    } else {
      StepKeepsDeleted(st, steps[0], v);
      DeletedForGood(Apply(st, steps[0]), steps[1..], v, forceFresh, now);
    }
  }
}
