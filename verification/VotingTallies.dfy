/**
 * What the counts of a voting add up to, and which changes of the store leave them as they are.
 */
module VotingTallies {
  import opened Base
  import opened Counting
  import opened VotingStore

  /** An abstention names no option; any other ballot names an option of its own voting. */
  predicate WellFormed(options: seq<OptionRow>, b: Ballot) {
    && (b.isAbstention <==> b.optionId.None?)
    && (b.optionId.Some? ==> IsOptionOf(options, b.votingId, b.optionId.value))
  }

  predicate References(st: State) {
    && DistinctIds(st.options)
    && UniqueHashes(st.ballots)
    && forall i | 0 <= i < |st.ballots| :: WellFormed(st.options, st.ballots[i])
  }

  predicate HasId(rows: seq<OptionRow>, id: string) {
    exists i | 0 <= i < |rows| :: rows[i].id == id
  }

  // ---- the rows of one voting ----

  lemma {:induction false} OptionsOfMembers(options: seq<OptionRow>, v: string)
    ensures forall i | 0 <= i < |OptionsOf(options, v)| :: OptionsOf(options, v)[i] in options
    ensures forall i | 0 <= i < |OptionsOf(options, v)| :: OptionsOf(options, v)[i].votingId == v
    ensures forall x | x in options && x.votingId == v :: x in OptionsOf(options, v)
  {
    if options != [] {
      OptionsOfMembers(options[1..], v);
    }
  }

  lemma {:induction false} OptionsOfDistinct(options: seq<OptionRow>, v: string)
    requires DistinctIds(options)
    ensures DistinctIds(OptionsOf(options, v))
  {
    if options != [] {
      OptionsOfDistinct(options[1..], v);
      OptionsOfMembers(options[1..], v);
    }
  }

  lemma OptionsOfStep(first: OptionRow, rest: seq<OptionRow>, v: string)
    ensures OptionsOf([first] + rest, v) == (if first.votingId == v then [first] else []) + OptionsOf(rest, v)
  {
    assert ([first] + rest)[1..] == rest;
  }

  lemma {:induction false} OptionsOfConcat(a: seq<OptionRow>, b: seq<OptionRow>, v: string)
    ensures OptionsOf(a + b, v) == OptionsOf(a, v) + OptionsOf(b, v)
  {
    if a == [] {
      assert a + b == b;
    } else {
      var first, rest := a[0], a[1..];
      OptionsOfConcat(rest, b, v);
      OptionsOfStep(first, rest, v);
      OptionsOfStep(first, rest + b, v);
      assert a == [first] + rest && a + b == [first] + (rest + b);
    }
  }

  lemma {:induction false} OptionsOfOthers(options: seq<OptionRow>, v: string)
    requires forall i | 0 <= i < |options| :: options[i].votingId != v
    ensures OptionsOf(options, v) == []
  {
    if options != [] {
      OptionsOfOthers(options[1..], v);
    }
  }

  // ---- conservation ----

  lemma {:induction false} TotalAfterBallot(rows: seq<OptionRow>, ballots: seq<Ballot>, b: Ballot)
    requires DistinctIds(rows)
    ensures Total(Counts(rows, ballots + [b]))
         == Total(Counts(rows, ballots)) + (if b.optionId.Some? && HasId(rows, b.optionId.value) then 1 else 0)
  {
    if rows == [] {
    } else {
      TotalAfterBallot(rows[1..], ballots, b);
      CountOne(ballots, b, ForOption(rows[0].id));
      if b.optionId.Some? {
        var id := b.optionId.value;
        if rows[0].id == id {
          assert !HasId(rows[1..], id);
          assert HasId(rows, id);
        } else if HasId(rows, id) {
          var i :| 0 <= i < |rows| && rows[i].id == id;
          assert rows[1..][i - 1].id == id;
        } else {
          assert forall i | 0 <= i < |rows[1..]| :: rows[1..][i] == rows[i + 1];
        }
      }
    }
  }

  predicate TalliedBy(rows: seq<OptionRow>, v: string, b: Ballot) {
    && (b.isAbstention <==> b.optionId.None?)
    && (b.optionId.Some? ==> (b.votingId == v <==> HasId(rows, b.optionId.value)))
  }

  lemma {:induction false} TotalsAddUp(rows: seq<OptionRow>, v: string, ballots: seq<Ballot>)
    requires DistinctIds(rows)
    requires forall i | 0 <= i < |ballots| :: TalliedBy(rows, v, ballots[i])
    ensures Total(Counts(rows, ballots)) + Count(ballots, AbstainedIn(v)) == Count(ballots, InVoting(v))
    decreases |ballots|
  {
    if ballots == [] {
      NoBallots(rows);
    } else {
      var front, b := ballots[..|ballots| - 1], ballots[|ballots| - 1];
      assert ballots == front + [b];
      TotalsAddUp(rows, v, front);
      TotalAfterBallot(rows, front, b);
      assert TalliedBy(rows, v, b);
    }
  }

  lemma {:induction false} NoBallots(rows: seq<OptionRow>)
    ensures Total(Counts(rows, [])) == 0
  {
    if rows != [] {
      NoBallots(rows[1..]);
    }
  }

  /**
   * Conservation: in a store with sound references the counts of a voting's options and its
   * abstentions add up to its ballots.
   */
  lemma BallotsAreConserved(st: State, v: string)
    requires References(st)
    ensures Total(Counts(OptionsOf(st.options, v), st.ballots)) + Count(st.ballots, AbstainedIn(v))
         == Count(st.ballots, InVoting(v))
  {
    var rows := OptionsOf(st.options, v);
    OptionsOfDistinct(st.options, v);
    forall k | 0 <= k < |st.ballots| ensures TalliedBy(rows, v, st.ballots[k]) {
      var b := st.ballots[k];
      assert WellFormed(st.options, b);
      if b.optionId.Some? {
        OptionBelongsToOneVoting(st.options, b.votingId, b.optionId.value, v);
      }
    }
    TotalsAddUp(rows, v, st.ballots);
  }

  lemma OptionBelongsToOneVoting(options: seq<OptionRow>, w: string, id: string, v: string)
    requires DistinctIds(options) && IsOptionOf(options, w, id)
    ensures w == v <==> HasId(OptionsOf(options, v), id)
  {
    var rows := OptionsOf(options, v);
    OptionsOfMembers(options, v);
    var i :| 0 <= i < |options| && options[i].votingId == w && options[i].id == id;
    assert w == v ==> options[i] in rows;
    if HasId(rows, id) {
      var j :| 0 <= j < |rows| && rows[j].id == id;
      var k :| 0 <= k < |options| && options[k] == rows[j];
    }
  }

  // ---- the live recount and the tally ----

  lemma {:induction false} KindsPartition(rows: seq<OptionRow>, ballots: seq<Ballot>)
    ensures Total(Counts(Kind(rows, false), ballots)) + Total(Counts(Kind(rows, true), ballots))
         == Total(Counts(rows, ballots))
  {
    if rows != [] {
      KindsPartition(rows[1..], ballots);
      KindStep(rows, false);
      KindStep(rows, true);
    }
  }

  lemma KindStep(rows: seq<OptionRow>, dynamic: bool)
    requires rows != []
    ensures rows[0].isDynamic == dynamic ==>
              Kind(rows, dynamic) != [] && Kind(rows, dynamic)[0] == rows[0]
              && Kind(rows, dynamic)[1..] == Kind(rows[1..], dynamic)
    ensures rows[0].isDynamic != dynamic ==> Kind(rows, dynamic) == Kind(rows[1..], dynamic)
  {
    assert rows[0].isDynamic == dynamic ==> Kind(rows, dynamic) == [rows[0]] + Kind(rows[1..], dynamic);
    assert rows[0].isDynamic != dynamic ==> Kind(rows, dynamic) == [] + Kind(rows[1..], dynamic);
  }

  lemma {:induction false} KindMembers(rows: seq<OptionRow>, dynamic: bool)
    ensures forall i | 0 <= i < |Kind(rows, dynamic)| :: Kind(rows, dynamic)[i] in rows
  {
    if rows != [] {
      KindMembers(rows[1..], dynamic);
    }
  }

  /** The total shown by a recount and the total sealed are the same number: the ballots of the voting. */
  lemma TotalsAgree(st: State, v: string, allowOther: bool, isClosed: bool)
    requires References(st)
    ensures Recount(st, v, allowOther, isClosed).totalBallots == Count(st.ballots, InVoting(v))
    ensures Tally(st, v).totalBallots == Total(Tally(st, v).options) + Tally(st, v).abstentionsCount
  {
    BallotsAreConserved(st, v);
    KindsPartition(OptionsOf(st.options, v), st.ballots);
  }

  lemma {:induction false} LookupInCounts(rows: seq<OptionRow>, ballots: seq<Ballot>, row: OptionRow)
    requires row in rows
    ensures Lookup(Counts(rows, ballots), row.id) == Count(ballots, ForOption(row.id))
  {
    if rows[0].id != row.id {
      LookupInCounts(rows[1..], ballots, row);
    }
  }

  lemma SealedCountsAreCounts(all: seq<OptionRow>, rows: seq<OptionRow>, ballots: seq<Ballot>)
    requires forall i | 0 <= i < |rows| :: rows[i] in all
    ensures SealedCounts(rows, Counts(all, ballots)) == Counts(rows, ballots)
  {
    forall i | 0 <= i < |rows|
      ensures SealedCounts(rows, Counts(all, ballots))[i] == Counts(rows, ballots)[i]
    {
      LookupInCounts(all, ballots, rows[i]);
    }
  }

  /** Results read from a tally that matches the ballots are the results of a recount. */
  lemma SealedResultsAreLive(st: State, v: string, allowOther: bool, isClosed: bool)
    requires References(st)
    ensures SealedResults(st, v, Tally(st, v), allowOther, isClosed) == Recount(st, v, allowOther, isClosed)
  {
    var rows := OptionsOf(st.options, v);
    KindMembers(rows, false);
    KindMembers(rows, true);
    SealedCountsAreCounts(rows, Kind(rows, false), st.ballots);
    SealedCountsAreCounts(rows, Kind(rows, true), st.ballots);
    TotalsAgree(st, v, allowOther, isClosed);
  }

  // ---- changes that leave a voting's results alone ----

  predicate SameShape(a: seq<OptionRow>, b: seq<OptionRow>) {
    && |a| == |b|
    && forall i | 0 <= i < |a| :: a[i].id == b[i].id && a[i].isDynamic == b[i].isDynamic
  }

  predicate Undisturbed(st: State, st': State, v: string) {
    && SameShape(OptionsOf(st.options, v), OptionsOf(st'.options, v))
    && (forall x | x in OptionsOf(st.options, v) ::
          Count(st.ballots, ForOption(x.id)) == Count(st'.ballots, ForOption(x.id)))
    && Count(st.ballots, AbstainedIn(v)) == Count(st'.ballots, AbstainedIn(v))
    && Count(st.ballots, InVoting(v)) == Count(st'.ballots, InVoting(v))
  }

  lemma ShapeOfConcat(a: seq<OptionRow>, b: seq<OptionRow>, c: seq<OptionRow>, d: seq<OptionRow>)
    requires SameShape(a, b) && SameShape(c, d)
    ensures SameShape(a + c, b + d)
  {
  }

  lemma {:induction false} KindShape(a: seq<OptionRow>, b: seq<OptionRow>, dynamic: bool)
    requires SameShape(a, b)
    ensures SameShape(Kind(a, dynamic), Kind(b, dynamic))
  {
    if a != [] {
      KindShape(a[1..], b[1..], dynamic);
      ShapeOfConcat(if a[0].isDynamic == dynamic then [a[0]] else [], if a[0].isDynamic == dynamic then [b[0]] else [],
                    Kind(a[1..], dynamic), Kind(b[1..], dynamic));
    }
  }

  lemma UndisturbedResults(st: State, st': State, v: string, allowOther: bool, isClosed: bool)
    requires Undisturbed(st, st', v)
    ensures Recount(st, v, allowOther, isClosed) == Recount(st', v, allowOther, isClosed)
    ensures Tally(st, v) == Tally(st', v)
  {
    var a, b := OptionsOf(st.options, v), OptionsOf(st'.options, v);
    assert Counts(a, st.ballots) == Counts(b, st'.ballots);
    KindCounts(a, b, st.ballots, st'.ballots, false);
    KindCounts(a, b, st.ballots, st'.ballots, true);
  }

  lemma KindCounts(a: seq<OptionRow>, b: seq<OptionRow>, x: seq<Ballot>, y: seq<Ballot>, dynamic: bool)
    requires SameShape(a, b)
    requires forall r | r in a :: Count(x, ForOption(r.id)) == Count(y, ForOption(r.id))
    ensures Counts(Kind(a, dynamic), x) == Counts(Kind(b, dynamic), y)
  {
    KindShape(a, b, dynamic);
    KindMembers(a, dynamic);
  }

  /** New options and ballots of other votings do not disturb v. */
  lemma AdditionsElsewhere(st: State, st': State, v: string, extra: seq<OptionRow>, added: seq<Ballot>)
    requires References(st) && DistinctIds(st'.options)
    requires st'.options == st.options + extra && st'.ballots == st.ballots + added
    requires forall i | 0 <= i < |extra| :: extra[i].votingId != v
    requires forall i | 0 <= i < |added| :: added[i].votingId != v && WellFormed(st'.options, added[i])
    ensures Undisturbed(st, st', v)
  {
    OptionsOfConcat(st.options, extra, v);
    OptionsOfOthers(extra, v);
    var rows := OptionsOf(st.options, v);
    assert OptionsOf(st'.options, v) == rows;
    forall x | x in rows ensures Count(st.ballots, ForOption(x.id)) == Count(st'.ballots, ForOption(x.id)) {
      forall i | 0 <= i < |added| ensures !ForOption(x.id)(added[i]) {
        if added[i].optionId.Some? {
          OptionBelongsToOneVoting(st'.options, added[i].votingId, added[i].optionId.value, v);
          assert !HasId(rows, added[i].optionId.value);
        }
      }
      CountConcat(st.ballots, added, ForOption(x.id));
      CountNone(added, ForOption(x.id));
    }
    CountConcat(st.ballots, added, AbstainedIn(v));
    CountNone(added, AbstainedIn(v));
    CountConcat(st.ballots, added, InVoting(v));
    CountNone(added, InVoting(v));
  }

  lemma {:induction false} RetextShape(options: seq<OptionRow>, id: string, text: string, v: string)
    ensures SameShape(OptionsOf(options, v), OptionsOf(Retext(options, id, text), v))
  {
    if options != [] {
      var first, rest := options[0], options[1..];
      var first' := if first.id == id then first.(text := text) else first;
      RetextShape(rest, id, text, v);
      OptionsOfStep(first, rest, v);
      OptionsOfStep(first', Retext(rest, id, text), v);
      assert options == [first] + rest && Retext(options, id, text) == [first'] + Retext(rest, id, text);
      ShapeOfConcat(if first.votingId == v then [first] else [], if first.votingId == v then [first'] else [],
                    OptionsOf(rest, v), OptionsOf(Retext(rest, id, text), v));
    }
  }

  /** A new text leaves every count as it is. */
  lemma RetextUndisturbed(st: State, id: string, text: string, v: string)
    ensures Undisturbed(st, st.(options := Retext(st.options, id, text)), v)
  {
    RetextShape(st.options, id, text, v);
  }
}
