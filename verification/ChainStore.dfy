/**
 * Queries on the stored log. One log carries every chain: a scope's chain is the sorted
 * projection onto the blocks that hold a number in that scope.
 */
module ChainStore {
  import opened Base
  import opened AuditChain
  import opened Sorting

  /** The block's number in the scope, if it belongs to it. */
  function NumberIn(scope: Scope, b: Block): Option<nat> {
    match scope
    case Global => Some(b.sequence)
    case Group(id) => if b.groupId == Some(id) then b.groupSequence else None
    case Voting(id) => if b.votingId == Some(id) then b.votingSequence else None
    case Survey(id) => if b.surveyId == Some(id) then b.surveySequence else None
  }

  predicate InScope(scope: Scope, b: Block) {
    NumberIn(scope, b).Some?
  }

  function Num(scope: Scope, b: Block): nat {
    if InScope(scope, b) then NumberIn(scope, b).value else 0
  }

  /** The previous-hash field the scope's verifier compares. */
  function LinkOf(scope: Scope, b: Block): Option<string> {
    match scope
    case Global => Some(b.prevHash)
    case Group(_) => b.groupPrevHash
    case Voting(_) => b.votingPrevHash
    case Survey(_) => b.surveyPrevHash
  }

  function ByNumber(scope: Scope): (Block, Block) -> bool {
    (x: Block, y: Block) => Num(scope, x) < Num(scope, y)
  }

  predicate Selected(scope: Scope, after: Option<nat>, b: Block) {
    InScope(scope, b) && (after.Some? ==> Num(scope, b) > after.value)
  }

  function Select(log: seq<Block>, scope: Scope, after: Option<nat>): seq<Block> {
    if log == [] then []
    else (if Selected(scope, after, log[0]) then [log[0]] else []) + Select(log[1..], scope, after)
  }

  /** find(filter).sort({number: 1}). */
  function Query(log: seq<Block>, scope: Scope, after: Option<nat>): seq<Block> {
    Sort(Select(log, scope, after), ByNumber(scope))
  }

  function Chain(log: seq<Block>, scope: Scope): seq<Block> {
    Query(log, scope, None)
  }

  /** findOne({id, number}). */
  function FindByNumber(log: seq<Block>, scope: Scope, n: nat): Option<Block> {
    if log == [] then None
    else if NumberIn(scope, log[0]) == Some(n) then Some(log[0])
    else FindByNumber(log[1..], scope, n)
  }

  /** findOne(filter).sort({number: -1}). */
  function LastBlock(log: seq<Block>, scope: Scope): Option<Block> {
    var chain := Chain(log, scope);
    if chain == [] then None else Some(chain[|chain| - 1])
  }

  function LastHash(c: Crypto, log: seq<Block>, scope: Scope): string {
    match LastBlock(log, scope)
    case Some(b) => b.hash
    case None => GenesisHash(c, scope)
  }

  /** The unique index of the scope: no number is held twice. */
  predicate UniqueNumbers(log: seq<Block>, scope: Scope) {
    forall i, j | 0 <= i < j < |log| ::
      InScope(scope, log[i]) && InScope(scope, log[j]) ==> Num(scope, log[i]) != Num(scope, log[j])
  }

  // ---- queries under the unique index ----

  lemma SameNumberSameBlock(log: seq<Block>, scope: Scope, x: Block, y: Block)
    requires UniqueNumbers(log, scope) && x in log && y in log
    requires InScope(scope, x) && InScope(scope, y) && Num(scope, x) == Num(scope, y)
    ensures x == y
  {
    var i :| 0 <= i < |log| && log[i] == x;
    var j :| 0 <= j < |log| && log[j] == y;
    assert i == j;
  }

  lemma NumberOrder(scope: Scope)
    ensures Transitive(ByNumber(scope)) && Irreflexive(ByNumber(scope))
  {
  }

  lemma {:induction false} SelectMembers(log: seq<Block>, scope: Scope, after: Option<nat>)
    ensures forall b :: b in Select(log, scope, after) <==> b in log && Selected(scope, after, b)
  {
    if log != [] {
      SelectMembers(log[1..], scope, after);
      assert log == [log[0]] + log[1..];
    }
  }

  lemma UniqueTail(log: seq<Block>, scope: Scope)
    requires UniqueNumbers(log, scope) && log != []
    ensures UniqueNumbers(log[1..], scope)
    ensures forall b :: b in log[1..] && InScope(scope, b) && InScope(scope, log[0]) ==> Num(scope, b) != Num(scope, log[0])
  {
    var rest := log[1..];
    assert forall i | 0 <= i < |rest| :: rest[i] == log[i + 1];
  }

  lemma {:induction false} SelectComparable(log: seq<Block>, scope: Scope, after: Option<nat>)
    requires UniqueNumbers(log, scope)
    ensures Comparable(Select(log, scope, after), ByNumber(scope))
  {
    if log != [] {
      UniqueTail(log, scope);
      SelectComparable(log[1..], scope, after);
      SelectMembers(log[1..], scope, after);
      var s, rest := Select(log, scope, after), Select(log[1..], scope, after);
      if Selected(scope, after, log[0]) {
        assert s == [log[0]] + rest;
        forall i, j | 0 <= i < j < |s| ensures ByNumber(scope)(s[i], s[j]) || ByNumber(scope)(s[j], s[i]) {
          assert s[j] == rest[j - 1] && rest[j - 1] in rest;
          if i > 0 {
            assert s[i] == rest[i - 1];
          }
        }
      } else {
        assert s == rest;
      }
    }
  }

  /** A query returns exactly the selected blocks, in strictly increasing number. */
  lemma QueryFacts(log: seq<Block>, scope: Scope, after: Option<nat>)
    requires UniqueNumbers(log, scope)
    ensures StrictlySorted(Query(log, scope, after), ByNumber(scope))
    ensures forall b :: b in Query(log, scope, after) <==> b in log && Selected(scope, after, b)
    ensures forall i | 0 <= i < |Query(log, scope, after)| :: Selected(scope, after, Query(log, scope, after)[i])
  {
    var s := Select(log, scope, after);
    NumberOrder(scope);
    SelectComparable(log, scope, after);
    SelectMembers(log, scope, after);
    SortSorts(s, ByNumber(scope));
    SortElements(s, ByNumber(scope));
    forall i | 0 <= i < |Query(log, scope, after)| ensures Selected(scope, after, Query(log, scope, after)[i]) {
      assert Query(log, scope, after)[i] in Query(log, scope, after);
    }
  }

  lemma QueryIncreasing(log: seq<Block>, scope: Scope, after: Option<nat>)
    requires UniqueNumbers(log, scope)
    ensures var docs := Query(log, scope, after);
            forall x, y | 0 <= x < y < |docs| :: Num(scope, docs[x]) < Num(scope, docs[y])
  {
    QueryFacts(log, scope, after);
    var docs := Query(log, scope, after);
    forall x, y | 0 <= x < y < |docs| ensures Num(scope, docs[x]) < Num(scope, docs[y]) {
      assert ByNumber(scope)(docs[x], docs[y]);
    }
  }

  lemma QueryIs(log: seq<Block>, scope: Scope, after: Option<nat>, docs: seq<Block>)
    requires UniqueNumbers(log, scope)
    requires StrictlySorted(docs, ByNumber(scope))
    requires forall b :: b in docs <==> b in log && Selected(scope, after, b)
    ensures Query(log, scope, after) == docs
  {
    QueryFacts(log, scope, after);
    NumberOrder(scope);
    SortedUnique(Query(log, scope, after), docs, ByNumber(scope));
  }

  /** A block numbered above everything in the scope extends its chain at the end. */
  lemma AppendQuery(log: seq<Block>, b: Block, scope: Scope)
    requires UniqueNumbers(log, scope)
    requires InScope(scope, b) ==> forall x :: x in log && InScope(scope, x) ==> Num(scope, x) < Num(scope, b)
    ensures UniqueNumbers(log + [b], scope)
    ensures Chain(log + [b], scope) == if InScope(scope, b) then Chain(log, scope) + [b] else Chain(log, scope)
  {
    var log' := log + [b];
    forall i, j | 0 <= i < j < |log'| && InScope(scope, log'[i]) && InScope(scope, log'[j])
      ensures Num(scope, log'[i]) != Num(scope, log'[j])
    {
      assert log'[i] == log[i] && log[i] in log;
      if j < |log| { assert log'[j] == log[j]; }
    }
    QueryFacts(log, scope, None);
    var docs := if InScope(scope, b) then Chain(log, scope) + [b] else Chain(log, scope);
    forall i, j | 0 <= i < j < |docs| ensures ByNumber(scope)(docs[i], docs[j]) {
      assert docs[i] == Chain(log, scope)[i] && Chain(log, scope)[i] in Chain(log, scope);
    }
    QueryIs(log', scope, None, docs);
  }

  /** The blocks after a marker are a suffix of the whole chain. */
  lemma AfterIsSuffix(log: seq<Block>, scope: Scope, marker: nat) returns (k: nat)
    requires UniqueNumbers(log, scope)
    ensures k <= |Chain(log, scope)|
    ensures Query(log, scope, Some(marker)) == Chain(log, scope)[k..]
    ensures forall i | 0 <= i < k :: Num(scope, Chain(log, scope)[i]) <= marker
    ensures forall i | k <= i < |Chain(log, scope)| :: Num(scope, Chain(log, scope)[i]) > marker
  {
    QueryFacts(log, scope, None);
    var chain := Chain(log, scope);
    k := SplitPoint(chain, scope, marker);
    var docs := chain[k..];
    assert forall i | 0 <= i < |docs| :: docs[i] == chain[k + i];
    forall b ensures b in docs <==> b in log && Selected(scope, Some(marker), b) {
      if b in docs {
        var i :| 0 <= i < |docs| && docs[i] == b;
        assert chain[k + i] in chain;
      }
      if b in log && Selected(scope, Some(marker), b) {
        assert b in chain;
        var i :| 0 <= i < |chain| && chain[i] == b;
        assert docs[i - k] == b;
      }
    }
    QueryIs(log, scope, Some(marker), docs);
  }

  lemma SplitPoint(chain: seq<Block>, scope: Scope, marker: nat) returns (k: nat)
    requires StrictlySorted(chain, ByNumber(scope))
    ensures k <= |chain|
    ensures forall i | 0 <= i < k :: Num(scope, chain[i]) <= marker
    ensures forall i | k <= i < |chain| :: Num(scope, chain[i]) > marker
  {
    k := 0;
    while k < |chain| && Num(scope, chain[k]) <= marker
      invariant k <= |chain|
      invariant forall i | 0 <= i < k :: Num(scope, chain[i]) <= marker
    {
      k := k + 1;
    }
  }

  lemma {:induction false} FindFacts(log: seq<Block>, scope: Scope, n: nat)
    ensures var r := FindByNumber(log, scope, n);
            && (r.Some? ==> r.value in log && NumberIn(scope, r.value) == Some(n))
            && (r.None? ==> forall b :: b in log ==> NumberIn(scope, b) != Some(n))
  {
    if log != [] && NumberIn(scope, log[0]) != Some(n) {
      FindFacts(log[1..], scope, n);
      assert log == [log[0]] + log[1..];
    }
  }

  /** Looking a number up finds the block at its place in the chain. */
  lemma FindInChain(log: seq<Block>, scope: Scope, k: nat)
    requires UniqueNumbers(log, scope) && k < |Chain(log, scope)|
    ensures FindByNumber(log, scope, Num(scope, Chain(log, scope)[k])) == Some(Chain(log, scope)[k])
  {
    QueryFacts(log, scope, None);
    var chain := Chain(log, scope);
    var n := Num(scope, chain[k]);
    FindFacts(log, scope, n);
    assert chain[k] in chain;
    var found := FindByNumber(log, scope, n).value;
    assert found in chain;
    var i :| 0 <= i < |chain| && chain[i] == found;
    QueryIncreasing(log, scope, None);
    assert i == k;
  }

  lemma PositionInChain(log: seq<Block>, scope: Scope, b: Block) returns (k: nat)
    requires UniqueNumbers(log, scope) && b in log && InScope(scope, b)
    ensures k < |Chain(log, scope)| && Chain(log, scope)[k] == b
  {
    QueryFacts(log, scope, None);
    assert b in Chain(log, scope);
    k :| 0 <= k < |Chain(log, scope)| && Chain(log, scope)[k] == b;
  }
}
