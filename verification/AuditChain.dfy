/**
 * Blocks of the audit log and the string each block hash is taken of. SHA-256 and the ISO
 * rendering of dates are parameters; what is proved needs at most that the former is
 * collision-free and that the latter is injective and never prints the separator.
 */
module AuditChain {
  import opened Base
  import opened Serialization

  /** A block belongs to the global scope and possibly to one group, one voting and one survey. */
  datatype Scope = Global | Group(id: string) | Voting(id: string) | Survey(id: string)

  datatype Context = Context(
    action: string, payload: Value,
    userId: Option<string>, groupId: Option<string>, votingId: Option<string>, surveyId: Option<string>)

  datatype Block = Block(
    sequence: nat, groupSequence: Option<nat>, votingSequence: Option<nat>, surveySequence: Option<nat>,
    action: string, payload: Value,
    userId: Option<string>, groupId: Option<string>, votingId: Option<string>, surveyId: Option<string>,
    createdAt: int,
    prevHash: string, groupPrevHash: Option<string>, votingPrevHash: Option<string>, surveyPrevHash: Option<string>,
    hash: string)

  datatype Crypto = Crypto(sha256: string -> string, toISOString: int -> string, genesisSeed: string)

  // ---- the hashed string ----

  function NatText(n: nat): string {
    if n < 10 then ["0123456789"[n]] else NatText(n / 10) + ["0123456789"[n % 10]]
  }

  function OptionalNumber(n: Option<nat>): string {
    if n.Some? then NatText(n.value) else ""
  }

  function OptionalText(s: Option<string>): string {
    if s.Some? then s.value else ""
  }

  /** The nine parts before the payload. */
  function Heads(b: Block): seq<string> {
    [ b.prevHash, NatText(b.sequence),
      OptionalNumber(b.groupSequence), OptionalNumber(b.votingSequence), OptionalNumber(b.surveySequence),
      OptionalText(b.groupPrevHash), OptionalText(b.votingPrevHash), OptionalText(b.surveyPrevHash),
      b.action ]
  }

  function Preimage(c: Crypto, b: Block): string {
    Join(Heads(b) + [Serialize(b.payload), c.toISOString(b.createdAt)], "|")
  }

  function BlockHash(c: Crypto, b: Block): string {
    c.sha256(Preimage(c, b))
  }

  function GenesisText(c: Crypto, scope: Scope): string {
    match scope
    case Global => c.genesisSeed
    case Group(id) => c.genesisSeed + ":group:" + id
    case Voting(id) => c.genesisSeed + ":voting:" + id
    case Survey(id) => c.genesisSeed + ":survey:" + id
  }

  function GenesisHash(c: Crypto, scope: Scope): string {
    c.sha256(GenesisText(c, scope))
  }

  // ---- what the hashed string determines ----

  /** Everything that goes into the hash; user, group, voting and survey ids do not. */
  datatype Hashed = Hashed(
    prevHash: string, sequence: nat,
    groupSequence: Option<nat>, votingSequence: Option<nat>, surveySequence: Option<nat>,
    groupPrevHash: Option<string>, votingPrevHash: Option<string>, surveyPrevHash: Option<string>,
    action: string, payloadText: string, createdAt: int)

  function HashedPart(b: Block): Hashed {
    Hashed(b.prevHash, b.sequence, b.groupSequence, b.votingSequence, b.surveySequence,
           b.groupPrevHash, b.votingPrevHash, b.surveyPrevHash,
           b.action, Serialize(b.payload), b.createdAt)
  }

  predicate NoBar(s: string) {
    forall i | 0 <= i < |s| :: s[i] != '|'
  }

  predicate CleanText(s: Option<string>) {
    s.Some? ==> s.value != "" && NoBar(s.value)
  }

  /** The text fields other than the payload hold no separator, and present hashes are nonempty. */
  predicate Clean(b: Block) {
    && NoBar(b.prevHash) && NoBar(b.action)
    && CleanText(b.groupPrevHash) && CleanText(b.votingPrevHash) && CleanText(b.surveyPrevHash)
  }

  ghost predicate CollisionFree(c: Crypto) {
    forall s: string, t: string :: c.sha256(s) == c.sha256(t) ==> s == t
  }

  ghost predicate DatesReadable(c: Crypto) {
    && (forall t: int :: NoBar(c.toISOString(t)))
    && (forall t: int, u: int :: c.toISOString(t) == c.toISOString(u) ==> t == u)
  }

  lemma {:induction false} NatTextFacts(n: nat)
    ensures NatText(n) != "" && NoBar(NatText(n))
    ensures |NatText(n)| == 1 <==> n < 10
  {
    if n >= 10 {
      NatTextFacts(n / 10);
    }
  }

  lemma {:induction false} NatTextInjective(m: nat, n: nat)
    requires NatText(m) == NatText(n)
    ensures m == n
  {
    NatTextFacts(m);
    NatTextFacts(n);
    if m >= 10 {
      var s, t := NatText(m), NatText(n);
      assert s[..|s| - 1] == NatText(m / 10) && t[..|t| - 1] == NatText(n / 10);
      NatTextInjective(m / 10, n / 10);
      DigitInjective(m % 10, n % 10);
      assert s[|s| - 1] == "0123456789"[m % 10] && t[|t| - 1] == "0123456789"[n % 10];
    } else {
      DigitInjective(m, n);
      assert NatText(m)[0] == "0123456789"[m] && NatText(n)[0] == "0123456789"[n];
    }
  }

  lemma DigitInjective(m: nat, n: nat)
    requires m < 10 && n < 10
    ensures "0123456789"[m] == "0123456789"[n] ==> m == n
  {
  }

  lemma OptionalNumberFacts(m: Option<nat>, n: Option<nat>)
    ensures NoBar(OptionalNumber(m))
    ensures OptionalNumber(m) == OptionalNumber(n) ==> m == n
  {
    if m.Some? { NatTextFacts(m.value); }
    if n.Some? { NatTextFacts(n.value); }
    if m.Some? && n.Some? && NatText(m.value) == NatText(n.value) {
      NatTextInjective(m.value, n.value);
    }
  }

  /** Text before the first separator, and text after it, can both be read off. */
  lemma PeelFront(a: string, s: string, b: string, t: string)
    requires NoBar(a) && NoBar(b) && a + "|" + s == b + "|" + t
    ensures a == b && s == t
  {
    var x, y := a + "|" + s, b + "|" + t;
    assert x[|a|] == '|' && y[|b|] == '|';
    assert forall i | 0 <= i < |a| :: x[i] == a[i];
    assert forall i | 0 <= i < |b| :: y[i] == b[i];
    assert |a| == |b|;
    assert x[..|a|] == a && y[..|b|] == b;
    assert x[|a| + 1..] == s && y[|b| + 1..] == t;
  }

  lemma PeelBack(s: string, a: string, t: string, b: string)
    requires NoBar(a) && NoBar(b) && s + "|" + a == t + "|" + b
    ensures s == t && a == b
  {
    var x, y := s + "|" + a, t + "|" + b;
    assert |x| == |s| + 1 + |a| && |y| == |t| + 1 + |b|;
    assert x[|s|] == '|' && y[|t|] == '|';
    assert forall i | |s| < i < |x| :: x[i] == a[i - |s| - 1];
    assert forall i | |t| < i < |y| :: y[i] == b[i - |t| - 1];
    assert |s| == |t|;
    assert x[..|s|] == s && y[..|t|] == t;
    assert x[|s| + 1..] == a && y[|t| + 1..] == b;
  }

  lemma {:induction false} JoinHeads(heads: seq<string>, others: seq<string>, last: string, last': string)
    requires |heads| == |others|
    requires forall i | 0 <= i < |heads| :: NoBar(heads[i]) && NoBar(others[i])
    requires Join(heads + [last], "|") == Join(others + [last'], "|")
    ensures heads == others && last == last'
  {
    if heads == [] {
      assert heads + [last] == [last] && others + [last'] == [last'];
    } else {
      var s, t := heads + [last], others + [last'];
      assert s[1..] == heads[1..] + [last] && t[1..] == others[1..] + [last'];
      PeelFront(heads[0], Join(s[1..], "|"), others[0], Join(t[1..], "|"));
      JoinHeads(heads[1..], others[1..], last, last');
      assert heads == [heads[0]] + heads[1..] && others == [others[0]] + others[1..];
    }
  }

  lemma {:induction false} JoinLastTwo(heads: seq<string>, p: string, d: string)
    ensures Join(heads + [p, d], "|") == Join(heads + [p + "|" + d], "|")
  {
    if heads == [] {
      assert heads + [p, d] == [p, d] && heads + [p + "|" + d] == [p + "|" + d];
      assert [p, d][1..] == [d];
    } else {
      JoinLastTwo(heads[1..], p, d);
      assert (heads + [p, d])[1..] == heads[1..] + [p, d];
      assert (heads + [p + "|" + d])[1..] == heads[1..] + [p + "|" + d];
    }
  }

  lemma HeadsClean(b: Block)
    requires Clean(b)
    ensures forall i | 0 <= i < 9 :: NoBar(Heads(b)[i])
  {
    NatTextFacts(b.sequence);
    OptionalNumberFacts(b.groupSequence, None);
    OptionalNumberFacts(b.votingSequence, None);
    OptionalNumberFacts(b.surveySequence, None);
  }

  lemma HeadsInjective(a: Block, b: Block)
    requires Clean(a) && Clean(b) && Heads(a) == Heads(b)
    ensures a.prevHash == b.prevHash && a.sequence == b.sequence && a.action == b.action
    ensures a.groupSequence == b.groupSequence && a.votingSequence == b.votingSequence
    ensures a.surveySequence == b.surveySequence
    ensures a.groupPrevHash == b.groupPrevHash && a.votingPrevHash == b.votingPrevHash
    ensures a.surveyPrevHash == b.surveyPrevHash
  {
    var h, k := Heads(a), Heads(b);
    assert h[0] == k[0] && h[1] == k[1] && h[2] == k[2] && h[3] == k[3] && h[4] == k[4];
    assert h[5] == k[5] && h[6] == k[6] && h[7] == k[7] && h[8] == k[8];
    NatTextInjective(a.sequence, b.sequence);
    OptionalNumberFacts(a.groupSequence, b.groupSequence);
    OptionalNumberFacts(a.votingSequence, b.votingSequence);
    OptionalNumberFacts(a.surveySequence, b.surveySequence);
  }

  /**
   * The hashed string determines every hashed field: all four numbers and previous hashes with
   * which of them are absent, the action, the payload text and the time, even though the payload
   * text may itself contain the separator.
   */
  lemma PreimageInjective(c: Crypto, a: Block, b: Block)
    requires DatesReadable(c) && Clean(a) && Clean(b)
    requires Preimage(c, a) == Preimage(c, b)
    ensures HashedPart(a) == HashedPart(b)
  {
    var p, q := Serialize(a.payload), Serialize(b.payload);
    var d, e := c.toISOString(a.createdAt), c.toISOString(b.createdAt);
    JoinLastTwo(Heads(a), p, d);
    JoinLastTwo(Heads(b), q, e);
    HeadsClean(a);
    HeadsClean(b);
    JoinHeads(Heads(a), Heads(b), p + "|" + d, q + "|" + e);
    PeelBack(p, d, q, e);
    HeadsInjective(a, b);
  }

  lemma EqualHashes(c: Crypto, a: Block, b: Block)
    requires CollisionFree(c) && DatesReadable(c) && Clean(a) && Clean(b)
    requires BlockHash(c, a) == BlockHash(c, b)
    ensures HashedPart(a) == HashedPart(b)
  {
    assert Preimage(c, a) == Preimage(c, b);
    PreimageInjective(c, a, b);
  }

  /** No block hashes to a genesis hash, since a block's string always holds a separator. */
  lemma NotGenesis(c: Crypto, b: Block, scope: Scope)
    requires CollisionFree(c) && NoBar(GenesisText(c, scope))
    ensures BlockHash(c, b) != GenesisHash(c, scope)
  {
    var parts := Heads(b) + [Serialize(b.payload), c.toISOString(b.createdAt)];
    var s := Preimage(c, b);
    assert s == parts[0] + "|" + Join(parts[1..], "|");
    assert s[|parts[0]|] == '|';
    assert s != GenesisText(c, scope);
  }

  /** The recomputed hash ignores the key order of the stored payload. */
  lemma HashIgnoresKeyOrder(c: Crypto, b: Block, payload: Value)
    requires WellFormed(b.payload) && WellFormed(payload) && SameUpToKeyOrder(b.payload, payload)
    ensures BlockHash(c, b.(payload := payload)) == BlockHash(c, b)
  {
    KeyOrderIrrelevant(b.payload, payload);
  }
}
