/**
 * The same hashed string cut into fields in another way. The fields are joined by a separator that
 * payloads may hold, so a sealed block can be given another action and payload with the same hash.
 */
module AuditRecut {
  import opened Base
  import opened AuditChain
  import opened ChainStore
  import opened ChainScan
  import opened Serialization
  import opened Sorting
  import opened AuditState
  import opened AuditRuns
  import opened AuditGate
  import opened AuditCommitment

  /** The action takes over the payload's text up to a separator, and another payload the text after it. */
  function Recut(b: Block, head: string, payload: Value): Block {
    b.(action := b.action + "|" + head, payload := payload)
  }

  lemma JoinFrontSplit(front: seq<string>, x: string, y: string, rest: seq<string>)
    requires rest != []
    ensures Join(front + [x, y] + rest, "|") == Join(front + [x + "|" + y] + rest, "|")
    decreases |front|
  {
    var s, t := front + [x, y] + rest, front + [x + "|" + y] + rest;
    if front == [] {
      assert s[1..] == [y] + rest && s[1..][1..] == rest && t[1..] == rest;
    } else {
      assert s[1..] == front[1..] + [x, y] + rest && t[1..] == front[1..] + [x + "|" + y] + rest;
      JoinFrontSplit(front[1..], x, y, rest);
    }
  }

  lemma RecutKeepsPreimage(c: Crypto, b: Block, head: string, payload: Value)
    requires Serialize(b.payload) == head + "|" + Serialize(payload)
    ensures Preimage(c, Recut(b, head, payload)) == Preimage(c, b)
  {
    var y, date := Recut(b, head, payload), c.toISOString(b.createdAt);
    var front, text := Heads(b)[..8], Serialize(payload);
    assert Heads(b) + [Serialize(b.payload), date] == front + [b.action, head + "|" + text] + [date];
    assert Heads(y) + [text, date] == front + [b.action + "|" + head, text] + [date];
    JoinFrontSplit(front, b.action, head + "|" + text, [date]);
    JoinFrontSplit(front, b.action + "|" + head, text, [date]);
    assert b.action + "|" + (head + "|" + text) == (b.action + "|" + head) + "|" + text;
  }

  /** A state that seals the one block of its log in the scope. */
  function OneSeal(b: Block, scope: Scope): State {
    State([b], map[], map[], map[scope := [Checkpoint(b.sequence, b.hash)]])
  }

  /** The scan looks at these parts of a block only. */
  lemma OneBlockPasses(c: Crypto, b: Block, scope: Scope)
    requires InScope(scope, b) && b.hash == BlockHash(c, b) && LinkOf(scope, b) == Some(GenesisHash(c, scope))
    requires scope.Voting? ==> Num(scope, b) == 1
    ensures Chain([b], scope) == [b] && FullScan(c, [b], scope) == Valid(1)
  {
    OneBlockChain(b, scope);
    ScanIs(c, scope, FromGenesis(c, scope), [b], Valid(1));
  }

  lemma OneSealRespected(b: Block, scope: Scope)
    requires Chain([b], scope) == [b]
    ensures CreateCheckpoint(State([b], map[], map[], map[]), scope) == Ok(OneSeal(b, scope))
    ensures BrokenCheckpoint(OneSeal(b, scope), scope).None?
  {
    var cp, none: seq<Checkpoint>, seals: map<Scope, seq<Checkpoint>> := Checkpoint(b.sequence, b.hash), [], map[];
    assert none + [cp] == [cp] && seals[scope := [cp]] == map[scope := [cp]];
    assert Sort([cp], BySequence()) == [cp] by { assert [cp][1..] == []; }
    assert FindByNumber([b], Global, b.sequence) == Some(b);
  }

  lemma RecutDiffers(b: Block, head: string, payload: Value)
    requires Serialize(b.payload) == head + "|" + Serialize(payload)
    ensures var later := Recut(b, head, payload);
      !Clean(later) && later.action != b.action && Serialize(later.payload) != Serialize(b.payload)
  {
    var later := Recut(b, head, payload);
    assert later.action[|b.action|] == '|';
    assert |later.action| > |b.action| && |Serialize(later.payload)| < |Serialize(b.payload)|;
  }

  /** A seal on one block is respected by another of the same number and hash in its place. */
  lemma OneSealHolds(c: Crypto, b: Block, later: Block, scope: Scope)
    requires later.sequence == b.sequence && later.hash == b.hash && Clean(b)
    requires Chain([b], scope) == [b] && Chain([later], scope) == [later]
    requires FullScan(c, [b], scope) == Valid(1) == FullScan(c, [later], scope)
    ensures SealRespected(c, State([b], map[], map[], map[]), OneSeal(later, scope), scope, Checkpoint(b.sequence, b.hash))
  {
    OneSealRespected(b, scope);
    OneSealRespected(later, scope);
    OneBlockChain(b, scope);
    OneBlockChain(later, scope);
    OneBlockChain(later, Global);
  }

  lemma OneBlockSeal(b: Block, scope: Scope)
    requires InScope(scope, b) && Chain([b], scope) == [b]
    ensures var cp := Checkpoint(b.sequence, b.hash);
      SealInScope([b], scope, cp) && (SealedFrontClean([b], scope, cp) <==> Clean(b))
  {
    assert FindByNumber([b], Global, b.sequence) == Some(b);
    assert Chain([b], scope)[0] == b;
  }

  /**
   * The commitment fails on a separator too: whenever the payload's text splits at one so that the
   * rest is the text of some payload, the block can be cut anew after it is sealed. In every scope
   * it belongs to, both logs pass, the seal is respected and the scope is kept, and the action and
   * the payload differ.
   */
  lemma RecuttingEscapesSeal(c: Crypto, b: Block, scope: Scope, head: string, payload: Value)
    requires InScope(scope, b) && Clean(b) && b.hash == BlockHash(c, b) && LinkOf(scope, b) == Some(GenesisHash(c, scope))
    requires scope.Voting? ==> Num(scope, b) == 1
    requires Serialize(b.payload) == head + "|" + Serialize(payload)
    ensures var later, cp := Recut(b, head, payload), Checkpoint(b.sequence, b.hash);
      var before, after := State([b], map[], map[], map[]), OneSeal(later, scope);
      && SealRespected(c, before, after, scope, cp)
      && SealInScope(after.log, scope, cp) && !SealedFrontClean(after.log, scope, cp)
      && later.action != b.action && Serialize(later.payload) != Serialize(b.payload)
      && !AgreeUpTo(Chain(before.log, scope), Chain(after.log, scope), 1)
  {
    var later := Recut(b, head, payload);
    RecutKeepsPreimage(c, b, head, payload);
    RecutDiffers(b, head, payload);
    OneBlockPasses(c, b, scope);
    OneBlockPasses(c, later, scope);
    OneSealHolds(c, b, later, scope);
    OneBlockSeal(later, scope);
  }

  /** The payload recorded when a voting is created. */
  function VotingCreated(id: string, title: string): Value {
    Object([Field("votingId", Text(id)), Field("title", Text(title))])
  }

  lemma VotingCreatedText(id: string, title: string)
    ensures Serialize(VotingCreated(id, title)) == "{" + ("title" + ":" + title) + "," + ("votingId" + ":" + id) + "}"
  {
    assert "title"[0] < "votingId"[0];
    TwoFieldsText("title", Text(title), "votingId", Text(id));
  }

  lemma TitleText(id: string, s: string, t: string)
    ensures "{" + ("title" + ":" + (s + "|{title:" + t)) + "," + ("votingId" + ":" + id) + "}"
         == ("{title:" + s) + "|" + ("{" + ("title" + ":" + t) + "," + ("votingId" + ":" + id) + "}")
  {
  }

  /**
   * A reachable such input is the first block ever appended, for a voting whose title holds a
   * separator and the beginning of a payload: after the seal the voting can be given the title t.
   */
  lemma TitleEscapesSeal(c: Crypto, ctx: Context, now: int, scope: Scope, id: string, s: string, t: string)
    requires Sound(c) && NoBar(ctx.action) && Touches(ctx, scope)
    requires ctx.payload == VotingCreated(id, s + "|{title:" + t)
    ensures var b := NewBlock(c, EMPTY, ctx, now);
      var later := Recut(b, "{title:" + s, VotingCreated(id, t));
      && Append(c, EMPTY, ctx, now, false).log == [b]
      && SealRespected(c, State([b], map[], map[], map[]), OneSeal(later, scope), scope, Checkpoint(b.sequence, b.hash))
      && later.payload == VotingCreated(id, t) && HashedPart(later) != HashedPart(b)
  {
    var b := NewBlock(c, EMPTY, ctx, now);
    forall other: Scope ensures Numbered(EMPTY, other) {
    }
    NewBlockClean(c, EMPTY, ctx, now);
    AppendedBlock(c, EMPTY, ctx, now, scope);
    VotingCreatedText(id, s + "|{title:" + t);
    VotingCreatedText(id, t);
    TitleText(id, s, t);
    RecuttingEscapesSeal(c, b, scope, "{title:" + s, VotingCreated(id, t));
  }
}
