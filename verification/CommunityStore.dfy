/** The table of all communities, under requests in any order: each community lives a run of its own. */
module CommunityStore {
  import opened Common
  import opened CommunityLedger

  type CommunityId = nat
  type Communities = map<CommunityId, Community>

  /** What a step does to the communities table. */
  function Serve(communities: Communities, id: CommunityId, s: Step): (Outcome, Communities) {
    if id !in communities then (Err(CommunityNotFound), communities)
    else (Answer(communities[id], s).0, communities[id := Answer(communities[id], s).1])
  }

  predicate Holds(communities: Communities, id: CommunityId, inviteId: InviteId) {
    id in communities && inviteId in communities[id].invites
  }

  /** The primary key of the invites table. */
  ghost predicate InvitesApart(communities: Communities) {
    forall a, b, i :: Holds(communities, a, i) && Holds(communities, b, i) ==> a == b
  }

  /** The rejoins of each community so far. */
  type Ledgers = map<CommunityId, nat>

  ghost predicate Balanced(c: Community, rejoins: nat) {
    |Active(c)| == c.memberCount + rejoins && c.creator in Active(c) && OnePending(c)
  }

  /** What the service keeps for every community: the ledger balance, the creator's row, one pending invite a phone. */
  ghost predicate Valid(communities: Communities, rejoins: Ledgers) {
    && InvitesApart(communities)
    && communities.Keys == rejoins.Keys
    && forall id :: id in communities ==> Balanced(communities[id], rejoins[id])
  }

  ghost function Rejoined(communities: Communities, rejoins: Ledgers, id: CommunityId, s: Step): Ledgers {
    if id !in communities || id !in rejoins then rejoins
    else rejoins[id := rejoins[id] + if IsRejoin(communities[id], Next(communities[id], s)) then 1 else 0]
  }

  /** The id of an invite that may be written belongs to no other community. */
  ghost predicate InviteIdFree(communities: Communities, id: CommunityId, s: Step) {
    s.Inviting? ==> forall k :: Holds(communities, k, s.id) ==> k == id
  }

  lemma StepKeepsBalance(c: Community, rejoins: nat, s: Step)
    requires Balanced(c, rejoins)
    ensures Balanced(Next(c, s), rejoins + if IsRejoin(c, Next(c, s)) then 1 else 0)
  {
    StepBalances(c, s);
    StepMoves(c, s);
    StepKeepsInvites(c, s);
  }

  lemma StepAddsInvite(c: Community, s: Step, i: InviteId)
    ensures i in Next(c, s).invites ==> i in c.invites || (s.Inviting? && i == s.id)
  {
  }

  lemma ServeKeepsApart(communities: Communities, id: CommunityId, s: Step)
    requires InvitesApart(communities) && InviteIdFree(communities, id, s)
    ensures InvitesApart(Serve(communities, id, s).1)
  {
    var after := Serve(communities, id, s).1;
    forall a, b, i | Holds(after, a, i) && Holds(after, b, i)
      ensures a == b
    {
      if id in communities {
        StepAddsInvite(communities[id], s, i);
      }
      assert a != id ==> Holds(communities, a, i);
      assert b != id ==> Holds(communities, b, i);
      if a != b && (a == id || b == id) {
        assert i in communities[id].invites ==> Holds(communities, id, i);
      }
    }
  }

  /** Every request, for any community, keeps the store valid. */
  lemma ServeKeepsValid(communities: Communities, rejoins: Ledgers, id: CommunityId, s: Step)
    requires Valid(communities, rejoins) && InviteIdFree(communities, id, s)
    ensures Valid(Serve(communities, id, s).1, Rejoined(communities, rejoins, id, s))
  {
    ServeKeepsApart(communities, id, s);
    if id in communities {
      StepKeepsBalance(communities[id], rejoins[id], s);
    }
  }

  lemma FoundKeepsValid(communities: Communities, rejoins: Ledgers, id: CommunityId, creator: UserId, joinType: Option<JoinType>)
    requires Valid(communities, rejoins) && id !in communities
    ensures Valid(communities[id := Founded(creator, joinType)], rejoins[id := 0])
  {
    var after := communities[id := Founded(creator, joinType)];
    assert Active(Founded(creator, joinType)) == {creator};
    forall a, b, i | Holds(after, a, i) && Holds(after, b, i)
      ensures a == b
    {
      assert Holds(communities, a, i) && Holds(communities, b, i);
    }
  }

  /** An invite that is answered leaves the store valid, before anyone joins. */
  lemma AnsweredKeepsValid(communities: Communities, rejoins: Ledgers, id: CommunityId, i: InviteId, invite: Invite)
    requires Valid(communities, rejoins) && Holds(communities, id, i) && !invite.status.Pending?
    ensures var c := communities[id]; Valid(communities[id := c.(invites := c.invites[i := invite])], rejoins)
  {
    var c := communities[id];
    var stored := c.(invites := c.invites[i := invite]);
    assert Active(stored) == Active(c);
    AnsweredStaysOnePending(c, i, invite);
    var after := communities[id := stored];
    forall a, b, j | Holds(after, a, j) && Holds(after, b, j)
      ensures a == b
    {
      assert Holds(communities, a, j) && Holds(communities, b, j);
    }
  }

  lemma AnsweredStaysOnePending(c: Community, i: InviteId, invite: Invite)
    requires OnePending(c) && i in c.invites && !invite.status.Pending?
    ensures OnePending(c.(invites := c.invites[i := invite]))
  {
  }

  // ---- Runs of the store ---------------------------------------------------------------------------------

  datatype Genesis = Genesis(creator: UserId, joinType: Option<JoinType>)

  datatype Call = Founding(id: CommunityId, genesis: Genesis) | Asking(id: CommunityId, step: Step)

  ghost predicate Admitted(communities: Communities, c: Call) {
    match c
    case Founding(id, _) => id !in communities
    case Asking(id, s) => InviteIdFree(communities, id, s)
  }

  function Do(communities: Communities, c: Call): Communities {
    match c
    case Founding(id, g) => communities[id := Founded(g.creator, g.joinType)]
    case Asking(id, s) => Serve(communities, id, s).1
  }

  ghost predicate CanRun(cs: seq<Call>)
    decreases |cs|, 0
  {
    cs == [] || (CanRun(cs[..|cs| - 1]) && Admitted(StoreAfter(cs[..|cs| - 1]), cs[|cs| - 1]))
  }

  /** The communities after a run of requests, from an empty table. */
  ghost function StoreAfter(cs: seq<Call>): Communities
    requires CanRun(cs)
    decreases |cs|, 1
  {
    if cs == [] then map[] else Do(StoreAfter(cs[..|cs| - 1]), cs[|cs| - 1])
  }

  /** Each community is what a run of requests to it alone makes of its founding. */
  lemma {:induction false} EachCommunityLivesItsOwnRun(cs: seq<Call>, id: CommunityId) returns (g: Genesis, ss: seq<Step>)
    requires CanRun(cs) && id in StoreAfter(cs)
    ensures StoreAfter(cs)[id] == Run(Founded(g.creator, g.joinType), ss)
    decreases |cs|
  {
    var before, c := StoreAfter(cs[..|cs| - 1]), cs[|cs| - 1];
    if c.Founding? && c.id == id {
      g, ss := c.genesis, [];
    } else {
      g, ss := EachCommunityLivesItsOwnRun(cs[..|cs| - 1], id);
      if c.Asking? && c.id == id {
        RunSnoc(Founded(g.creator, g.joinType), ss, c.step);
        ss := ss + [c.step];
      }
    }
  }

  /**
   * In every reachable store, a community has at least as many active members as its counter says, its creator among
   * them, no phone has two pending invites to it, and no invite belongs to two communities.
   */
  lemma {:induction false} EveryLedgerBalances(cs: seq<Call>) returns (rejoins: Ledgers)
    requires CanRun(cs)
    ensures Valid(StoreAfter(cs), rejoins)
    decreases |cs|
  {
    if cs == [] {
      rejoins := map[];
    } else {
      var before, c := StoreAfter(cs[..|cs| - 1]), cs[|cs| - 1];
      var r := EveryLedgerBalances(cs[..|cs| - 1]);
      match c
      case Founding(id, g) =>
        FoundKeepsValid(before, r, id, g.creator, g.joinType);
        rejoins := r[id := 0];
      case Asking(id, s) =>
        ServeKeepsValid(before, r, id, s);
        rejoins := Rejoined(before, r, id, s);
    }
  }
}
