/** The community service over its tables. Each request answers as CommunityLedger says, and changes no other community. */
module CommunityServices {
  import opened Common
  import opened CommunityLedger
  import opened CommunityRules
  import opened CommunityStore
  import Slug

  datatype InviteCounts = InviteCounts(invited: nat, alreadyMembers: nat, alreadyInvited: nat)

  ghost predicate UnusedIds(c: Community, ids: seq<InviteId>) {
    NoDuplicates(ids) && forall i :: 0 <= i < |ids| ==> ids[i] !in c.invites
  }

  /** The first `i` rounds of a call. */
  ghost function FirstRounds(users: map<UserId, Phone>, inviter: UserId, phones: seq<Phone>, sawOpen: bool, ids: seq<InviteId>, i: nat): seq<Step>
    requires i <= |phones| == |ids|
  {
    Rounds(users, inviter, phones[..i], sawOpen, ids[..i])
  }

  lemma OneMoreRound(users: map<UserId, Phone>, inviter: UserId, phones: seq<Phone>, sawOpen: bool, ids: seq<InviteId>, i: nat)
    requires i < |phones| == |ids|
    ensures FirstRounds(users, inviter, phones, sawOpen, ids, i + 1) ==
            FirstRounds(users, inviter, phones, sawOpen, ids, i) + [Inviting(inviter, phones[i], Owner(users, phones[i]), sawOpen, ids[i])]
  {
    RoundsSnoc(users, inviter, phones[..i + 1], sawOpen, ids[..i + 1]);
    assert phones[..i + 1][..i] == phones[..i] && ids[..i + 1][..i] == ids[..i];
  }

  function Counted(n: InviteCounts, reply: Reply): InviteCounts {
    InviteCounts(n.invited + Count(reply, Invited), n.alreadyMembers + Count(reply, AlreadyMember), n.alreadyInvited + Count(reply, AlreadyInvited))
  }

  /** How often a reply was given. */
  function Occurs(replies: seq<Reply>, reply: Reply): nat {
    if replies == [] then 0 else Occurs(replies[..|replies| - 1], reply) + Count(replies[|replies| - 1], reply)
  }

  function CountsOf(replies: seq<Reply>): InviteCounts {
    InviteCounts(Occurs(replies, Invited), Occurs(replies, AlreadyMember), Occurs(replies, AlreadyInvited))
  }

  lemma CountsSnoc(replies: seq<Reply>, reply: Reply)
    ensures CountsOf(replies + [reply]) == Counted(CountsOf(replies), reply)
  {
    assert (replies + [reply])[..|replies|] == replies;
  }

  ghost predicate RepliesAt(c: Community, ss: seq<Step>, j: nat, reply: Reply)
    requires j < |ss|
  {
    Answer(Run(c, ss[..j]), ss[j]).0 == Ok(reply)
  }

  /** The steps are answered with these replies. */
  ghost predicate Replied(c: Community, ss: seq<Step>, replies: seq<Reply>) {
    |replies| == |ss| && forall j :: 0 <= j < |ss| ==> RepliesAt(c, ss, j, replies[j])
  }

  lemma RepliedSnoc(c: Community, ss: seq<Step>, replies: seq<Reply>, s: Step, reply: Reply)
    requires Replied(c, ss, replies) && Answer(Run(c, ss), s).0 == Ok(reply)
    ensures Replied(c, ss + [s], replies + [reply])
  {
    forall j | 0 <= j < |ss + [s]|
      ensures RepliesAt(c, ss + [s], j, (replies + [reply])[j])
    {
      if j < |ss| {
        assert (ss + [s])[..j] == ss[..j];
        assert RepliesAt(c, ss, j, replies[j]);
      } else {
        assert (ss + [s])[..j] == ss;
      }
    }
  }

  lemma RepliedInit(c: Community, ss: seq<Step>, replies: seq<Reply>, n: nat)
    requires Replied(c, ss, replies) && n <= |ss|
    ensures Replied(c, ss[..n], replies[..n])
  {
    forall j | 0 <= j < n
      ensures RepliesAt(c, ss[..n], j, replies[..n][j])
    {
      assert ss[..n][..j] == ss[..j];
      assert RepliesAt(c, ss, j, replies[j]);
    }
  }

  lemma {:induction false} TallyOccurs(c: Community, ss: seq<Step>, replies: seq<Reply>, reply: Reply)
    requires Replied(c, ss, replies)
    ensures Tally(c, ss, reply) == Occurs(replies, reply)
    decreases |ss|
  {
    if ss != [] {
      var n := |ss| - 1;
      assert RepliesAt(c, ss, n, replies[n]);
      RepliedInit(c, ss, replies, n);
      TallyOccurs(c, ss[..n], replies[..n], reply);
    }
  }

  /** Every round of a call succeeds. */
  lemma NextRound(c: Community, mid: Community, users: map<UserId, Phone>, inviter: UserId, phones: seq<Phone>, sawOpen: bool,
                  ids: seq<InviteId>, i: nat, replies: seq<Reply>) returns (reply: Reply)
    requires i < |phones| == |ids| && Undisturbed(c, sawOpen) && UnusedIds(c, ids)
    requires mid == Run(c, FirstRounds(users, inviter, phones, sawOpen, ids, i))
    requires Replied(c, FirstRounds(users, inviter, phones, sawOpen, ids, i), replies)
    ensures var (outcome, c') := InviteOne(mid, inviter, phones[i], Owner(users, phones[i]), sawOpen, ids[i]);
            outcome == Ok(reply) && c' == Run(c, FirstRounds(users, inviter, phones, sawOpen, ids, i + 1))
    ensures Replied(c, FirstRounds(users, inviter, phones, sawOpen, ids, i + 1), replies + [reply])
  {
    var done := FirstRounds(users, inviter, phones, sawOpen, ids, i);
    var s := Inviting(inviter, phones[i], Owner(users, phones[i]), sawOpen, ids[i]);
    CallStaysUndisturbed(c, users, inviter, phones[..i], sawOpen, ids[..i]);
    RoundSucceeds(mid, inviter, phones[i], Owner(users, phones[i]), sawOpen, ids[i]);
    reply := Answer(mid, s).0.value;
    OneMoreRound(users, inviter, phones, sawOpen, ids, i);
    RunSnoc(c, done, s);
    RepliedSnoc(c, done, replies, s, reply);
  }

  /** So the counts of a call are the tallies of its rounds. */
  lemma CountsAreTallies(c: Community, ss: seq<Step>, replies: seq<Reply>)
    requires Replied(c, ss, replies)
    ensures CountsOf(replies) == InviteCounts(Tally(c, ss, Invited), Tally(c, ss, AlreadyMember), Tally(c, ss, AlreadyInvited))
  {
    TallyOccurs(c, ss, replies, Invited);
    TallyOccurs(c, ss, replies, AlreadyMember);
    TallyOccurs(c, ss, replies, AlreadyInvited);
  }

  /** Every community has one slug, and no slug names two. */
  ghost predicate SlugsFit(slugs: map<string, CommunityId>, ids: set<CommunityId>) {
    && (forall s :: s in slugs ==> slugs[s] in ids)
    && (forall s, t :: s in slugs && t in slugs && slugs[s] == slugs[t] ==> s == t)
    && (forall id :: id in ids ==> exists s :: s in slugs && slugs[s] == id)
  }

  lemma NewSlugFits(slugs: map<string, CommunityId>, ids: set<CommunityId>, slug: string, id: CommunityId)
    requires SlugsFit(slugs, ids) && slug !in slugs && id !in ids
    ensures SlugsFit(slugs[slug := id], ids + {id})
  {
    var after := slugs[slug := id];
    forall i | i in ids + {id}
      ensures exists s :: s in after && after[s] == i
    {
      if i == id {
        assert after[slug] == i;
      } else {
        var s :| s in slugs && slugs[s] == i;
        assert after[s] == i;
      }
    }
  }

  class CommunityService {
    var communities: map<CommunityId, Community>
    var slugs: map<string, CommunityId>
    var users: map<UserId, Phone>
    const lower: string -> string
    /** How often a former member came back, for each community. */
    ghost var rejoins: Ledgers

    constructor (users: map<UserId, Phone>, lower: string -> string)
      requires PhonesUnique(users)
      ensures Valid() && communities == map[] && slugs == map[] && this.users == users && this.lower == lower
    {
      communities, slugs, this.users, this.lower, rejoins := map[], map[], users, lower, map[];
    }

    ghost predicate Valid()
      reads this
    {
      CommunityStore.Valid(communities, rejoins) && PhonesUnique(users) && SlugsFit(slugs, communities.Keys)
    }

    /** `stamp` is the clock in base 36; a suffixed slug that is taken as well is refused by the unique column. */
    method Create(id: CommunityId, name: string, joinType: Option<JoinType>, creatorId: UserId, stamp: string) returns (r: Outcome)
      requires Valid() && id !in communities
      modifies `communities, `slugs, `rejoins
      ensures Valid()
      ensures var base := Slug.Slugify(name, lower);
              var slug := if base in old(slugs) then Slug.Suffixed(base, stamp) else base;
              if slug in old(slugs) then r == Err(DuplicateKey) && communities == old(communities) && slugs == old(slugs)
              else r == Ok(Done) && communities == old(communities)[id := Founded(creatorId, joinType)] && slugs == old(slugs)[slug := id]
      ensures r.Ok? ==> var base := Slug.Slugify(name, lower);
                slugs == old(slugs)[(if base in old(slugs) then base + "-" + stamp else base) := id]
      ensures r.Ok? ==> && (forall k :: k in old(communities) ==> k in communities && communities[k] == old(communities)[k])
                        && id in communities
                        && communities[id] == Community(creatorId, true, if joinType.Some? then joinType.value else InviteOnly, 1,
                                                        map[creatorId := Member(Admin, true)], map[])
    {
      var slug := Slug.Slugify(name, lower);
      if slug in slugs {
        slug := Slug.Suffixed(slug, stamp);
      }
      if slug in slugs {
        return Err(DuplicateKey);
      }
      var community := Community(creatorId, true, if joinType.Some? then joinType.value else InviteOnly, 1, map[], map[]);
      community := community.(members := community.members[creatorId := Member(Admin, true)]);
      communities, slugs := communities[id := community], slugs[slug := id];
      SettleNew(old(communities), old(slugs), id, slug, creatorId, joinType);
      return Ok(Done);
    }

    ghost method SettleNew(before: Communities, slugsBefore: map<string, CommunityId>, id: CommunityId, slug: string,
                           creatorId: UserId, joinType: Option<JoinType>)
      requires CommunityStore.Valid(before, rejoins) && PhonesUnique(users) && SlugsFit(slugsBefore, before.Keys)
      requires id !in before && slug !in slugsBefore
      requires communities == before[id := Founded(creatorId, joinType)] && slugs == slugsBefore[slug := id]
      modifies `rejoins
      ensures Valid()
    {
      FoundKeepsValid(before, rejoins, id, creatorId, joinType);
      NewSlugFits(slugsBefore, before.Keys, slug, id);
      rejoins := rejoins[id := 0];
      assert communities.Keys == before.Keys + {id};
    }

    method FindOne(id: CommunityId) returns (r: Result<Community, Problem>)
      ensures r == if id in communities && communities[id].isActive then Ok(communities[id]) else Err(CommunityNotFound)
    {
      if id in communities && communities[id].isActive {
        return Ok(communities[id]);
      }
      return Err(CommunityNotFound);
    }

    /** Keeps the ledgers up to date: whatever request has been served on a valid table, the table is valid still. */
    ghost method Settle(before: Communities, id: CommunityId, s: Step)
      requires CommunityStore.Valid(before, rejoins) && PhonesUnique(users) && SlugsFit(slugs, before.Keys) && InviteIdFree(before, id, s)
      requires communities == Serve(before, id, s).1
      modifies `rejoins
      ensures Valid() && rejoins == Rejoined(before, old(rejoins), id, s)
    {
      ServeKeepsValid(before, rejoins, id, s);
      rejoins := Rejoined(before, rejoins, id, s);
      assert communities.Keys == before.Keys;
    }

    method Update(id: CommunityId, joinType: Option<JoinType>, userId: UserId) returns (r: Outcome)
      requires Valid()
      modifies `communities, `rejoins
      ensures Valid() && rejoins == Rejoined(old(communities), old(rejoins), id, Updating(userId, joinType))
      ensures (r, communities) == Serve(old(communities), id, Updating(userId, joinType))
      ensures r == Verdict(old(communities), id, Updating(userId, joinType)) && (r.Err? ==> communities == old(communities))
    {
      var found := FindOne(id);
      assert id in communities ==> communities[id := communities[id]] == communities;
      if found.Err? {
        r := Err(found.error);
      } else if found.value.creator != userId {
        r := Err(NotAdmin);
      } else {
        var community := found.value;
        if joinType.Some? {
          community := community.(joinType := joinType.value);
        }
        communities := communities[id := community];
        r := Ok(Done);
      }
      Settle(old(communities), id, Updating(userId, joinType));
      ServedByTheRules(old(communities), id, Updating(userId, joinType));
    }

    method Remove(id: CommunityId, userId: UserId) returns (r: Outcome)
      requires Valid()
      modifies `communities, `rejoins
      ensures Valid() && rejoins == Rejoined(old(communities), old(rejoins), id, Removing(userId))
      ensures (r, communities) == Serve(old(communities), id, Removing(userId))
      ensures r == Verdict(old(communities), id, Removing(userId)) && (r.Err? ==> communities == old(communities))
    {
      var found := FindOne(id);
      assert id in communities ==> communities[id := communities[id]] == communities;
      if found.Err? {
        r := Err(found.error);
      } else if found.value.creator != userId {
        r := Err(NotAdmin);
      } else {
        communities := communities[id := found.value.(isActive := false)];
        r := Ok(Done);
      }
      Settle(old(communities), id, Removing(userId));
      ServedByTheRules(old(communities), id, Removing(userId));
    }

    method Join(id: CommunityId, userId: UserId) returns (r: Outcome)
      requires Valid()
      modifies `communities, `rejoins
      ensures Valid() && rejoins == Rejoined(old(communities), old(rejoins), id, Joining(userId))
      ensures (r, communities) == Serve(old(communities), id, Joining(userId))
      ensures r == Verdict(old(communities), id, Joining(userId)) && (r.Err? ==> communities == old(communities))
      ensures id in old(communities) ==> r == CommunityLedger.Join(old(communities)[id], userId).0
      ensures id in old(communities) ==> communities == old(communities)[id := CommunityLedger.Join(old(communities)[id], userId).1]
    {
      var found := FindOne(id);
      assert id in communities ==> communities[id := communities[id]] == communities;
      if found.Err? {
        r := Err(found.error);
      } else if !found.value.joinType.Open? {
        r := Err(InviteRequired);
      } else if userId in found.value.members {
        var existing := found.value.members[userId];
        if existing.isActive {
          r := Err(MemberAlready);
        } else {
          existing := existing.(isActive := true);
          communities := communities[id := found.value.(members := found.value.members[userId := existing])];
          r := Ok(Done);
        }
      } else {
        var community := found.value.(members := found.value.members[userId := Member(Ordinary, true)]);
        community := community.(memberCount := community.memberCount + 1);
        communities := communities[id := community];
        r := Ok(Done);
      }
      Settle(old(communities), id, Joining(userId));
      ServedByTheRules(old(communities), id, Joining(userId));
    }

    method Leave(id: CommunityId, userId: UserId) returns (r: Outcome)
      requires Valid()
      modifies `communities, `rejoins
      ensures Valid() && rejoins == Rejoined(old(communities), old(rejoins), id, Leaving(userId))
      ensures (r, communities) == Serve(old(communities), id, Leaving(userId))
      ensures r == Verdict(old(communities), id, Leaving(userId)) && (r.Err? ==> communities == old(communities))
    {
      var found := FindOne(id);
      assert id in communities ==> communities[id := communities[id]] == communities;
      if found.Err? {
        r := Err(found.error);
      } else if found.value.creator == userId {
        r := Err(CreatorCannotLeave);
      } else if userId !in found.value.members || !found.value.members[userId].isActive {
        r := Err(NotAMember);
      } else {
        var member := found.value.members[userId].(isActive := false);
        var community := found.value.(members := found.value.members[userId := member]);
        community := community.(memberCount := community.memberCount - 1);
        communities := communities[id := community];
        r := Ok(Done);
      }
      Settle(old(communities), id, Leaving(userId));
      ServedByTheRules(old(communities), id, Leaving(userId));
    }

    method KickMember(id: CommunityId, target: UserId, adminId: UserId) returns (r: Outcome)
      requires Valid()
      modifies `communities, `rejoins
      ensures Valid() && rejoins == Rejoined(old(communities), old(rejoins), id, Kicking(target, adminId))
      ensures (r, communities) == Serve(old(communities), id, Kicking(target, adminId))
      ensures r == Verdict(old(communities), id, Kicking(target, adminId)) && (r.Err? ==> communities == old(communities))
    {
      var found := FindOne(id);
      assert id in communities ==> communities[id := communities[id]] == communities;
      if found.Err? {
        r := Err(found.error);
      } else if found.value.creator != adminId {
        r := Err(NotAdmin);
      } else if target == found.value.creator {
        r := Err(CannotKickCreator);
      } else if target !in found.value.members || !found.value.members[target].isActive {
        r := Err(MemberNotFound);
      } else {
        var member := found.value.members[target].(isActive := false);
        var community := found.value.(members := found.value.members[target := member]);
        community := community.(memberCount := community.memberCount - 1);
        communities := communities[id := community];
        r := Ok(Done);
      }
      Settle(old(communities), id, Kicking(target, adminId));
      ServedByTheRules(old(communities), id, Kicking(target, adminId));
    }

    method FindUser(phone: Phone) returns (r: Option<UserId>)
      requires PhonesUnique(users)
      ensures r == Owner(users, phone)
    {
      if u :| u in users && users[u] == phone {
        return Some(u);
      }
      return None;
    }

    /** Whether the phone's owner is a member already, or the phone has a pending invite. */
    static method Known(community: Community, phone: Phone, user: Option<UserId>) returns (r: Option<Reply>)
      ensures r == if user.Some? && IsActiveMember(community, user.value) then Some(AlreadyMember)
                   else if HasPending(community, phone) then Some(AlreadyInvited) else None
    {
      if user.Some? && user.value in community.members && community.members[user.value].isActive {
        return Some(AlreadyMember);
      }
      if exists i :: i in community.invites && community.invites[i].phone == phone && community.invites[i].status.Pending? {
        return Some(AlreadyInvited);
      }
      return None;
    }

    /** A new invite row, as step `s` writes it. */
    method SaveInvite(id: CommunityId, inviteId: InviteId, invite: CommunityLedger.Invite, ghost s: Step)
      requires Valid() && id in communities && InviteIdFree(communities, id, s)
      requires Next(communities[id], s) == communities[id].(invites := communities[id].invites[inviteId := invite])
      modifies `communities, `rejoins
      ensures Valid() && communities == old(communities)[id := Next(old(communities)[id], s)]
    {
      var community := communities[id];
      communities := communities[id := community.(invites := community.invites[inviteId := invite])];
      Settle(old(communities), id, s);
    }

    /** The body of the loop in `invite`. */
    method InvitePhone(id: CommunityId, phone: Phone, inviter: UserId, sawOpen: bool, inviteId: InviteId) returns (r: Outcome)
      requires Valid() && id in communities && forall k :: Holds(communities, k, inviteId) ==> k == id
      modifies `communities, `rejoins
      ensures Valid()
      ensures r == InviteOne(old(communities)[id], inviter, phone, Owner(users, phone), sawOpen, inviteId).0
      ensures communities == old(communities)[id := InviteOne(old(communities)[id], inviter, phone, Owner(users, phone), sawOpen, inviteId).1]
    {
      var community := communities[id];
      assert communities[id := community] == communities;
      var user := FindUser(phone);
      var known := Known(community, phone, user);
      if known.Some? {
        return Ok(known.value);
      }
      if sawOpen && user.Some? {
        var joined := Join(id, user.value);
        return if joined.Ok? then Ok(Invited) else joined;
      }
      if inviteId in community.invites {
        return Err(DuplicateKey);
      }
      SaveInvite(id, inviteId, CommunityLedger.Invite(phone, user, inviter, Pending), Inviting(inviter, phone, user, sawOpen, inviteId));
      return Ok(Invited);
    }

    /** One round of the loop in `invite`; `start` is the table before the first, and `replies` those given so far. */
    method InviteNext(id: CommunityId, phones: seq<Phone>, inviter: UserId, sawOpen: bool, ids: seq<InviteId>, i: nat, counts: InviteCounts,
                      ghost start: Communities, ghost replies: seq<Reply>) returns (next: InviteCounts, ghost more: seq<Reply>)
      requires Valid() && i < |phones| == |ids| && LoopAt(start, communities, id, users, inviter, phones, sawOpen, ids, i, replies, counts)
      requires Undisturbed(start[id], sawOpen) && UnusedIds(start[id], ids) && FreeIds(start, ids)
      modifies `communities, `rejoins
      ensures Valid() && LoopAt(start, communities, id, users, inviter, phones, sawOpen, ids, i + 1, more, next)
    {
      ghost var reply := LoopRound(start, communities, id, users, inviter, phones, sawOpen, ids, i, replies, counts);
      var outcome := InvitePhone(id, phones[i], inviter, sawOpen, ids[i]);
      next := Counted(counts, outcome.value);
      more := replies + [reply];
    }

    /** The loop of `invite`. */
    method InviteEach(id: CommunityId, phones: seq<Phone>, inviter: UserId, sawOpen: bool, ids: seq<InviteId>) returns (r: InviteCounts)
      requires Valid() && |ids| == |phones| && id in communities
      requires Undisturbed(communities[id], sawOpen) && UnusedIds(communities[id], ids) && FreeIds(communities, ids)
      modifies `communities, `rejoins
      ensures Valid()
      ensures var c, ss := old(communities)[id], Rounds(users, inviter, phones, sawOpen, ids);
              communities == old(communities)[id := Run(c, ss)] && exists replies :: Replied(c, ss, replies) && r == CountsOf(replies)
    {
      var counts := InviteCounts(0, 0, 0);
      ghost var start, replies := communities, [];
      LoopBegins(communities, id, users, inviter, phones, sawOpen, ids);
      for i := 0 to |phones|
        invariant Valid() && LoopAt(start, communities, id, users, inviter, phones, sawOpen, ids, i, replies, counts)
      {
        counts, replies := InviteNext(id, phones, inviter, sawOpen, ids, i, counts, start, replies);
      }
      AllRounds(users, inviter, phones, sawOpen, ids);
      return counts;
    }

    /** `ids` are the generated ids of the invite rows the call may write, one for each phone. */
    method Invite(id: CommunityId, phones: seq<Phone>, inviter: UserId, ids: seq<InviteId>) returns (r: Result<InviteCounts, Problem>)
      requires Valid() && |ids| == |phones| && NoDuplicates(ids) && FreeIds(communities, ids)
      modifies `communities, `rejoins
      ensures Valid()
      ensures r.Err? ==> communities == old(communities)
      ensures id !in old(communities) || !old(communities)[id].isActive ==> r == Err(CommunityNotFound)
      ensures id in old(communities) && old(communities)[id].isActive ==>
                (r == Err(NotAMember) <==> inviter != old(communities)[id].creator && !IsActiveMember(old(communities)[id], inviter))
                && (r.Err? ==> r == Err(NotAMember))
      ensures r.Ok? ==> id in old(communities) && id in communities && communities == old(communities)[id := communities[id]]
      ensures r.Ok? ==> communities[id] == Run(old(communities)[id], Rounds(users, inviter, phones, old(communities)[id].joinType.Open?, ids))
      ensures r.Ok? ==> LoopResult(old(communities)[id], communities[id], users, phones,
                                   r.value.invited, r.value.alreadyMembers, r.value.alreadyInvited)
    {
      var found := FindOne(id);
      if found.Err? {
        return Err(found.error);
      }
      var community := found.value;
      if community.creator != inviter && !(inviter in community.members && community.members[inviter].isActive) {
        return Err(NotAMember);
      }
      FreeMeansUnused(communities, id, ids);
      var sawOpen := community.joinType.Open?;
      var counts := InviteEach(id, phones, inviter, sawOpen, ids);
      ghost var ss := Rounds(users, inviter, phones, sawOpen, ids);
      ghost var replies :| Replied(community, ss, replies) && counts == CountsOf(replies);
      CountsAreTallies(community, ss, replies);
      InviteConserves(community, users, inviter, phones, sawOpen, ids);
      return Ok(counts);
    }

    /** The answer is saved before anyone joins. */
    method SaveAnswer(id: CommunityId, inviteId: InviteId, invite: CommunityLedger.Invite)
      requires Valid() && Holds(communities, id, inviteId) && !invite.status.Pending?
      modifies `communities
      ensures Valid()
      ensures var c := old(communities)[id]; communities == old(communities)[id := c.(invites := c.invites[inviteId := invite])]
    {
      AnsweredKeepsValid(communities, rejoins, id, inviteId, invite);
      var community := communities[id];
      communities := communities[id := community.(invites := community.invites[inviteId := invite])];
      assert communities.Keys == old(communities).Keys;
    }

    method FindInvite(inviteId: InviteId) returns (home: Option<CommunityId>)
      ensures home.Some? ==> Holds(communities, home.value, inviteId)
      ensures home.None? ==> forall id :: !Holds(communities, id, inviteId)
    {
      if id :| id in communities && Holds(communities, id, inviteId) {
        return Some(id);
      }
      return None;
    }

    /** The community has this invite, it is open, and it names the user or the user's phone. */
    ghost predicate Answerable(c: Community, inviteId: InviteId, userId: UserId)
      reads this
    {
      && inviteId in c.invites && c.invites[inviteId].status == Pending
      && (c.invites[inviteId].userId == Some(userId) || (userId in users && c.invites[inviteId].phone == users[userId]))
    }

    /** The invite is looked up by its id, and with it `home`, its community. */
    method RespondToInvite(inviteId: InviteId, userId: UserId, accept: bool) returns (r: Outcome, home: Option<CommunityId>)
      requires Valid()
      modifies `communities, `rejoins
      ensures Valid()
      ensures home.Some? ==> userId in users && Holds(old(communities), home.value, inviteId)
      ensures home.Some? ==> r == Respond(old(communities)[home.value], inviteId, userId, users[userId], accept).0
      ensures home.Some? ==>
                communities == old(communities)[home.value := Respond(old(communities)[home.value], inviteId, userId, users[userId], accept).1]
      ensures home.None? ==> communities == old(communities) && r == if userId in users then Err(InviteNotFound) else Err(UserNotFound)
      ensures home.None? && userId in users ==> forall id :: !Holds(communities, id, inviteId)
      // Only the addressee of an open invite is heard, and the invite then holds the answer.
      ensures home.Some? ==> AnsweredWell(old(communities)[home.value], communities, home.value, inviteId, userId, users[userId], accept, r)
      ensures (forall id :: id in old(communities) ==> !Answerable(old(communities)[id], inviteId, userId)) ==>
                r.Err? && communities == old(communities)
    {
      if userId !in users {
        return Err(UserNotFound), None;
      }
      home := FindInvite(inviteId);
      if home.None? {
        return Err(InviteNotFound), None;
      }
      RespondsWell(communities, home.value, inviteId, userId, users[userId], accept);
      assert communities[home.value := communities[home.value]] == communities;
      r := RespondIn(home.value, inviteId, userId, accept);
    }

    /** The rest of it, once the invite's community is known. */
    method RespondIn(id: CommunityId, inviteId: InviteId, userId: UserId, accept: bool) returns (r: Outcome)
      requires Valid() && userId in users && Holds(communities, id, inviteId)
      modifies `communities, `rejoins
      ensures Valid()
      ensures r == Respond(old(communities)[id], inviteId, userId, users[userId], accept).0
      ensures communities == old(communities)[id := Respond(old(communities)[id], inviteId, userId, users[userId], accept).1]
    {
      var community := communities[id];
      assert communities[id := community] == communities;
      var invite := community.invites[inviteId];
      if !invite.status.Pending? || (invite.userId != Some(userId) && invite.phone != users[userId]) {
        return Err(InviteNotFound);
      }
      invite := invite.(status := if accept then Accepted else Rejected, userId := Some(userId));
      SaveAnswer(id, inviteId, invite);
      if accept {
        ghost var saved := communities[id];
        r := Join(id, userId);
        UpdateTwice(old(communities), id, saved, CommunityLedger.Join(saved, userId).1);
        return r;
      }
      return Ok(Done);
    }
  }

  /** No community has any of these invite ids. */
  ghost predicate FreeIds(communities: Communities, ids: seq<InviteId>) {
    forall k, i :: Holds(communities, k, i) ==> i !in ids
  }

  lemma FreeMeansUnused(communities: Communities, id: CommunityId, ids: seq<InviteId>)
    requires FreeIds(communities, ids) && NoDuplicates(ids) && id in communities
    ensures UnusedIds(communities[id], ids)
  {
    forall j | 0 <= j < |ids|
      ensures ids[j] !in communities[id].invites
    {
      assert ids[j] in ids && !Holds(communities, id, ids[j]);
    }
  }

  lemma OthersFree(before: Communities, communities: Communities, id: CommunityId, inviteId: InviteId)
    requires forall k :: !Holds(before, k, inviteId)
    requires id in communities && communities == before[id := communities[id]]
    ensures forall k :: Holds(communities, k, inviteId) ==> k == id
  {
    forall k | Holds(communities, k, inviteId)
      ensures k == id
    {
      assert !Holds(before, k, inviteId);
    }
  }

  /** The loop of `invite` after `i` phones: only this community has changed, and as the first rounds say. */
  ghost predicate LoopAt(start: Communities, now: Communities, id: CommunityId, users: map<UserId, Phone>, inviter: UserId,
                         phones: seq<Phone>, sawOpen: bool, ids: seq<InviteId>, i: nat, replies: seq<Reply>, counts: InviteCounts)
    requires i <= |phones| == |ids|
  {
    && id in start && now == start[id := Run(start[id], FirstRounds(users, inviter, phones, sawOpen, ids, i))]
    && Replied(start[id], FirstRounds(users, inviter, phones, sawOpen, ids, i), replies) && counts == CountsOf(replies)
  }

  lemma LoopBegins(start: Communities, id: CommunityId, users: map<UserId, Phone>, inviter: UserId, phones: seq<Phone>,
                   sawOpen: bool, ids: seq<InviteId>)
    requires id in start && |phones| == |ids|
    ensures LoopAt(start, start, id, users, inviter, phones, sawOpen, ids, 0, [], InviteCounts(0, 0, 0))
  {
    assert start[id := start[id]] == start;
  }

  lemma AllRounds(users: map<UserId, Phone>, inviter: UserId, phones: seq<Phone>, sawOpen: bool, ids: seq<InviteId>)
    requires |phones| == |ids|
    ensures FirstRounds(users, inviter, phones, sawOpen, ids, |phones|) == Rounds(users, inviter, phones, sawOpen, ids)
  {
    assert phones[..|phones|] == phones && ids[..|phones|] == ids;
  }

  /** One round: the phone gets its reply, and the loop goes on. */
  lemma LoopRound(start: Communities, now: Communities, id: CommunityId, users: map<UserId, Phone>, inviter: UserId,
                  phones: seq<Phone>, sawOpen: bool, ids: seq<InviteId>, i: nat, replies: seq<Reply>, counts: InviteCounts)
      returns (reply: Reply)
    requires i < |phones| == |ids| && LoopAt(start, now, id, users, inviter, phones, sawOpen, ids, i, replies, counts)
    requires Undisturbed(start[id], sawOpen) && UnusedIds(start[id], ids) && FreeIds(start, ids)
    ensures id in now && forall k :: Holds(now, k, ids[i]) ==> k == id
    ensures InviteOne(now[id], inviter, phones[i], Owner(users, phones[i]), sawOpen, ids[i]).0 == Ok(reply)
    ensures LoopAt(start, now[id := InviteOne(now[id], inviter, phones[i], Owner(users, phones[i]), sawOpen, ids[i]).1], id, users,
                   inviter, phones, sawOpen, ids, i + 1, replies + [reply], Counted(counts, reply))
  {
    reply := NextRound(start[id], now[id], users, inviter, phones, sawOpen, ids, i, replies);
    OthersFree(start, now, id, ids[i]);
    UpdateTwice(start, id, now[id], InviteOne(now[id], inviter, phones[i], Owner(users, phones[i]), sawOpen, ids[i]).1);
    CountsSnoc(replies, reply);
  }
}
