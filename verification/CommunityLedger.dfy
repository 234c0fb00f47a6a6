/**
 * One community: its member rows, its member counter and its invites. A step is one request, except that
 * `invite` is one step for each phone, so that other requests may run between two phones of a list.
 */
module CommunityLedger {
  import opened Common

  type UserId = nat
  type Phone = string
  type InviteId = nat

  datatype JoinType = InviteOnly | Open

  datatype Role = Admin | Ordinary

  datatype Member = Member(role: Role, isActive: bool)

  datatype InviteStatus = Pending | Accepted | Rejected

  datatype Invite = Invite(phone: Phone, userId: Option<UserId>, invitedBy: UserId, status: InviteStatus)

  datatype Community = Community(creator: UserId, isActive: bool, joinType: JoinType, memberCount: int,
                                 members: map<UserId, Member>, invites: map<InviteId, Invite>)

  datatype Reply = Done | Invited | AlreadyMember | AlreadyInvited

  datatype Problem =
    | CommunityNotFound | NotAdmin | InviteRequired | MemberAlready | CreatorCannotLeave | NotAMember
    | CannotKickCreator | MemberNotFound | UserNotFound | InviteNotFound | DuplicateKey

  type Outcome = Result<Reply, Problem>

  /** `create`: the creator is the first member, and counts. */
  function Founded(creator: UserId, joinType: Option<JoinType>): Community {
    Community(creator, true, if joinType.Some? then joinType.value else InviteOnly, 1,
              map[creator := Member(Admin, true)], map[])
  }

  predicate IsActiveMember(c: Community, u: UserId) {
    u in c.members && c.members[u].isActive
  }

  function Update(c: Community, userId: UserId, joinType: Option<JoinType>): (Outcome, Community) {
    if !c.isActive then (Err(CommunityNotFound), c)
    else if c.creator != userId then (Err(NotAdmin), c)
    else (Ok(Done), if joinType.Some? then c.(joinType := joinType.value) else c)
  }

  function Remove(c: Community, userId: UserId): (Outcome, Community) {
    if !c.isActive then (Err(CommunityNotFound), c)
    else if c.creator != userId then (Err(NotAdmin), c)
    else (Ok(Done), c.(isActive := false))
  }

  /** A row left behind by an earlier membership is made active again, and then the counter is not touched. */
  function Join(c: Community, userId: UserId): (Outcome, Community) {
    if !c.isActive then (Err(CommunityNotFound), c)
    else if !c.joinType.Open? then (Err(InviteRequired), c)
    else if userId in c.members then
      if c.members[userId].isActive then (Err(MemberAlready), c)
      else (Ok(Done), c.(members := c.members[userId := c.members[userId].(isActive := true)]))
    else (Ok(Done), c.(members := c.members[userId := Member(Ordinary, true)], memberCount := c.memberCount + 1))
  }

  function Deactivate(c: Community, userId: UserId): Community
    requires userId in c.members
  {
    c.(members := c.members[userId := c.members[userId].(isActive := false)], memberCount := c.memberCount - 1)
  }

  function Leave(c: Community, userId: UserId): (Outcome, Community) {
    if !c.isActive then (Err(CommunityNotFound), c)
    else if c.creator == userId then (Err(CreatorCannotLeave), c)
    else if !IsActiveMember(c, userId) then (Err(NotAMember), c)
    else (Ok(Done), Deactivate(c, userId))
  }

  function Kick(c: Community, target: UserId, adminId: UserId): (Outcome, Community) {
    if !c.isActive then (Err(CommunityNotFound), c)
    else if c.creator != adminId then (Err(NotAdmin), c)
    else if target == c.creator then (Err(CannotKickCreator), c)
    else if !IsActiveMember(c, target) then (Err(MemberNotFound), c)
    else (Ok(Done), Deactivate(c, target))
  }

  predicate HasPending(c: Community, phone: Phone) {
    exists i :: i in c.invites && c.invites[i].phone == phone && c.invites[i].status.Pending?
  }

  /**
   * One round of the loop in `invite`. `owner` is the user with that phone, `sawOpen` says whether the
   * community was open when the request began, and `id` is the id of the invite row, should one be written.
   */
  function InviteOne(c: Community, inviter: UserId, phone: Phone, owner: Option<UserId>, sawOpen: bool, id: InviteId): (Outcome, Community) {
    if owner.Some? && IsActiveMember(c, owner.value) then (Ok(AlreadyMember), c)
    else if HasPending(c, phone) then (Ok(AlreadyInvited), c)
    else if sawOpen && owner.Some? then
      var (outcome, c') := Join(c, owner.value);
      (if outcome.Ok? then Ok(Invited) else outcome, c')
    else if id in c.invites then (Err(DuplicateKey), c)
    else (Ok(Invited), c.(invites := c.invites[id := Invite(phone, owner, inviter, Pending)]))
  }

  predicate Addressed(c: Community, id: InviteId, userId: UserId, phone: Phone) {
    id in c.invites && c.invites[id].status.Pending? && (c.invites[id].userId == Some(userId) || c.invites[id].phone == phone)
  }

  /** The answer is stored before `join` is called, and stays stored if `join` refuses. */
  function Respond(c: Community, id: InviteId, userId: UserId, phone: Phone, accept: bool): (Outcome, Community) {
    if !Addressed(c, id, userId, phone) then (Err(InviteNotFound), c)
    else
      var answered := c.invites[id].(status := if accept then Accepted else Rejected, userId := Some(userId));
      var stored := c.(invites := c.invites[id := answered]);
      if accept then Join(stored, userId) else (Ok(Done), stored)
  }

  // ---- Runs ----------------------------------------------------------------------------------------------

  datatype Step =
    | Updating(userId: UserId, joinType: Option<JoinType>)
    | Removing(userId: UserId)
    | Joining(userId: UserId)
    | Leaving(userId: UserId)
    | Kicking(target: UserId, adminId: UserId)
    | Inviting(inviter: UserId, phone: Phone, owner: Option<UserId>, sawOpen: bool, id: InviteId)
    | Responding(id: InviteId, userId: UserId, phone: Phone, accept: bool)

  function Answer(c: Community, s: Step): (Outcome, Community) {
    match s
    case Updating(userId, joinType) => Update(c, userId, joinType)
    case Removing(userId) => Remove(c, userId)
    case Joining(userId) => Join(c, userId)
    case Leaving(userId) => Leave(c, userId)
    case Kicking(target, adminId) => Kick(c, target, adminId)
    case Inviting(inviter, phone, owner, sawOpen, id) => InviteOne(c, inviter, phone, owner, sawOpen, id)
    case Responding(id, userId, phone, accept) => Respond(c, id, userId, phone, accept)
  }

  function Next(c: Community, s: Step): Community {
    Answer(c, s).1
  }

  function Run(c: Community, ss: seq<Step>): Community {
    if ss == [] then c else Next(Run(c, ss[..|ss| - 1]), ss[|ss| - 1])
  }

  // ---- The counter ---------------------------------------------------------------------------------------

  function Active(c: Community): set<UserId> {
    set u | u in c.members && c.members[u].isActive
  }

  /** Some user who had left came back. */
  ghost predicate IsRejoin(c: Community, c': Community) {
    exists u :: u in c.members && !c.members[u].isActive && u in Active(c')
  }

  ghost function Rejoins(c: Community, ss: seq<Step>): nat {
    if ss == [] then 0
    else Rejoins(c, ss[..|ss| - 1]) + if IsRejoin(Run(c, ss[..|ss| - 1]), Run(c, ss)) then 1 else 0
  }

  ghost predicate Keeps(c: Community, c': Community) {
    c'.members == c.members && c'.memberCount == c.memberCount
  }

  ghost predicate Enters(c: Community, c': Community, u: UserId) {
    && u !in c.members && c'.members == c.members[u := Member(Ordinary, true)]
    && c'.memberCount == c.memberCount + 1
  }

  ghost predicate Returns(c: Community, c': Community, u: UserId) {
    && u in c.members && !c.members[u].isActive && c'.members == c.members[u := c.members[u].(isActive := true)]
    && c'.memberCount == c.memberCount
  }

  ghost predicate Exits(c: Community, c': Community, u: UserId) {
    && IsActiveMember(c, u) && u != c.creator && c'.members == c.members[u := c.members[u].(isActive := false)]
    && c'.memberCount == c.memberCount - 1
  }

  lemma JoinMoves(c: Community, u: UserId)
    ensures var c' := Join(c, u).1; Keeps(c, c') || Enters(c, c', u) || Returns(c, c', u)
  {
  }

  /** What a step does to the rows: nothing, a first join, a return, or a departure of someone not the creator. */
  lemma StepMoves(c: Community, s: Step)
    ensures var c' := Next(c, s);
            || Keeps(c, c')
            || (exists u :: Enters(c, c', u))
            || (exists u :: Returns(c, c', u))
            || (exists u :: Exits(c, c', u))
    ensures Next(c, s).creator == c.creator
  {
    match s
    case Joining(u) => JoinMoves(c, u);
    case Inviting(_, _, owner, _, _) => if owner.Some? { JoinMoves(c, owner.value); }
    case Responding(id, u, phone, accept) =>
      if Addressed(c, id, u, phone) && accept {
        var stored := c.(invites := c.invites[id := c.invites[id].(status := Accepted, userId := Some(u))]);
        JoinMoves(stored, u);
        assert Keeps(c, Next(c, s)) || Enters(c, Next(c, s), u) || Returns(c, Next(c, s), u);
      }
    case Leaving(u) => assert Keeps(c, Next(c, s)) || Exits(c, Next(c, s), u);
    case Kicking(u, _) => assert Keeps(c, Next(c, s)) || Exits(c, Next(c, s), u);
    case _ => assert Keeps(c, Next(c, s));
  }

  lemma EntersCounts(c: Community, c': Community, u: UserId)
    requires Enters(c, c', u)
    ensures |Active(c')| == |Active(c)| + 1 && !IsRejoin(c, c')
  {
    assert Active(c') == Active(c) + {u};
  }

  lemma ReturnsCounts(c: Community, c': Community, u: UserId)
    requires Returns(c, c', u)
    ensures |Active(c')| == |Active(c)| + 1 && IsRejoin(c, c')
  {
    assert Active(c') == Active(c) + {u};
  }

  lemma ExitsCounts(c: Community, c': Community, u: UserId)
    requires Exits(c, c', u)
    ensures |Active(c')| == |Active(c)| - 1 && !IsRejoin(c, c')
  {
    assert Active(c') == Active(c) - {u};
  }

  /** The number of active rows moves with the counter, except that a rejoin moves it alone. */
  lemma StepBalances(c: Community, s: Step)
    ensures var c' := Next(c, s);
            |Active(c')| - c'.memberCount == |Active(c)| - c.memberCount + if IsRejoin(c, c') then 1 else 0
  {
    var c' := Next(c, s);
    StepMoves(c, s);
    if u :| Enters(c, c', u) {
      EntersCounts(c, c', u);
    } else if u :| Returns(c, c', u) {
      ReturnsCounts(c, c', u);
    } else if u :| Exits(c, c', u) {
      ExitsCounts(c, c', u);
    } else {
      assert Active(c') == Active(c);
    }
  }

  lemma {:induction false} RunBalances(c: Community, ss: seq<Step>)
    ensures |Active(Run(c, ss))| - Run(c, ss).memberCount == |Active(c)| - c.memberCount + Rejoins(c, ss)
  {
    if ss != [] {
      RunBalances(c, ss[..|ss| - 1]);
      StepBalances(Run(c, ss[..|ss| - 1]), ss[|ss| - 1]);
    }
  }

  /**
   * After any run, the active members are as many as the counter says plus the rejoins of the run: the counter is
   * exact when nobody ever came back, and otherwise too low.
   */
  lemma {:induction false} Ledger(creator: UserId, joinType: Option<JoinType>, ss: seq<Step>)
    ensures var start := Founded(creator, joinType);
            |Active(Run(start, ss))| == Run(start, ss).memberCount + Rejoins(start, ss)
  {
    var start := Founded(creator, joinType);
    assert Active(start) == {creator};
    RunBalances(start, ss);
  }

  ghost predicate RejoinAt(c: Community, ss: seq<Step>, k: nat)
    requires k < |ss|
  {
    IsRejoin(Run(c, ss[..k]), Run(c, ss[..k + 1]))
  }

  /** The rejoins counted are the steps of the run that are rejoins. */
  lemma {:induction false} NoRejoinsIff(c: Community, ss: seq<Step>)
    ensures Rejoins(c, ss) == 0 <==> forall k :: 0 <= k < |ss| ==> !RejoinAt(c, ss, k)
  {
    if ss != [] {
      var n := |ss| - 1;
      var init := ss[..n];
      NoRejoinsIff(c, init);
      forall k | 0 <= k < n
        ensures RejoinAt(c, init, k) == RejoinAt(c, ss, k)
      {
        assert init[..k] == ss[..k] && init[..k + 1] == ss[..k + 1];
      }
      assert ss[..n + 1] == ss;
      assert RejoinAt(c, ss, n) == IsRejoin(Run(c, init), Run(c, ss));
    }
  }

  lemma {:induction false} CreatorStays(c: Community, ss: seq<Step>)
    requires c.creator in Active(c)
    ensures Run(c, ss).creator == c.creator && c.creator in Active(Run(c, ss))
  {
    if ss != [] {
      CreatorStays(c, ss[..|ss| - 1]);
      StepMoves(Run(c, ss[..|ss| - 1]), ss[|ss| - 1]);
    }
  }

  /** The creator's row is active in every reachable state, so there is always at least one member. */
  lemma CreatorAlwaysActive(creator: UserId, joinType: Option<JoinType>, ss: seq<Step>)
    ensures creator in Active(Run(Founded(creator, joinType), ss))
  {
    assert creator in Active(Founded(creator, joinType));
    CreatorStays(Founded(creator, joinType), ss);
  }

  lemma RunSnoc(c: Community, ss: seq<Step>, s: Step)
    ensures Run(c, ss + [s]) == Next(Run(c, ss), s)
  {
    assert (ss + [s])[..|ss|] == ss;
  }

  function Trips(u: UserId, n: nat): seq<Step> {
    if n == 0 then [] else Trips(u, n - 1) + [Leaving(u)] + [Joining(u)]
  }

  lemma TripDrainsOne(c: Community, u: UserId)
    requires c.isActive && c.joinType.Open? && IsActiveMember(c, u) && u != c.creator
    ensures Next(Next(c, Leaving(u)), Joining(u)) == c.(memberCount := c.memberCount - 1)
  {
    var away := Next(c, Leaving(u));
    assert away.members[u := away.members[u].(isActive := true)] == c.members;
  }

  /**
   * The counter drifts without bound: each time a member of an open community leaves and comes back it loses one,
   * with everything else as before. So the counter can go below zero while the member is there.
   */
  lemma {:induction false} TripsDrainCounter(c: Community, u: UserId, n: nat)
    requires c.isActive && c.joinType.Open? && IsActiveMember(c, u) && u != c.creator
    ensures Run(c, Trips(u, n)) == c.(memberCount := c.memberCount - n)
  {
    if n != 0 {
      TripsDrainCounter(c, u, n - 1);
      RunSnoc(c, Trips(u, n - 1) + [Leaving(u)], Joining(u));
      RunSnoc(c, Trips(u, n - 1), Leaving(u));
      TripDrainsOne(Run(c, Trips(u, n - 1)), u);
    }
  }

  // ---- Who may change what -------------------------------------------------------------------------------

  /** The user who makes the request. */
  function Actor(s: Step): UserId {
    match s
    case Updating(userId, _) => userId
    case Removing(userId) => userId
    case Joining(userId) => userId
    case Leaving(userId) => userId
    case Kicking(_, adminId) => adminId
    case Inviting(inviter, _, _, _, _) => inviter
    case Responding(_, userId, _, _) => userId
  }

  function RowOf(c: Community, u: UserId): Option<Member> {
    if u in c.members then Some(c.members[u]) else None
  }

  /** The request adds `u`, the owner of an invited phone, to an open community. */
  predicate Adds(c: Community, s: Step, u: UserId) {
    s.Inviting? && s.owner == Some(u) && c.isActive && c.joinType.Open? && !IsActiveMember(c, u)
  }

  /**
   * A refused request changes nothing, but that an accepted invite is used up. One made by anybody but the creator
   * changes neither the join type nor whether the community is active, and no member row but that user's own and
   * those of owners of invited phones, which it can only make active.
   */
  lemma OnlyCreatorGoverns(c: Community, s: Step)
    ensures Answer(c, s).0.Err? && !(s.Responding? && s.accept) ==> Next(c, s) == c
    ensures Actor(s) != c.creator ==>
              && Next(c, s).joinType == c.joinType && Next(c, s).isActive == c.isActive
              && forall u :: u != Actor(s) && RowOf(Next(c, s), u) != RowOf(c, u) ==> Adds(c, s, u) && IsActiveMember(Next(c, s), u)
  {
  }

  // ---- Invites -------------------------------------------------------------------------------------------

  /** No phone has two pending invites. */
  ghost predicate OnePending(c: Community) {
    forall i, j :: i in c.invites && j in c.invites && BothPending(c.invites[i], c.invites[j]) ==> i == j
  }

  predicate BothPending(a: Invite, b: Invite) {
    a.status.Pending? && b.status.Pending? && a.phone == b.phone
  }

  /** An answered invite never changes again. */
  ghost predicate KeepsAnswered(c: Community, c': Community) {
    forall i :: i in c.invites && !c.invites[i].status.Pending? ==> i in c'.invites && c'.invites[i] == c.invites[i]
  }

  lemma StepKeepsInvites(c: Community, s: Step)
    ensures OnePending(c) ==> OnePending(Next(c, s))
    ensures KeepsAnswered(c, Next(c, s))
  {
  }

  /** In every reachable state each phone has at most one pending invite to the community. */
  lemma {:induction false} AtMostOnePending(creator: UserId, joinType: Option<JoinType>, ss: seq<Step>)
    ensures OnePending(Run(Founded(creator, joinType), ss))
  {
    if ss != [] {
      AtMostOnePending(creator, joinType, ss[..|ss| - 1]);
      StepKeepsInvites(Run(Founded(creator, joinType), ss[..|ss| - 1]), ss[|ss| - 1]);
    }
  }

  lemma {:induction false} AnsweredStaysAnswered(c: Community, ss: seq<Step>)
    ensures KeepsAnswered(c, Run(c, ss))
  {
    if ss != [] {
      AnsweredStaysAnswered(c, ss[..|ss| - 1]);
      StepKeepsInvites(Run(c, ss[..|ss| - 1]), ss[|ss| - 1]);
    }
  }

  /**
   * Accepting an invite ends in an active membership exactly when the community is active and open, or the user
   * was a member already. The invite is used up in every case: no later answer to it is taken.
   */
  lemma AcceptMakesMemberIff(c: Community, id: InviteId, u: UserId, phone: Phone, later: seq<Step>)
    requires Addressed(c, id, u, phone)
    ensures var c' := Respond(c, id, u, phone, true).1;
            && (u in Active(c') <==> (c.isActive && c.joinType.Open?) || u in Active(c))
            && (Respond(c, id, u, phone, true).0.Ok? <==> c.isActive && c.joinType.Open? && u !in Active(c))
            && forall v, p, accept :: Respond(Run(c', later), id, v, p, accept) == (Err(InviteNotFound), Run(c', later))
  {
    var c' := Respond(c, id, u, phone, true).1;
    assert id in c'.invites && c'.invites[id].status.Accepted?;
    AnsweredStaysAnswered(c', later);
  }

  ghost predicate InviteOnlyThroughout(c: Community, ss: seq<Step>) {
    forall k :: 0 <= k < |ss| ==> Run(c, ss[..k]).joinType.InviteOnly?
  }

  /** As long as a community stays invite-only nobody becomes a member of it, invited or not. */
  lemma {:induction false} InviteOnlyAdmitsNobody(c: Community, ss: seq<Step>)
    requires InviteOnlyThroughout(c, ss)
    ensures Active(Run(c, ss)) <= Active(c)
  {
    if ss != [] {
      var init, last := ss[..|ss| - 1], ss[|ss| - 1];
      forall k | 0 <= k < |init|
        ensures Run(c, init[..k]).joinType.InviteOnly?
      {
        assert init[..k] == ss[..k];
      }
      InviteOnlyAdmitsNobody(c, init);
      assert Run(c, ss[..|init|]).joinType.InviteOnly?;
      ClosedStep(Run(c, init), last);
    }
  }

  lemma ClosedStep(c: Community, s: Step)
    requires c.joinType.InviteOnly?
    ensures Active(Next(c, s)) <= Active(c)
  {
  }

  // ---- The whole loop ------------------------------------------------------------------------------------

  /** The user with this phone; phones are unique. */
  ghost function Owner(users: map<UserId, Phone>, phone: Phone): (o: Option<UserId>)
    ensures o.Some? ==> o.value in users && users[o.value] == phone
  {
    if u :| u in users && users[u] == phone then Some(u) else None
  }

  /** The rounds of one call to `invite`. */
  ghost function Rounds(users: map<UserId, Phone>, inviter: UserId, phones: seq<Phone>, sawOpen: bool, ids: seq<InviteId>): (r: seq<Step>)
    requires |ids| == |phones|
    ensures |r| == |phones|
  {
    seq(|phones|, i requires 0 <= i < |phones| => Inviting(inviter, phones[i], Owner(users, phones[i]), sawOpen, ids[i]))
  }

  /** How many steps of a run got a given reply. */
  ghost function Tally(c: Community, ss: seq<Step>, reply: Reply): nat {
    if ss == [] then 0
    else Tally(c, ss[..|ss| - 1], reply) + if Answer(Run(c, ss[..|ss| - 1]), ss[|ss| - 1]).0 == Ok(reply) then 1 else 0
  }

  /** The unique phone column of the users table. */
  ghost predicate PhonesUnique(users: map<UserId, Phone>) {
    forall u, v :: u in users && v in users && users[u] == users[v] ==> u == v
  }

  /** The phones that need no invitation: those of the active members and those with a pending invite. */
  ghost function Covered(c: Community, users: map<UserId, Phone>): set<Phone> {
    (set u | u in Active(c) && u in users :: users[u]) + (set i | i in PendingIds(c) :: c.invites[i].phone)
  }

  ghost predicate NeedsNone(c: Community, users: map<UserId, Phone>, phone: Phone) {
    || (Owner(users, phone).Some? && IsActiveMember(c, Owner(users, phone).value))
    || HasPending(c, phone)
  }

  lemma CoveredIff(c: Community, users: map<UserId, Phone>, phone: Phone)
    requires PhonesUnique(users)
    ensures phone in Covered(c, users) <==> NeedsNone(c, users, phone)
  {
    var o := Owner(users, phone);
    if u :| u in Active(c) && u in users && users[u] == phone {
      assert o == Some(u);
    }
    if i :| i in c.invites && c.invites[i].phone == phone && c.invites[i].status.Pending? {
      assert i in PendingIds(c);
    }
  }

  ghost function PhoneSet(phones: seq<Phone>): set<Phone> {
    set p | p in phones
  }

  function PendingIds(c: Community): set<InviteId> {
    set i | i in c.invites && c.invites[i].status.Pending?
  }

  /** A call that runs undisturbed: the community is active, and open or not as the call saw it. */
  ghost predicate Undisturbed(c: Community, sawOpen: bool) {
    c.isActive && (c.joinType.Open? <==> sawOpen)
  }

  /** What one round does to who is covered. */
  ghost predicate RoundResult(c: Community, c': Community, users: map<UserId, Phone>, phone: Phone, reply: Reply) {
    && reply != Done
    && (reply == Invited <==> phone !in Covered(c, users))
    && Total(c') == Total(c) + (if reply == Invited then 1 else 0)
    && Grows(c, c')
    && Covered(c', users) == Covered(c, users) + {phone}
  }

  /** The pending invites and the active members. */
  function Total(c: Community): nat {
    |PendingIds(c)| + |Active(c)|
  }

  ghost predicate Grows(c: Community, c': Community) {
    PendingIds(c) <= PendingIds(c') && Active(c) <= Active(c')
  }

  lemma JoinEffect(c: Community, u: UserId)
    requires c.isActive && c.joinType.Open? && u !in Active(c)
    ensures var c' := Join(c, u).1;
            Join(c, u).0.Ok? && c'.invites == c.invites && Active(c') == Active(c) + {u} && PendingIds(c') == PendingIds(c)
  {
    assert Active(Join(c, u).1) == Active(c) + {u};
  }

  lemma CoveredAfterJoin(c: Community, c': Community, users: map<UserId, Phone>, u: UserId)
    requires PendingIds(c') == PendingIds(c) && c'.invites == c.invites && Active(c') == Active(c) + {u} && u in users
    ensures Covered(c', users) == Covered(c, users) + {users[u]}
  {
  }

  lemma JoinRound(c: Community, users: map<UserId, Phone>, u: UserId)
    requires c.isActive && c.joinType.Open? && u in users && users[u] !in Covered(c, users)
    ensures Join(c, u).0.Ok? && RoundResult(c, Join(c, u).1, users, users[u], Invited)
  {
    assert u !in Active(c);
    JoinEffect(c, u);
    CoveredAfterJoin(c, Join(c, u).1, users, u);
  }

  lemma WriteEffect(c: Community, c': Community, id: InviteId, invite: Invite)
    requires c' == c.(invites := c.invites[id := invite]) && id !in c.invites && invite.status.Pending?
    ensures Active(c') == Active(c) && PendingIds(c') == PendingIds(c) + {id} && id !in PendingIds(c)
  {
  }

  lemma CoveredAfterWrite(c: Community, c': Community, users: map<UserId, Phone>, id: InviteId, phone: Phone)
    requires Active(c') == Active(c) && PendingIds(c') == PendingIds(c) + {id} && id !in PendingIds(c)
    requires c'.invites[id].phone == phone && forall i :: i in PendingIds(c) ==> c'.invites[i].phone == c.invites[i].phone
    ensures Covered(c', users) == Covered(c, users) + {phone}
  {
    assert id in PendingIds(c');
    assert forall i :: i in PendingIds(c) ==> i in PendingIds(c');
  }

  lemma WriteRound(c: Community, users: map<UserId, Phone>, id: InviteId, invite: Invite)
    requires invite.phone !in Covered(c, users) && id !in c.invites && invite.status.Pending?
    ensures RoundResult(c, c.(invites := c.invites[id := invite]), users, invite.phone, Invited)
  {
    var c' := c.(invites := c.invites[id := invite]);
    WriteEffect(c, c', id, invite);
    CoveredAfterWrite(c, c', users, id, invite.phone);
  }

  lemma RoundCovers(c: Community, users: map<UserId, Phone>, s: Step)
    requires s.Inviting? && s.owner == Owner(users, s.phone)
    requires PhonesUnique(users) && Undisturbed(c, s.sawOpen) && s.id !in c.invites
    ensures Answer(c, s).0.Ok? && RoundResult(c, Next(c, s), users, s.phone, Answer(c, s).0.value)
  {
    CoveredIff(c, users, s.phone);
    if s.phone in Covered(c, users) {
      assert Covered(c, users) == Covered(c, users) + {s.phone};
    } else if s.sawOpen && s.owner.Some? {
      JoinRound(c, users, s.owner.value);
    } else {
      WriteRound(c, users, s.id, Invite(s.phone, s.owner, s.inviter, Pending));
    }
  }

  lemma RoundSucceeds(c: Community, inviter: UserId, phone: Phone, owner: Option<UserId>, sawOpen: bool, id: InviteId)
    requires Undisturbed(c, sawOpen) && id !in c.invites
    ensures var outcome := InviteOne(c, inviter, phone, owner, sawOpen, id).0; outcome.Ok? && outcome.value != Done
  {
  }

  ghost predicate OnlyAdds(c: Community, c': Community, ids: seq<InviteId>) {
    forall i :: i in c'.invites ==> i in c.invites || i in ids
  }

  lemma RoundStaysUndisturbed(c: Community, mid: Community, inviter: UserId, phone: Phone, owner: Option<UserId>, sawOpen: bool,
                              ids: seq<InviteId>, id: InviteId)
    requires Undisturbed(mid, sawOpen) && OnlyAdds(c, mid, ids)
    ensures var c' := Next(mid, Inviting(inviter, phone, owner, sawOpen, id)); Undisturbed(c', sawOpen) && OnlyAdds(c, c', ids + [id])
  {
    assert id in ids + [id];
  }

  lemma {:induction false} CallStaysUndisturbed(c: Community, users: map<UserId, Phone>, inviter: UserId, phones: seq<Phone>,
                                                sawOpen: bool, ids: seq<InviteId>)
    requires Undisturbed(c, sawOpen) && |ids| == |phones|
    ensures var c' := Run(c, Rounds(users, inviter, phones, sawOpen, ids)); Undisturbed(c', sawOpen) && OnlyAdds(c, c', ids)
    decreases |phones|
  {
    if phones != [] {
      var n := |phones| - 1;
      var init := Rounds(users, inviter, phones[..n], sawOpen, ids[..n]);
      CallStaysUndisturbed(c, users, inviter, phones[..n], sawOpen, ids[..n]);
      RoundsSnoc(users, inviter, phones, sawOpen, ids);
      RunSnoc(c, init, Inviting(inviter, phones[n], Owner(users, phones[n]), sawOpen, ids[n]));
      RoundStaysUndisturbed(c, Run(c, init), inviter, phones[n], Owner(users, phones[n]), sawOpen, ids[..n], ids[n]);
      assert ids[..n] + [ids[n]] == ids;
    }
  }

  /** After the call: what the three counters of the reply say, and who is covered. */
  ghost predicate LoopResult(c: Community, c': Community, users: map<UserId, Phone>, phones: seq<Phone>,
                             invited: nat, alreadyMembers: nat, alreadyInvited: nat) {
    && invited + alreadyMembers + alreadyInvited == |phones|
    && invited == Total(c') - Total(c)
    && Grows(c, c')
    && LoopCovers(Covered(c, users), Covered(c', users), PhoneSet(phones), invited)
  }

  /** Exactly the listed phones are newly covered, and `invited` counts them once each. */
  ghost predicate LoopCovers(before: set<Phone>, after: set<Phone>, listed: set<Phone>, invited: nat) {
    after == before + listed && invited == |listed - before|
  }

  function Count(reply: Reply, expected: Reply): nat {
    if reply == expected then 1 else 0
  }

  lemma LoopContinues(c: Community, mid: Community, c': Community, users: map<UserId, Phone>, phones: seq<Phone>, phone: Phone,
                      reply: Reply, invited: nat, alreadyMembers: nat, alreadyInvited: nat)
    requires LoopResult(c, mid, users, phones, invited, alreadyMembers, alreadyInvited)
    requires RoundResult(mid, c', users, phone, reply)
    ensures LoopResult(c, c', users, phones + [phone], invited + Count(reply, Invited),
                       alreadyMembers + Count(reply, AlreadyMember), alreadyInvited + Count(reply, AlreadyInvited))
  {
    PhoneSetSnoc(phones, phone);
    OneMorePhone(Covered(c, users), Covered(mid, users), PhoneSet(phones), invited, phone);
  }

  lemma PhoneSetSnoc(phones: seq<Phone>, phone: Phone)
    ensures PhoneSet(phones + [phone]) == PhoneSet(phones) + {phone}
  {
  }

  lemma OneMorePhone(before: set<Phone>, after: set<Phone>, listed: set<Phone>, invited: nat, phone: Phone)
    requires LoopCovers(before, after, listed, invited)
    ensures LoopCovers(before, after + {phone}, listed + {phone}, if phone in after then invited else invited + 1)
  {
    assert before + (listed + {phone}) == (before + listed) + {phone};
    if phone in after {
      assert (listed + {phone}) - before == listed - before;
    } else {
      assert (listed + {phone}) - before == (listed - before) + {phone};
    }
  }

  /** The steps of a call, with the counters it returns. */
  ghost predicate Conserves(c: Community, users: map<UserId, Phone>, phones: seq<Phone>, ss: seq<Step>) {
    LoopResult(c, Run(c, ss), users, phones, Tally(c, ss, Invited), Tally(c, ss, AlreadyMember), Tally(c, ss, AlreadyInvited))
  }

  lemma TallySnoc(c: Community, ss: seq<Step>, s: Step, reply: Reply)
    ensures Tally(c, ss + [s], reply) == Tally(c, ss, reply) + if Answer(Run(c, ss), s).0 == Ok(reply) then 1 else 0
  {
    assert (ss + [s])[..|ss|] == ss;
  }

  lemma RoundExtends(c: Community, users: map<UserId, Phone>, phones: seq<Phone>, ss: seq<Step>, s: Step)
    requires PhonesUnique(users) && Conserves(c, users, phones, ss)
    requires s.Inviting? && s.owner == Owner(users, s.phone)
    requires Undisturbed(Run(c, ss), s.sawOpen) && s.id !in Run(c, ss).invites
    ensures Conserves(c, users, phones + [s.phone], ss + [s])
  {
    RunSnoc(c, ss, s);
    TallySnoc(c, ss, s, Invited);
    TallySnoc(c, ss, s, AlreadyMember);
    TallySnoc(c, ss, s, AlreadyInvited);
    RoundCovers(Run(c, ss), users, s);
    LoopContinues(c, Run(c, ss), Run(c, ss + [s]), users, phones, s.phone, Answer(Run(c, ss), s).0.value,
                  Tally(c, ss, Invited), Tally(c, ss, AlreadyMember), Tally(c, ss, AlreadyInvited));
  }

  lemma RoundsSnoc(users: map<UserId, Phone>, inviter: UserId, phones: seq<Phone>, sawOpen: bool, ids: seq<InviteId>)
    requires |ids| == |phones| > 0
    ensures var n := |phones| - 1;
            Rounds(users, inviter, phones, sawOpen, ids) ==
            Rounds(users, inviter, phones[..n], sawOpen, ids[..n]) + [Inviting(inviter, phones[n], Owner(users, phones[n]), sawOpen, ids[n])]
  {
  }

  /**
   * The loop of `invite` conserves its input, duplicates included: every phone is counted once as invited, already
   * a member or already invited; the invited ones are the new pending invites and the new active members; they are
   * as many as the distinct phones that needed an invitation; and afterwards every phone of the list is covered.
   */
  lemma {:induction false} InviteConserves(c: Community, users: map<UserId, Phone>, inviter: UserId, phones: seq<Phone>,
                                           sawOpen: bool, ids: seq<InviteId>)
    requires PhonesUnique(users) && Undisturbed(c, sawOpen)
    requires |ids| == |phones| && NoDuplicates(ids) && forall i :: 0 <= i < |ids| ==> ids[i] !in c.invites
    ensures Conserves(c, users, phones, Rounds(users, inviter, phones, sawOpen, ids))
    decreases |phones|
  {
    if phones == [] {
      assert PhoneSet(phones) == {};
    } else {
      var n := |phones| - 1;
      assert phones == phones[..n] + [phones[n]];
      RoundsSnoc(users, inviter, phones, sawOpen, ids);
      InviteConserves(c, users, inviter, phones[..n], sawOpen, ids[..n]);
      CallStaysUndisturbed(c, users, inviter, phones[..n], sawOpen, ids[..n]);
      RoundExtends(c, users, phones[..n], Rounds(users, inviter, phones[..n], sawOpen, ids[..n]),
                   Inviting(inviter, phones[n], Owner(users, phones[n]), sawOpen, ids[n]));
    }
  }
}
