/**
 * The rules of a community, apart from the code that applies them: who becomes a member and who ceases to be one, who
 * is invited and who may answer, and with which answer a request is refused. Each rule is an exact condition on the
 * fields of the community, over all kinds of request at once.
 */
module CommunityRules {
  import opened Common
  import opened CommunityLedger
  import opened CommunityStore

  // ---- Invites -------------------------------------------------------------------------------------------

  /** The invite is still open, and it names the user or the phone that the user has. */
  predicate MayAnswer(c: Community, id: InviteId, u: UserId, phone: Phone) {
    && id in c.invites && c.invites[id].status == Pending
    && (c.invites[id].userId == Some(u) || c.invites[id].phone == phone)
  }

  /** The invite after this answer: it keeps its phone and inviter, and is now that of the user who answered. */
  predicate AnsweredBy(before: Invite, after: Invite, u: UserId, accept: bool) {
    after == Invite(before.phone, Some(u), before.invitedBy, if accept then Accepted else Rejected)
  }

  /** An invite is never lost, and changes by the answer of somebody who may answer it and by nothing else. */
  lemma InviteChangesIff(c: Community, s: Step, i: InviteId)
    requires i in c.invites
    ensures var c' := Next(c, s);
            var answered := s.Responding? && s.id == i && MayAnswer(c, i, s.userId, s.phone);
            && i in c'.invites
            && (if answered then AnsweredBy(c.invites[i], c'.invites[i], s.userId, s.accept) else c'.invites[i] == c.invites[i])
  {
  }

  /** An answer of anybody else, or to an invite that is not open, is refused and changes nothing. */
  lemma OthersAnswersRefused(c: Community, i: InviteId, u: UserId, phone: Phone, accept: bool)
    ensures !MayAnswer(c, i, u, phone) ==> Respond(c, i, u, phone, accept) == (Err(InviteNotFound), c)
    ensures MayAnswer(c, i, u, phone) && !accept ==>
              Respond(c, i, u, phone, accept).0 == Ok(Done) && Respond(c, i, u, phone, accept).1.members == c.members
  {
  }

  ghost predicate AnswersAt(c: Community, ss: seq<Step>, k: nat, i: InviteId)
    requires k < |ss|
  {
    ss[k].Responding? && ss[k].id == i && MayAnswer(Run(c, ss[..k]), i, ss[k].userId, ss[k].phone)
  }

  /**
   * Over any run an invite either stays as it was, or some request of the run answered it, made by a user whom it named
   * or whose phone it named; and it then holds that user's answer until the end.
   */
  lemma {:induction false} AnsweredByItsAddressee(c: Community, ss: seq<Step>, i: InviteId)
    requires i in c.invites
    ensures i in Run(c, ss).invites
    ensures Run(c, ss).invites[i] == c.invites[i] || exists k :: 0 <= k < |ss| && AnswersAt(c, ss, k, i)
    ensures forall k :: 0 <= k < |ss| && AnswersAt(c, ss, k, i) ==>
              AnsweredBy(c.invites[i], Run(c, ss).invites[i], ss[k].userId, ss[k].accept)
  {
    if ss != [] {
      var n := |ss| - 1;
      var init := ss[..n];
      AnsweredByItsAddressee(c, init, i);
      InviteChangesIff(Run(c, init), ss[n], i);
      forall k | 0 <= k < n
        ensures AnswersAt(c, init, k, i) == AnswersAt(c, ss, k, i)
      {
        assert init[..k] == ss[..k];
      }
      assert AnswersAt(c, ss, n, i) <==> ss[n].Responding? && ss[n].id == i && MayAnswer(Run(c, init), i, ss[n].userId, ss[n].phone);
      forall k | 0 <= k < |ss| && AnswersAt(c, ss, k, i)
        ensures AnsweredBy(c.invites[i], Run(c, ss).invites[i], ss[k].userId, ss[k].accept)
      {
        if k < n {
          assert AnswersAt(c, init, k, i);
        } else {
          assert forall j :: 0 <= j < n ==> !AnswersAt(c, init, j, i);
        }
      }
      if Run(c, ss).invites[i] != c.invites[i] && !AnswersAt(c, ss, n, i) {
        var k :| 0 <= k < n && AnswersAt(c, init, k, i);
        assert AnswersAt(c, ss, k, i);
      }
    }
  }

  predicate ActiveRow(c: Community, u: UserId) {
    u in c.members && c.members[u].isActive
  }

  predicate Invitable(c: Community, phone: Phone, owner: Option<UserId>) {
    && (owner.Some? ==> !ActiveRow(c, owner.value))
    && forall i :: i in c.invites && c.invites[i].phone == phone ==> c.invites[i].status != Pending
  }

  /** An invite is written for a phone whose owner is no member and which has no open invite, unless the owner joins at once. */
  lemma InviteWrittenIff(c: Community, s: Step, i: InviteId)
    requires i !in c.invites
    ensures var c' := Next(c, s);
            && (i in c'.invites <==> s.Inviting? && s.id == i && Invitable(c, s.phone, s.owner) && !(s.sawOpen && s.owner.Some?))
            && (i in c'.invites ==> c'.invites[i] == Invite(s.phone, s.owner, s.inviter, Pending) && c'.members == c.members)
  {
  }

  // ---- Members -------------------------------------------------------------------------------------------

  /** The request is one to let this user in: the user's own, an invitation that adds at once, or an accepted invite. */
  predicate Asks(c: Community, s: Step, u: UserId) {
    || (s.Joining? && s.userId == u)
    || (s.Inviting? && s.owner == Some(u) && s.sawOpen && Invitable(c, s.phone, s.owner))
    || (s.Responding? && s.userId == u && s.accept && MayAnswer(c, s.id, u, s.phone))
  }

  predicate ComesIn(c: Community, s: Step, u: UserId) {
    !ActiveRow(c, u) && Asks(c, s, u) && c.isActive && c.joinType == Open
  }

  /** The user leaves or the creator throws the user out; never the creator. */
  predicate GoesOut(c: Community, s: Step, u: UserId) {
    && ActiveRow(c, u) && u != c.creator && c.isActive
    && ((s.Leaving? && s.userId == u) || (s.Kicking? && s.target == u && s.adminId == c.creator))
  }

  /** These are the only ways in and out, and no row changes otherwise. A returning member keeps the role and is not counted. */
  lemma MembershipChangesIff(c: Community, s: Step, u: UserId)
    ensures var c' := Next(c, s);
            && (!ActiveRow(c, u) && ActiveRow(c', u) <==> ComesIn(c, s, u))
            && (ActiveRow(c, u) && !ActiveRow(c', u) <==> GoesOut(c, s, u))
            && (ComesIn(c, s, u) ==>
                  && c'.members[u].role == (if u in c.members then c.members[u].role else Ordinary)
                  && c'.memberCount == (if u in c.members then c.memberCount else c.memberCount + 1))
            && (GoesOut(c, s, u) ==> c'.members[u].role == c.members[u].role && c'.memberCount == c.memberCount - 1)
            && (!ComesIn(c, s, u) && !GoesOut(c, s, u) ==> RowOf(c', u) == RowOf(c, u))
  {
  }

  /** Over any run: who is a member at the end and was none before came in on the way, while the community was open. */
  lemma {:induction false} EveryoneCameIn(c: Community, ss: seq<Step>, u: UserId)
    requires !ActiveRow(c, u) && ActiveRow(Run(c, ss), u)
    ensures exists k :: 0 <= k < |ss| && ComesIn(Run(c, ss[..k]), ss[k], u)
  {
    var n := |ss| - 1;
    if ActiveRow(Run(c, ss[..n]), u) {
      EveryoneCameIn(c, ss[..n], u);
      var k :| 0 <= k < n && ComesIn(Run(c, ss[..n][..k]), ss[..n][k], u);
      assert ss[..n][..k] == ss[..k];
      assert ComesIn(Run(c, ss[..k]), ss[k], u);
    } else {
      MembershipChangesIff(Run(c, ss[..n]), ss[n], u);
    }
  }

  // ---- The community -------------------------------------------------------------------------------------

  /** The join type changes by an edit of the creator, and the community ends when the creator removes it, for good. */
  lemma TermsChangeIff(c: Community, s: Step)
    ensures var c' := Next(c, s);
            && c'.creator == c.creator
            && c'.joinType == (if s.Updating? && s.userId == c.creator && c.isActive && s.joinType.Some? then s.joinType.value else c.joinType)
            && c'.isActive == (c.isActive && !(s.Removing? && s.userId == c.creator))
  {
  }

  ghost predicate RemovedAt(c: Community, ss: seq<Step>, k: nat)
    requires k < |ss|
  {
    ss[k].Removing? && ss[k].userId == c.creator
  }

  /** Over any run a community is there exactly until its creator removes it, and never again. */
  lemma {:induction false} ActiveIff(c: Community, ss: seq<Step>)
    ensures Run(c, ss).creator == c.creator
    ensures Run(c, ss).isActive <==> c.isActive && forall k :: 0 <= k < |ss| ==> !RemovedAt(c, ss, k)
  {
    if ss != [] {
      var n := |ss| - 1;
      var init := ss[..n];
      ActiveIff(c, init);
      TermsChangeIff(Run(c, init), ss[n]);
      assert forall k :: 0 <= k < n ==> RemovedAt(c, init, k) == RemovedAt(c, ss, k);
      assert RemovedAt(c, ss, n) <==> ss[n].Removing? && ss[n].userId == c.creator;
    }
  }

  // ---- Refusals ------------------------------------------------------------------------------------------

  function JoinChecks(c: Community, u: UserId): seq<Check<Problem>> {
    [Check(!c.isActive, CommunityNotFound), Check(c.joinType != Open, InviteRequired), Check(ActiveRow(c, u), MemberAlready)]
  }

  /** What each kind of request is checked for, in this order. */
  function Checks(c: Community, s: Step): seq<Check<Problem>> {
    match s
    case Updating(u, _) => [Check(!c.isActive, CommunityNotFound), Check(u != c.creator, NotAdmin)]
    case Removing(u) => [Check(!c.isActive, CommunityNotFound), Check(u != c.creator, NotAdmin)]
    case Joining(u) => JoinChecks(c, u)
    case Leaving(u) =>
      [Check(!c.isActive, CommunityNotFound), Check(u == c.creator, CreatorCannotLeave), Check(!ActiveRow(c, u), NotAMember)]
    case Kicking(u, adminId) =>
      [Check(!c.isActive, CommunityNotFound), Check(adminId != c.creator, NotAdmin), Check(u == c.creator, CannotKickCreator),
       Check(!ActiveRow(c, u), MemberNotFound)]
    case Inviting(_, phone, owner, sawOpen, id) =>
      if !Invitable(c, phone, owner) then []
      else if sawOpen && owner.Some? then JoinChecks(c, owner.value)
      else [Check(id in c.invites, DuplicateKey)]
    case Responding(id, u, phone, accept) =>
      [Check(!MayAnswer(c, id, u, phone), InviteNotFound)] + if accept then JoinChecks(c, u) else []
  }

  /** The answer to a request that passes its checks. */
  function Reward(c: Community, s: Step): Reply {
    if !s.Inviting? then Done
    else if s.owner.Some? && ActiveRow(c, s.owner.value) then AlreadyMember
    else if Invitable(c, s.phone, s.owner) then Invited
    else AlreadyInvited
  }

  /** A request is refused for the first check that it fails; and then nothing changes, but that an accepted invite is used up. */
  lemma RefusedIff(c: Community, s: Step)
    ensures var error := First(Checks(c, s));
            && Answer(c, s).0 == (if error.Some? then Err(error.value) else Ok(Reward(c, s)))
            && (error.Some? ==> Next(c, s).members == c.members && Next(c, s).memberCount == c.memberCount)
            && (error.Some? && !(s.Responding? && s.accept && error.value != InviteNotFound) ==> Next(c, s) == c)
  {
    FirstOfSix(Checks(c, s));
  }

  /** The answer to a request about the community with this id. */
  function Verdict(communities: Communities, id: CommunityId, s: Step): Outcome {
    if id !in communities then Err(CommunityNotFound)
    else
      var error := First(Checks(communities[id], s));
      if error.Some? then Err(error.value) else Ok(Reward(communities[id], s))
  }

  lemma ServedByTheRules(communities: Communities, id: CommunityId, s: Step)
    ensures Serve(communities, id, s).0 == Verdict(communities, id, s)
    ensures Serve(communities, id, s).0.Err? && !s.Responding? ==> Serve(communities, id, s).1 == communities
  {
    if id in communities {
      RefusedIff(communities[id], s);
      assert communities[id := communities[id]] == communities;
    }
  }

  /** What the answer `r` to an invite of community `id`, once `c`, has come to. */
  ghost predicate AnsweredWell(c: Community, after: Communities, id: CommunityId, inviteId: InviteId, u: UserId, phone: Phone,
                               accept: bool, r: Outcome) {
    && inviteId in c.invites && id in after
    && var invite, c' := c.invites[inviteId], after[id];
       var heard := invite.status == Pending && (invite.userId == Some(u) || invite.phone == phone);
       && (r == Err(InviteNotFound) <==> !heard)
       && (!heard ==> c' == c)
       && (heard ==> c'.invites == c.invites[inviteId := Invite(invite.phone, Some(u), invite.invitedBy, if accept then Accepted else Rejected)])
       && (heard && !accept ==> r == Ok(Done) && c'.members == c.members)
       && (heard && accept ==> (r.Ok? <==> c.isActive && c.joinType == Open && !ActiveRow(c, u)))
       && (heard && accept && r.Ok? ==> ActiveRow(c', u))
  }

  lemma RespondsWell(communities: Communities, id: CommunityId, inviteId: InviteId, u: UserId, phone: Phone, accept: bool)
    requires Holds(communities, id, inviteId)
    ensures var (r, c') := Respond(communities[id], inviteId, u, phone, accept);
            AnsweredWell(communities[id], communities[id := c'], id, inviteId, u, phone, accept, r)
  {
  }
}
