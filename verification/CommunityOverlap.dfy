/**
 * What overlap breaks in a community, and when: the ledger, the single pending invite and the single answer hold in
 * every run exactly when requests do not overlap, and a community that turns invite-only shuts everybody out exactly
 * when no join has passed its check.
 */
module CommunityOverlap {
  import opened Common
  import opened CommunityLedger
  import opened CommunityRaces

  // ---- Runs that overlap ---------------------------------------------------------------------------------

  const FOUNDED := Founded(0, Some(Open))

  /** User 1 is a member. */
  const JOINED := FOUNDED.(members := FOUNDED.members[1 := Member(Ordinary, true)], memberCount := 2)

  const NONE: map<CallId, Pending> := map[]

  function Rest(c: Community, calls: map<CallId, Pending>): State {
    State(c, calls, 0, 0, 0)
  }

  lemma JoinSteps()
    ensures var look := Look(1, Joining(1)); Enabled(Start(0, Some(Open)), look) && Move(Start(0, Some(Open)), look) == Rest(FOUNDED, NONE[1 := Entering(1)])
    ensures Move(Rest(FOUNDED, NONE[1 := Entering(1)]), Go(1)) == Rest(JOINED, NONE)
  {
    UpdateThenRemove(NONE, 1, Entering(1));
  }

  lemma JoinRuns() returns (es: seq<Event>)
    ensures Leads(Start(0, Some(Open)), es, Rest(JOINED, NONE), 2)
  {
    var s := Start(0, Some(Open));
    JoinSteps();
    Extend(s, [], s, Look(1, Joining(1)), Rest(FOUNDED, NONE[1 := Entering(1)]), 2);
    Extend(s, [] + [Look(1, Joining(1))], Rest(FOUNDED, NONE[1 := Entering(1)]), Go(1), Rest(JOINED, NONE), 2);
    es := [] + [Look(1, Joining(1))] + [Go(1)];
  }

  /** Two requests that look before either writes. */
  lemma BothLook(s: State, es: seq<Event>, t: State, a: Step, b: Step) returns (more: seq<Event>)
    requires Leads(s, es, t, 2) && t.calls == map[] && Looked(t.community, a).Some? && Looked(t.community, b).Some?
    ensures Leads(s, more, t.(calls := map[1 := Looked(t.community, a).value, 2 := Looked(t.community, b).value]), 2)
  {
    var p, q := Looked(t.community, a).value, Looked(t.community, b).value;
    var one, two := t.(calls := NONE[1 := p]), t.(calls := NONE[1 := p][2 := q]);
    assert t.calls == NONE;
    Extend(s, es, t, Look(1, a), one, 2);
    Extend(s, es + [Look(1, a)], one, Look(2, b), two, 2);
    assert two.calls == map[1 := p, 2 := q];
    more := es + [Look(1, a)] + [Look(2, b)];
  }

  const GONE := Deactivate(JOINED, 1)

  lemma LeaveAndKickLook()
    ensures Looked(JOINED, Leaving(1)) == Some(Departing(1)) && Looked(JOINED, Kicking(1, 0)) == Some(Departing(1))
  {
  }

  lemma LeaveAndKickWrite()
    ensures var s := Rest(JOINED, map[1 := Departing(1), 2 := Departing(1)]);
            && Move(s, Go(1)) == Rest(GONE, map[2 := Departing(1)])
            && Move(Rest(GONE, map[2 := Departing(1)]), Go(2)) == State(Deactivate(GONE, 1), NONE, 0, 1, 0)
  {
    assert map[1 := Departing(1), 2 := Departing(1)] - {1} == map[2 := Departing(1)];
    assert map[2 := Departing(1)] - {2} == NONE;
  }

  lemma OnlyCreatorLeft()
    ensures Deactivate(GONE, 1).memberCount == 0 && Active(Deactivate(GONE, 1)) == {0}
    ensures SET_BACK.memberCount == 2 && Active(SET_BACK) == {0}
  {
  }

  /** A member who leaves while being kicked is counted down twice: one active member, the creator, and a counter of 0. */
  lemma DepartsTwice() returns (es: seq<Event>)
    ensures Leads(Start(0, Some(Open)), es, State(Deactivate(GONE, 1), NONE, 0, 1, 0), 2)
    ensures Deactivate(GONE, 1).memberCount == 0 && Active(Deactivate(GONE, 1)) == {0}
  {
    var s := Start(0, Some(Open));
    var join := JoinRuns();
    OnlyCreatorLeft();
    LeaveAndKickLook();
    var look := BothLook(s, join, Rest(JOINED, NONE), Leaving(1), Kicking(1, 0));
    LeaveAndKickWrite();
    Extend(s, look, Rest(JOINED, map[1 := Departing(1), 2 := Departing(1)]), Go(1), Rest(GONE, map[2 := Departing(1)]), 2);
    Extend(s, look + [Go(1)], Rest(GONE, map[2 := Departing(1)]), Go(2), State(Deactivate(GONE, 1), NONE, 0, 1, 0), 2);
    es := look + [Go(1)] + [Go(2)];
  }

  const READ_TWO := Saving(Columns(true, Open, 2))

  const SET_BACK := GONE.(memberCount := 2)

  lemma SaveAndLeaveLook()
    ensures Looked(JOINED, Updating(0, None)) == Some(READ_TWO) && Looked(JOINED, Leaving(1)) == Some(Departing(1))
  {
  }

  lemma SaveAndLeaveWrite()
    ensures var s := Rest(JOINED, map[1 := READ_TWO, 2 := Departing(1)]);
            && Move(s, Go(2)) == Rest(GONE, map[1 := READ_TWO])
            && Move(Rest(GONE, map[1 := READ_TWO]), Go(1)) == State(SET_BACK, NONE, 0, 0, -1)
  {
    assert map[1 := READ_TWO, 2 := Departing(1)] - {2} == map[1 := READ_TWO];
    assert map[1 := READ_TWO] - {1} == NONE;
  }

  /** An `update` under way while a member leaves writes the old counter back: 2, with one active member. */
  lemma SavesOldCounter() returns (es: seq<Event>)
    ensures Leads(Start(0, Some(Open)), es, State(SET_BACK, NONE, 0, 0, -1), 2)
    ensures SET_BACK.memberCount == 2 && Active(SET_BACK) == {0}
  {
    var s := Start(0, Some(Open));
    var join := JoinRuns();
    OnlyCreatorLeft();
    SaveAndLeaveLook();
    var look := BothLook(s, join, Rest(JOINED, NONE), Updating(0, None), Leaving(1));
    SaveAndLeaveWrite();
    Extend(s, look, Rest(JOINED, map[1 := READ_TWO, 2 := Departing(1)]), Go(2), Rest(GONE, map[1 := READ_TWO]), 2);
    Extend(s, look + [Go(2)], Rest(GONE, map[1 := READ_TWO]), Go(1), State(SET_BACK, NONE, 0, 0, -1), 2);
    es := look + [Go(2)] + [Go(1)];
  }

  // ---- The ledger ----------------------------------------------------------------------------------------

  /** The active members are as many as the counter says plus the rejoins. */
  ghost predicate Balances(s: State) {
    |Active(s.community)| == s.community.memberCount + s.rejoins
  }

  ghost predicate LedgerHolds(k: nat) {
    forall creator, joinType, es ::
      CanRun(Start(creator, joinType), es) && AtMost(Start(creator, joinType), es, k) ==> Balances(Reach(Start(creator, joinType), es))
  }

  /** That holds in every run exactly when requests to the community do not overlap. */
  lemma BalanceIff(k: nat)
    ensures LedgerHolds(k) <==> k <= 1
  {
    if k <= 1 {
      forall creator, joinType, es | CanRun(Start(creator, joinType), es) && AtMost(Start(creator, joinType), es, k)
        ensures Balances(Reach(Start(creator, joinType), es))
      {
        AtMostMore(Start(creator, joinType), es, k, 1);
        RaceLedger(creator, joinType, es);
        SerialBalances(Start(creator, joinType), es);
      }
    } else {
      var es := DepartsTwice();
      AtMostMore(Start(0, Some(Open)), es, 2, k);
      assert !Balances(Reach(Start(0, Some(Open)), es));
    }
  }

  // ---- Serializability -----------------------------------------------------------------------------------

  /** Requests that are done leave what some requests would leave as single steps, one after another. */
  ghost predicate LeavesSerial(creator: UserId, joinType: Option<JoinType>, c: Community) {
    exists ss :: c == CommunityLedger.Run(Founded(creator, joinType), ss)
  }

  ghost predicate Serializable(k: nat) {
    forall creator, joinType, es ::
      CanRun(Start(creator, joinType), es) && AtMost(Start(creator, joinType), es, k) && Reach(Start(creator, joinType), es).calls == map[] ==>
        LeavesSerial(creator, joinType, Reach(Start(creator, joinType), es).community)
  }

  /** So what is proved about steps one after another holds of the program exactly when requests do not overlap. */
  lemma SerializableIff(k: nat)
    ensures Serializable(k) <==> k <= 1
  {
    if k <= 1 {
      forall creator, joinType, es |
          CanRun(Start(creator, joinType), es) && AtMost(Start(creator, joinType), es, k) && Reach(Start(creator, joinType), es).calls == map[]
        ensures LeavesSerial(creator, joinType, Reach(Start(creator, joinType), es).community)
      {
        AtMostMore(Start(creator, joinType), es, k, 1);
        var ss := SerialRun(Start(creator, joinType), es);
      }
    } else {
      var es := SavesOldCounter();
      AtMostMore(Start(0, Some(Open)), es, 2, k);
      NotSerial();
    }
  }

  /** Single steps never leave fewer active members than the counter says. */
  lemma NotSerial()
    ensures !LeavesSerial(0, Some(Open), SET_BACK)
  {
    assert Active(SET_BACK) == {0};
    if ss :| SET_BACK == CommunityLedger.Run(FOUNDED, ss) {
      Ledger(0, Some(Open), ss);
    }
  }

  // ---- Invites -------------------------------------------------------------------------------------------

  const PHONE := "5"

  const INVITE := Invite(PHONE, None, 0, InviteStatus.Pending)

  const CLOSED := Founded(0, None)

  const INVITED := CLOSED.(invites := map[10 := INVITE])

  const INVITED_TWICE := CLOSED.(invites := map[10 := INVITE, 11 := INVITE])

  function Inviting5(id: InviteId): Step {
    Inviting(0, PHONE, None, false, id)
  }

  lemma InvitesLook()
    ensures Looked(CLOSED, Inviting5(10)) == Some(Writing(10, INVITE)) && Looked(CLOSED, Inviting5(11)) == Some(Writing(11, INVITE))
  {
  }

  lemma InvitesWrite()
    ensures var s := Rest(CLOSED, map[1 := Writing(10, INVITE), 2 := Writing(11, INVITE)]);
            && Move(s, Go(1)) == Rest(INVITED, map[2 := Writing(11, INVITE)])
            && Move(Rest(INVITED, map[2 := Writing(11, INVITE)]), Go(2)) == Rest(INVITED_TWICE, NONE)
  {
    assert map[1 := Writing(10, INVITE), 2 := Writing(11, INVITE)] - {1} == map[2 := Writing(11, INVITE)];
    assert map[2 := Writing(11, INVITE)] - {2} == NONE;
    assert CLOSED.invites[10 := INVITE] == INVITED.invites;
    assert INVITED.invites[11 := INVITE] == INVITED_TWICE.invites;
  }

  /** Two calls that overlap within one phone leave it with two pending invites. */
  lemma InvitesTwice() returns (es: seq<Event>)
    ensures Leads(Start(0, None), es, Rest(INVITED_TWICE, NONE), 2) && !OnePending(INVITED_TWICE)
  {
    var s := Start(0, None);
    InvitesLook();
    var look := BothLook(s, [], s, Inviting5(10), Inviting5(11));
    InvitesWrite();
    Extend(s, look, Rest(CLOSED, map[1 := Writing(10, INVITE), 2 := Writing(11, INVITE)]), Go(1), Rest(INVITED, map[2 := Writing(11, INVITE)]), 2);
    Extend(s, look + [Go(1)], Rest(INVITED, map[2 := Writing(11, INVITE)]), Go(2), Rest(INVITED_TWICE, NONE), 2);
    es := look + [Go(1)] + [Go(2)];
    assert BothPending(INVITED_TWICE.invites[10], INVITED_TWICE.invites[11]);
  }

  ghost predicate OnePendingHolds(k: nat) {
    forall creator, joinType, es ::
      CanRun(Start(creator, joinType), es) && AtMost(Start(creator, joinType), es, k) ==> OnePending(Reach(Start(creator, joinType), es).community)
  }

  lemma StepKeepsOnePending(s: State, e: Event)
    requires Serial(s) && Enabled(s, e) && OnePending(s.community)
    ensures OnePending(Move(s, e).community)
  {
    if e.Go? {
      assert Fresh(s.community, s.calls[e.call]);
    }
  }

  lemma {:induction false} SerialOnePending(s: State, es: seq<Event>)
    requires Serial(s) && OnePending(s.community) && CanRun(s, es) && AtMost(s, es, 1)
    ensures OnePending(Reach(s, es).community)
    decreases |es|
  {
    if es != [] {
      SerialOnePending(s, es[..|es| - 1]);
      RunStaysSerial(s, es[..|es| - 1]);
      StepKeepsOnePending(Reach(s, es[..|es| - 1]), es[|es| - 1]);
    }
  }

  /** A phone has at most one pending invite in every run exactly when requests do not overlap. */
  lemma OnePendingIff(k: nat)
    ensures OnePendingHolds(k) <==> k <= 1
  {
    if k <= 1 {
      forall creator, joinType, es | CanRun(Start(creator, joinType), es) && AtMost(Start(creator, joinType), es, k)
        ensures OnePending(Reach(Start(creator, joinType), es).community)
      {
        AtMostMore(Start(creator, joinType), es, k, 1);
        SerialOnePending(Start(creator, joinType), es);
      }
    } else {
      var es := InvitesTwice();
      AtMostMore(Start(0, None), es, 2, k);
    }
  }

  function Answered(status: InviteStatus): Community {
    INVITED.(invites := map[10 := INVITE.(status := status, userId := Some(5))])
  }

  lemma InviteRuns() returns (es: seq<Event>)
    ensures Leads(Start(0, None), es, Rest(INVITED, NONE), 2)
  {
    var s := Start(0, None);
    InvitesLook();
    var one := Rest(CLOSED, NONE[1 := Writing(10, INVITE)]);
    Extend(s, [], s, Look(1, Inviting5(10)), one, 2);
    UpdateThenRemove(NONE, 1, Writing(10, INVITE));
    assert CLOSED.invites[10 := INVITE] == INVITED.invites;
    Extend(s, [] + [Look(1, Inviting5(10))], one, Go(1), Rest(INVITED, NONE), 2);
    es := [] + [Look(1, Inviting5(10))] + [Go(1)];
  }

  lemma AnswersLook()
    ensures forall accept :: Looked(INVITED, Responding(10, 5, PHONE, accept)) == Some(Answering(10, 5, accept))
  {
  }

  const TWO_ANSWERS: map<CallId, Pending> := map[1 := Answering(10, 5, true), 2 := Answering(10, 5, false)]

  const ONE_ANSWER: map<CallId, Pending> := map[1 := Joins(5), 2 := Answering(10, 5, false)]

  lemma AnswersWrite()
    ensures Move(Rest(INVITED, TWO_ANSWERS), Go(1)) == Rest(Answered(Accepted), ONE_ANSWER)
    ensures Move(Rest(Answered(Accepted), ONE_ANSWER), Go(2)) == Rest(Answered(Rejected), NONE[1 := Joins(5)])
  {
    assert TWO_ANSWERS[1 := Joins(5)] == ONE_ANSWER;
    assert ONE_ANSWER - {2} == NONE[1 := Joins(5)];
    assert INVITED.invites[10 := INVITE.(status := Accepted, userId := Some(5))] == Answered(Accepted).invites;
    assert Answered(Accepted).invites[10 := INVITE.(status := Rejected, userId := Some(5))] == Answered(Rejected).invites;
  }

  /** Two answers that overlap are both stored, and the invite says what the later one says. */
  lemma AnswersTwice() returns (es: seq<Event>)
    ensures Leads(Start(0, None), es, Rest(Answered(Accepted), ONE_ANSWER), 2)
    ensures Leads(Start(0, None), es + [Go(2)], Rest(Answered(Rejected), NONE[1 := Joins(5)]), 2)
    ensures !KeepsAnswered(Answered(Accepted), Answered(Rejected))
  {
    var s := Start(0, None);
    var invite := InviteRuns();
    AnswersLook();
    var look := BothLook(s, invite, Rest(INVITED, NONE), Responding(10, 5, PHONE, true), Responding(10, 5, PHONE, false));
    AnswersWrite();
    Extend(s, look, Rest(INVITED, TWO_ANSWERS), Go(1), Rest(Answered(Accepted), ONE_ANSWER), 2);
    es := look + [Go(1)];
    Extend(s, es, Rest(Answered(Accepted), ONE_ANSWER), Go(2), Rest(Answered(Rejected), NONE[1 := Joins(5)]), 2);
    assert 10 in Answered(Accepted).invites;
  }

  /** No command changes an invite that was answered. */
  ghost predicate AnswersStay(k: nat) {
    forall creator, joinType, es, e ::
      CanRun(Start(creator, joinType), es + [e]) && AtMost(Start(creator, joinType), es + [e], k) ==>
        CanRun(Start(creator, joinType), es) && KeepsAnswered(Reach(Start(creator, joinType), es).community, Reach(Start(creator, joinType), es + [e]).community)
  }

  lemma StepKeepsAnswered(s: State, e: Event)
    requires Serial(s) && Enabled(s, e)
    ensures KeepsAnswered(s.community, Move(s, e).community)
  {
    if e.Go? {
      assert Fresh(s.community, s.calls[e.call]);
    }
  }

  lemma SerialKeepsAnswered(s: State, es: seq<Event>, e: Event)
    requires Serial(s) && CanRun(s, es + [e]) && AtMost(s, es + [e], 1)
    ensures CanRun(s, es) && KeepsAnswered(Reach(s, es).community, Reach(s, es + [e]).community)
  {
    assert (es + [e])[..|es|] == es;
    RunStaysSerial(s, es);
    StepKeepsAnswered(Reach(s, es), e);
  }

  /** That holds in every run exactly when requests do not overlap. */
  lemma AnswersStayIff(k: nat)
    ensures AnswersStay(k) <==> k <= 1
  {
    if k <= 1 {
      forall creator, joinType, es, e | CanRun(Start(creator, joinType), es + [e]) && AtMost(Start(creator, joinType), es + [e], k)
        ensures CanRun(Start(creator, joinType), es)
        ensures KeepsAnswered(Reach(Start(creator, joinType), es).community, Reach(Start(creator, joinType), es + [e]).community)
      {
        AtMostMore(Start(creator, joinType), es + [e], k, 1);
        SerialKeepsAnswered(Start(creator, joinType), es, e);
      }
    } else {
      var es := AnswersTwice();
      AtMostMore(Start(0, None), es + [Go(2)], 2, k);
    }
  }

  // ---- In every interleaving -----------------------------------------------------------------------------

  /** What a request under way knows that stays so: rows are never deleted, and the creator never departs. */
  ghost predicate Known(c: Community, p: Pending) {
    && (p.Departing? ==> p.userId != c.creator)
    && (p.Returning? ==> p.userId in c.members)
  }

  ghost predicate AllKnown(s: State) {
    s.community.creator in Active(s.community) && forall id :: id in s.calls ==> Known(s.community, s.calls[id])
  }

  lemma MembersStay(s: State, e: Event)
    requires Enabled(s, e)
    ensures Move(s, e).community.creator == s.community.creator && s.community.members.Keys <= Move(s, e).community.members.Keys
  {
  }

  lemma StepStaysKnown(s: State, e: Event)
    requires AllKnown(s) && Enabled(s, e)
    ensures AllKnown(Move(s, e))
  {
    var s' := Move(s, e);
    MembersStay(s, e);
    if e.Go? {
      assert Known(s.community, s.calls[e.call]);
    }
    forall id | id in s'.calls
      ensures Known(s'.community, s'.calls[id])
    {
      if id != e.call {
        assert Known(s.community, s.calls[id]);
      }
    }
  }

  /** However requests overlap, the creator stays an active member. */
  lemma {:induction false} CreatorStaysIn(creator: UserId, joinType: Option<JoinType>, es: seq<Event>)
    requires CanRun(Start(creator, joinType), es)
    ensures var s := Reach(Start(creator, joinType), es);
            AllKnown(s) && s.community.creator == creator && creator in Active(s.community)
    decreases |es|
  {
    if es != [] {
      CreatorStaysIn(creator, joinType, es[..|es| - 1]);
      StepStaysKnown(Reach(Start(creator, joinType), es[..|es| - 1]), es[|es| - 1]);
      MembersStay(Reach(Start(creator, joinType), es[..|es| - 1]), es[|es| - 1]);
    }
  }

  ghost predicate ClosedThroughout(s: State, es: seq<Event>)
    requires CanRun(s, es)
    decreases |es|
  {
    Reach(s, es).community.joinType.InviteOnly? && (es != [] ==> ClosedThroughout(s, es[..|es| - 1]))
  }

  /** The request has passed the check of `join` and will make somebody active who is not in `members`. */
  predicate PastCheck(c: Community, p: Pending, active: set<UserId>) {
    (p.Entering? && p.userId !in c.members) || (p.Returning? && p.userId !in active)
  }

  ghost predicate NonePast(s: State, active: set<UserId>) {
    forall id :: id in s.calls ==> !PastCheck(s.community, s.calls[id], active)
  }

  lemma ClosedStepAdmitsNobody(s: State, e: Event, active: set<UserId>)
    requires s.community.joinType.InviteOnly? && NonePast(s, active) && Active(s.community) <= active && Enabled(s, e)
    ensures NonePast(Move(s, e), active) && Active(Move(s, e).community) <= active
  {
    var s' := Move(s, e);
    MembersStay(s, e);
    if e.Go? {
      assert !PastCheck(s.community, s.calls[e.call], active);
    }
    forall id | id in s'.calls
      ensures !PastCheck(s'.community, s'.calls[id], active)
    {
      if id != e.call {
        assert !PastCheck(s.community, s.calls[id], active);
      }
    }
  }

  lemma {:induction false} ClosedAdmitsNobody(s: State, es: seq<Event>)
    requires NonePast(s, Active(s.community)) && CanRun(s, es) && ClosedThroughout(s, es)
    ensures NonePast(Reach(s, es), Active(s.community)) && Active(Reach(s, es).community) <= Active(s.community)
    decreases |es|
  {
    if es != [] {
      ClosedAdmitsNobody(s, es[..|es| - 1]);
      ClosedStepAdmitsNobody(Reach(s, es[..|es| - 1]), es[|es| - 1], Active(s.community));
    }
  }

  /** As long as the community stays invite-only, nobody becomes active who was not. */
  ghost predicate ShutsOut(s: State) {
    forall es :: CanRun(s, es) && ClosedThroughout(s, es) ==> Active(Reach(s, es).community) <= Active(s.community)
  }

  lemma PastCheckAdmits(s: State, id: CallId) returns (es: seq<Event>)
    requires AllKnown(s) && s.community.joinType.InviteOnly? && id in s.calls && PastCheck(s.community, s.calls[id], Active(s.community))
    ensures CanRun(s, es) && ClosedThroughout(s, es) && !(Active(Reach(s, es).community) <= Active(s.community))
  {
    var t, u := Move(s, Go(id)), s.calls[id].userId;
    Extend(s, [], s, Go(id), t, Max(|s.calls|, |t.calls|));
    es := [] + [Go(id)];
    assert Known(s.community, s.calls[id]);
    assert u in Active(t.community);
    assert ClosedThroughout(s, []);
    assert es[..0] == [];
  }

  /**
   * A community that is invite-only shuts out everybody who is not active, in every interleaving, exactly when no
   * join under way has passed its check for such a user.
   */
  lemma InviteOnlyShutsIff(s: State)
    requires AllKnown(s) && s.community.joinType.InviteOnly?
    ensures ShutsOut(s) <==> NonePast(s, Active(s.community))
  {
    if NonePast(s, Active(s.community)) {
      forall es | CanRun(s, es) && ClosedThroughout(s, es)
        ensures Active(Reach(s, es).community) <= Active(s.community)
      {
        ClosedAdmitsNobody(s, es);
      }
    } else {
      var id :| id in s.calls && PastCheck(s.community, s.calls[id], Active(s.community));
      var es := PastCheckAdmits(s, id);
    }
  }
}
