/**
 * One community under requests that overlap. A request looks rows up, and writes what follows from them in later
 * commands, without a lock and without looking again: leaving and kicking, joining, the rounds of `invite`, answering
 * an invite, and `update` and `remove`, which save the whole row of the community that they read, counter included.
 */
module CommunityRaces {
  import opened Common
  import opened CommunityLedger

  type CallId = nat

  /** The row of the community itself. */
  datatype Columns = Columns(isActive: bool, joinType: JoinType, memberCount: int)

  /** What a request under way will do next. */
  datatype Pending =
    | Departing(userId: UserId)                           // a row was found active: make it inactive and count down
    | Entering(userId: UserId)                            // no row was found: insert one and count up
    | Returning(userId: UserId)                           // an inactive row was found: make it active
    | Saving(columns: Columns)                            // save the row that was read, with the changes
    | Joins(userId: UserId)                               // call `join`
    | Writing(id: InviteId, invite: Invite)               // no pending invite was found: insert one
    | Answering(id: InviteId, userId: UserId, accept: bool)   // the invite was found pending: store the answer

  /** The look-ups of `join`. */
  function JoinLook(c: Community, userId: UserId): Option<Pending> {
    if !c.isActive || !c.joinType.Open? then None
    else if userId in c.members then (if c.members[userId].isActive then None else Some(Returning(userId)))
    else Some(Entering(userId))
  }

  /** The look-ups of a request: what it goes on to do, or nothing if it is refused or has nothing to do. */
  function Looked(c: Community, s: Step): Option<Pending> {
    match s
    case Updating(userId, joinType) =>
      if Update(c, userId, joinType).0.Err? then None
      else Some(Saving(Columns(c.isActive, if joinType.Some? then joinType.value else c.joinType, c.memberCount)))
    case Removing(userId) =>
      if Remove(c, userId).0.Err? then None else Some(Saving(Columns(false, c.joinType, c.memberCount)))
    case Joining(userId) => JoinLook(c, userId)
    case Leaving(userId) => if Leave(c, userId).0.Err? then None else Some(Departing(userId))
    case Kicking(target, adminId) => if Kick(c, target, adminId).0.Err? then None else Some(Departing(target))
    case Inviting(inviter, phone, owner, sawOpen, id) =>
      if owner.Some? && IsActiveMember(c, owner.value) then None
      else if HasPending(c, phone) then None
      else if sawOpen && owner.Some? then Some(Joins(owner.value))
      else Some(Writing(id, Invite(phone, owner, inviter, Pending)))
    case Responding(id, userId, phone, accept) =>
      if Addressed(c, id, userId, phone) then Some(Answering(id, userId, accept)) else None
  }

  function Reactivate(c: Community, userId: UserId): Community
    requires userId in c.members
  {
    c.(members := c.members[userId := c.members[userId].(isActive := true)])
  }

  /** The next command, on the rows as they are now, and what is left to do after it. */
  function Proceed(c: Community, p: Pending): (Community, Option<Pending>) {
    match p
    case Departing(u) => (if u in c.members then Deactivate(c, u) else c, None)
    case Entering(u) =>   // the unique key refuses a second row, and with it the increment
      (if u in c.members then c else c.(members := c.members[u := Member(Ordinary, true)], memberCount := c.memberCount + 1), None)
    case Returning(u) => (if u in c.members then Reactivate(c, u) else c, None)
    case Saving(r) => (c.(isActive := r.isActive, joinType := r.joinType, memberCount := r.memberCount), None)
    case Joins(u) => (c, JoinLook(c, u))
    case Writing(id, invite) => (if id in c.invites then c else c.(invites := c.invites[id := invite]), None)
    case Answering(id, u, accept) =>
      var stored := if id !in c.invites then c
                    else c.(invites := c.invites[id := c.invites[id].(status := if accept then Accepted else Rejected, userId := Some(u))]);
      (stored, if accept then Some(Joins(u)) else None)
  }

  // ---- Runs ----------------------------------------------------------------------------------------------

  datatype Event = Look(call: CallId, step: Step) | Go(call: CallId)

  /**
   * The community and the requests under way, with the history so far: how often a member who had left came back, how
   * often a departure found the row inactive already, and by how much saved rows have set the counter back or forth.
   */
  datatype State = State(community: Community, calls: map<CallId, Pending>, rejoins: nat, departedTwice: nat, overwritten: int)

  function Start(creator: UserId, joinType: Option<JoinType>): State {
    State(Founded(creator, joinType), map[], 0, 0, 0)
  }

  predicate Enabled(s: State, e: Event) {
    match e
    case Look(c, _) => c !in s.calls
    case Go(c) => c in s.calls
  }

  function After(calls: map<CallId, Pending>, c: CallId, next: Option<Pending>): map<CallId, Pending> {
    if next.Some? then calls[c := next.value] else calls - {c}
  }

  predicate ComesBack(c: Community, p: Pending) {
    p.Returning? && p.userId in c.members && !c.members[p.userId].isActive
  }

  predicate GoesTwice(c: Community, p: Pending) {
    p.Departing? && p.userId in c.members && !c.members[p.userId].isActive
  }

  function Overwrites(c: Community, p: Pending): int {
    if p.Saving? then c.memberCount - p.columns.memberCount else 0
  }

  function Move(s: State, e: Event): State
    requires Enabled(s, e)
  {
    match e
    case Look(c, step) => s.(calls := After(s.calls, c, Looked(s.community, step)))
    case Go(c) =>
      var (community, next) := Proceed(s.community, s.calls[c]);
      State(community, After(s.calls, c, next),
            if ComesBack(s.community, s.calls[c]) then s.rejoins + 1 else s.rejoins,
            if GoesTwice(s.community, s.calls[c]) then s.departedTwice + 1 else s.departedTwice,
            s.overwritten + Overwrites(s.community, s.calls[c]))
  }

  ghost predicate CanRun(s: State, es: seq<Event>)
    decreases |es|, 0
  {
    es == [] || (CanRun(s, es[..|es| - 1]) && Enabled(Reach(s, es[..|es| - 1]), es[|es| - 1]))
  }

  ghost function Reach(s: State, es: seq<Event>): State
    requires CanRun(s, es)
    decreases |es|, 1
  {
    if es == [] then s else Move(Reach(s, es[..|es| - 1]), es[|es| - 1])
  }

  /** At no point of the run are more than `k` requests under way. With `k` 1, requests do not overlap. */
  ghost predicate AtMost(s: State, es: seq<Event>, k: nat)
    requires CanRun(s, es)
    decreases |es|
  {
    |Reach(s, es).calls| <= k && (es != [] ==> AtMost(s, es[..|es| - 1], k))
  }

  ghost predicate Leads(s: State, es: seq<Event>, t: State, k: nat) {
    CanRun(s, es) && Reach(s, es) == t && AtMost(s, es, k)
  }

  lemma Extend(s: State, es: seq<Event>, t: State, e: Event, u: State, k: nat)
    requires Leads(s, es, t, k) && Enabled(t, e) && Move(t, e) == u && |u.calls| <= k
    ensures Leads(s, es + [e], u, k)
  {
    assert (es + [e])[..|es|] == es;
  }

  lemma {:induction false} AtMostMore(s: State, es: seq<Event>, k: nat, m: nat)
    requires CanRun(s, es) && AtMost(s, es, k) && k <= m
    ensures AtMost(s, es, m)
    decreases |es|
  {
    if es != [] {
      AtMostMore(s, es[..|es| - 1], k, m);
    }
  }

  // ---- The ledger in every interleaving ------------------------------------------------------------------

  ghost predicate Balanced(s: State) {
    |Active(s.community)| == s.community.memberCount + s.rejoins + s.departedTwice + s.overwritten
  }

  lemma LookBalances(s: State, e: Event)
    requires Enabled(s, e) && e.Look?
    ensures Move(s, e).community == s.community && (Balanced(s) ==> Balanced(Move(s, e)))
  {
  }

  lemma DepartureCounts(c: Community, u: UserId)
    requires u in c.members
    ensures |Active(Deactivate(c, u))| == |Active(c)| - if IsActiveMember(c, u) then 1 else 0
  {
    var less := Active(c) - {u};
    assert Active(Deactivate(c, u)) == less;
    assert u !in Active(c) ==> less == Active(c);
  }

  lemma ReturnCounts(c: Community, u: UserId)
    requires u in c.members
    ensures |Active(Reactivate(c, u))| == |Active(c)| + if IsActiveMember(c, u) then 0 else 1
  {
    var more := Active(c) + {u};
    assert Active(Reactivate(c, u)) == more;
    assert u in Active(c) ==> more == Active(c);
  }

  lemma GoBalances(s: State, e: Event)
    requires Enabled(s, e) && e.Go? && Balanced(s)
    ensures Balanced(Move(s, e))
  {
    var c, p := s.community, s.calls[e.call];
    match p
    case Departing(u) => if u in c.members { DepartureCounts(c, u); }
    case Entering(u) => if u !in c.members { EntersCounts(c, Move(s, e).community, u); }
    case Returning(u) => if u in c.members { ReturnCounts(c, u); }
    case _ => assert Active(Move(s, e).community) == Active(c);
  }

  /**
   * In every interleaving, the active members are as many as the counter says, plus the rejoins, plus the departures
   * of members who were gone already, plus what saved rows have taken off the counter.
   */
  lemma {:induction false} RaceLedger(creator: UserId, joinType: Option<JoinType>, es: seq<Event>)
    requires CanRun(Start(creator, joinType), es)
    ensures var s := Reach(Start(creator, joinType), es);
            |Active(s.community)| == s.community.memberCount + s.rejoins + s.departedTwice + s.overwritten
    decreases |es|
  {
    if es == [] {
      assert Active(Founded(creator, joinType)) == {creator};
    } else {
      var s, e := Reach(Start(creator, joinType), es[..|es| - 1]), es[|es| - 1];
      RaceLedger(creator, joinType, es[..|es| - 1]);
      if e.Look? { LookBalances(s, e); } else { GoBalances(s, e); }
    }
  }

  // ---- Without overlap -----------------------------------------------------------------------------------

  /** What the request found is still so. */
  ghost predicate Fresh(c: Community, p: Pending) {
    match p
    case Departing(u) => IsActiveMember(c, u)
    case Saving(r) => r.memberCount == c.memberCount
    case Writing(_, invite) => !HasPending(c, invite.phone)
    case Answering(id, _, _) => id in c.invites && c.invites[id].status.Pending?
    case _ => true
  }

  ghost predicate Serial(s: State) {
    |s.calls| <= 1 && (forall id :: id in s.calls ==> Fresh(s.community, s.calls[id]))
  }

  lemma LookIsFresh(c: Community, step: Step)
    ensures Looked(c, step).Some? ==> Fresh(c, Looked(c, step).value)
  {
  }

  lemma OnlyCall(s: State, c: CallId, id: CallId)
    requires |s.calls| <= 1 && c in s.calls && id in s.calls
    ensures id == c
  {
    MapSize(s.calls);
    if id != c {
      SubsetSmaller({id, c}, s.calls.Keys);
    }
  }

  lemma StepStaysSerial(s: State, e: Event)
    requires Serial(s) && Enabled(s, e) && |Move(s, e).calls| <= 1
    ensures Serial(Move(s, e))
  {
    var s' := Move(s, e);
    forall id | id in s'.calls
      ensures Fresh(s'.community, s'.calls[id])
    {
      if e.Look? {
        LookIsFresh(s.community, e.step);
      } else {
        if id in s.calls {
          OnlyCall(s, e.call, id);
        }
        assert id == e.call;
      }
    }
  }

  lemma {:induction false} RunStaysSerial(s: State, es: seq<Event>)
    requires Serial(s) && CanRun(s, es) && AtMost(s, es, 1)
    ensures Serial(Reach(s, es))
    decreases |es|
  {
    if es != [] {
      RunStaysSerial(s, es[..|es| - 1]);
      StepStaysSerial(Reach(s, es[..|es| - 1]), es[|es| - 1]);
    }
  }

  lemma NothingDrifts(s: State, e: Event)
    requires Serial(s) && Enabled(s, e) && s.departedTwice == 0 && s.overwritten == 0
    ensures Move(s, e).departedTwice == 0 && Move(s, e).overwritten == 0
  {
    if e.Go? {
      assert Fresh(s.community, s.calls[e.call]);
    }
  }

  lemma {:induction false} SerialBalances(s: State, es: seq<Event>)
    requires Serial(s) && s.departedTwice == 0 && s.overwritten == 0 && CanRun(s, es) && AtMost(s, es, 1)
    ensures Reach(s, es).departedTwice == 0 && Reach(s, es).overwritten == 0
    decreases |es|
  {
    if es != [] {
      SerialBalances(s, es[..|es| - 1]);
      RunStaysSerial(s, es[..|es| - 1]);
      NothingDrifts(Reach(s, es[..|es| - 1]), es[|es| - 1]);
    }
  }

  // ---- One request after another -------------------------------------------------------------------------

  function Commands(p: Pending): nat {
    match p
    case Answering(_, _, _) => 3
    case Joins(_) => 2
    case _ => 1
  }

  /** The community when the request has done all that is left of it, with nothing in between. */
  function Finish(c: Community, p: Pending): Community
    decreases Commands(p)
  {
    var (c', next) := Proceed(c, p);
    if next.None? then c' else Finish(c', next.value)
  }

  lemma JoinFinishes(c: Community, u: UserId)
    ensures Join(c, u).1 == if JoinLook(c, u).None? then c else Finish(c, JoinLook(c, u).value)
  {
  }

  /** A request that meets no other does what it does as one step. */
  lemma AloneIsOneStep(c: Community, step: Step)
    ensures CommunityLedger.Next(c, step) == if Looked(c, step).None? then c else Finish(c, Looked(c, step).value)
  {
    match step
    case Inviting(_, _, owner, sawOpen, _) =>
      if sawOpen && owner.Some? {
        JoinFinishes(c, owner.value);
      }
    case Responding(id, u, phone, accept) =>
      if Addressed(c, id, u, phone) && accept {
        JoinFinishes(Proceed(c, Answering(id, u, true)).0, u);
      }
    case _ =>
  }

  /** The community when the requests under way are done, if there is at most one. */
  ghost function Outcome(s: State): Community {
    if id :| id in s.calls then Finish(s.community, s.calls[id]) else s.community
  }

  lemma OutcomeIs(s: State, id: CallId)
    requires |s.calls| <= 1 && id in s.calls
    ensures Outcome(s) == Finish(s.community, s.calls[id])
  {
    var d :| d in s.calls && Outcome(s) == Finish(s.community, s.calls[d]);
    OnlyCall(s, id, d);
  }

  lemma LookMovesOutcome(s: State, e: Event)
    requires |s.calls| <= 1 && Enabled(s, e) && e.Look? && |Move(s, e).calls| <= 1
    ensures Outcome(Move(s, e)) == CommunityLedger.Next(Outcome(s), e.step) || Outcome(Move(s, e)) == Outcome(s)
  {
    if Looked(s.community, e.step).Some? {
      NoneBefore(s, e);
      OutcomeIs(Move(s, e), e.call);
      AloneIsOneStep(s.community, e.step);
    } else {
      assert Move(s, e).calls == s.calls;
    }
  }

  lemma GoKeepsOutcome(s: State, e: Event)
    requires |s.calls| <= 1 && Enabled(s, e) && e.Go? && |Move(s, e).calls| <= 1
    ensures Outcome(Move(s, e)) == Outcome(s)
  {
    OutcomeIs(s, e.call);
    if e.call in Move(s, e).calls {
      OutcomeIs(Move(s, e), e.call);
    } else {
      NoneAfter(s, e);
    }
  }

  lemma NoneBefore(s: State, e: Event)
    requires Enabled(s, e) && e.Look? && Looked(s.community, e.step).Some? && |Move(s, e).calls| <= 1
    ensures s.calls == map[]
  {
    assert |Move(s, e).calls| == |s.calls| + 1;
  }

  lemma NoneAfter(s: State, e: Event)
    requires Enabled(s, e) && e.Go? && |s.calls| <= 1 && e.call !in Move(s, e).calls
    ensures Move(s, e).calls == map[]
  {
    if id :| id in Move(s, e).calls {
      OnlyCall(s, e.call, id);
    }
  }

  /** When requests do not overlap, what they leave is left by some of them as single steps, one after another. */
  lemma {:induction false} SerialRun(s: State, es: seq<Event>) returns (ss: seq<Step>)
    requires s.calls == map[] && CanRun(s, es) && AtMost(s, es, 1)
    ensures Outcome(Reach(s, es)) == CommunityLedger.Run(s.community, ss)
    decreases |es|
  {
    if es == [] {
      ss := [];
    } else {
      var t, e := Reach(s, es[..|es| - 1]), es[|es| - 1];
      ss := SerialRun(s, es[..|es| - 1]);
      if e.Look? { LookMovesOutcome(t, e); } else { GoKeepsOutcome(t, e); }
      if Outcome(Reach(s, es)) != Outcome(t) {
        RunSnoc(s.community, ss, e.step);
        ss := ss + [e.step];
      }
    }
  }
}
