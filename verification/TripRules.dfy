/**
 * The rules of a trip, apart from the code that applies them: who comes in, asks, leaves and is turned away, who may
 * change what, and with which answer a request is refused. Each rule is an exact condition on the fields of the trip,
 * over all kinds of request at once.
 */
module TripRules {
  import opened Common
  import opened TripSeats
  import opened TripStore

  // ---- Standing ------------------------------------------------------------------------------------------

  predicate Has(t: Trip, u: UserId, standing: Standing) {
    u in t.participants && t.participants[u].status == standing
  }

  /** A request of which the outcome is that this user's standing becomes the given one. */
  ghost predicate Becomes(t: Trip, r: Request, u: UserId, standing: Standing) {
    !Has(t, u, standing) && Has(Step(t, r), u, standing)
  }

  /** The token is that of the link, which is active and has not expired. */
  predicate Opens(t: Trip, token: Token, now: int) {
    && t.link.Some? && t.link.value.token == token && t.link.value.isActive
    && (t.link.value.expiresAt.Some? ==> now <= t.link.value.expiresAt.value)
  }

  /** The trip is planned and has a seat left, and the user neither created it nor asked already. */
  predicate MayEnter(t: Trip, u: UserId) {
    && u != t.creator && t.status == Planned && t.current < t.max
    && (u in t.participants ==> t.participants[u].status == Rejected || t.participants[u].status == Left)
  }

  predicate LinkAdmits(t: Trip, token: Token, u: UserId, now: int) {
    Opens(t, token, now) && MayEnter(t, u)
  }

  predicate Free(t: Trip) {
    t.link.Some? && t.link.value.mode == AutoJoin && !t.isPaid
  }

  /** The creator approves a waiting user while a seat is left, or the user comes in by a free auto-join link. */
  predicate LetsIn(t: Trip, r: Request, u: UserId) {
    || (r.Approving? && r.userId == u && r.adminId == t.creator && Has(t, u, Requested) && t.current < t.max)
    || (r.LinkJoining? && r.userId == u && LinkAdmits(t, r.token, u, r.now) && Free(t))
  }

  /** Nobody gets a seat in any other way. Who does is counted, and joins at that time. */
  lemma BecomesApprovedIff(t: Trip, r: Request, u: UserId)
    requires Inv(t)
    ensures Becomes(t, r, u, Approved) <==> LetsIn(t, r, u)
    ensures LetsIn(t, r, u) ==>
              var t' := Step(t, r);
              t'.current == t.current + 1 && t'.participants[u] == Participant(Approved, RoleOf(t, u), Some(r.now), LeftAtOf(t, u))
  {
  }

  function RoleOf(t: Trip, u: UserId): Role {
    if u in t.participants then t.participants[u].role else Member
  }

  function LeftAtOf(t: Trip, u: UserId): Option<int> {
    if u in t.participants then t.participants[u].leftAt else None
  }

  /** Waiting for approval: by asking, or by a link that is not a free auto-join link. */
  lemma BecomesRequestedIff(t: Trip, r: Request, u: UserId)
    requires Inv(t)
    ensures Becomes(t, r, u, Requested) <==>
            || (r.Joining? && r.userId == u && MayEnter(t, u))
            || (r.LinkJoining? && r.userId == u && LinkAdmits(t, r.token, u, r.now) && !Free(t))
    ensures Becomes(t, r, u, Requested) ==>
              var t' := Step(t, r);
              && t'.current == t.current
              && t'.participants[u] == Participant(Requested, RoleOf(t, u), None, if r.Joining? then None else LeftAtOf(t, u))
  {
  }

  lemma BecomesRejectedIff(t: Trip, r: Request, u: UserId)
    requires Inv(t)
    ensures Becomes(t, r, u, Rejected) <==> r.Rejecting? && r.userId == u && r.adminId == t.creator && Has(t, u, Requested)
    ensures Becomes(t, r, u, Rejected) ==>
              Step(t, r).current == t.current && Step(t, r).participants[u] == t.participants[u].(status := Rejected)
  {
  }

  /** Only the user itself leaves, and never the creator; a seat that was taken is given back. */
  lemma BecomesLeftIff(t: Trip, r: Request, u: UserId)
    requires Inv(t)
    ensures Becomes(t, r, u, Left) <==> r.Leaving? && r.userId == u && u != t.creator && u in t.participants && !Has(t, u, Left)
    ensures Becomes(t, r, u, Left) ==>
              var t' := Step(t, r);
              && t'.participants[u] == t.participants[u].(status := Left, leftAt := Some(r.now))
              && t'.current == if Has(t, u, Approved) then t.current - 1 else t.current
  {
    if r.Leaving? && Has(t, r.userId, Approved) && r.userId != t.creator {
      AtLeastTwo(ApprovedIn(t), r.userId, t.creator);
    }
  }

  /** And without one of these changes, the row stays as it is. */
  lemma RowChangesIff(t: Trip, r: Request, u: UserId)
    requires Inv(t)
    ensures RowOf(Step(t, r), u) != RowOf(t, u) <==>
            Becomes(t, r, u, Approved) || Becomes(t, r, u, Requested) || Becomes(t, r, u, Rejected) || Becomes(t, r, u, Left)
  {
  }

  /**
   * In every reachable trip, for every request and every user: who gets a seat, starts to wait, is turned away or leaves
   * is decided by these conditions and nothing else, and no row changes otherwise.
   */
  lemma StandingChangesIff(g: Genesis, rs: seq<Request>, r: Request, u: UserId)
    ensures var t := Run(Born(g), rs);
            && (Becomes(t, r, u, Approved) <==> LetsIn(t, r, u))
            && (Becomes(t, r, u, Requested) <==>
                  || (r.Joining? && r.userId == u && MayEnter(t, u))
                  || (r.LinkJoining? && r.userId == u && LinkAdmits(t, r.token, u, r.now) && !Free(t)))
            && (Becomes(t, r, u, Rejected) <==> r.Rejecting? && r.userId == u && r.adminId == t.creator && Has(t, u, Requested))
            && (Becomes(t, r, u, Left) <==> r.Leaving? && r.userId == u && u != t.creator && u in t.participants && !Has(t, u, Left))
            && (RowOf(Step(t, r), u) != RowOf(t, u) <==>
                  Becomes(t, r, u, Approved) || Becomes(t, r, u, Requested) || Becomes(t, r, u, Rejected) || Becomes(t, r, u, Left))
  {
    var t := Run(Born(g), rs);
    CreatedInv(g.creator, g.max, g.isPaid, g.start, g.now);
    RunKeepsInv(Born(g), rs);
    BecomesApprovedIff(t, r, u);
    BecomesRequestedIff(t, r, u);
    BecomesRejectedIff(t, r, u);
    BecomesLeftIff(t, r, u);
    RowChangesIff(t, r, u);
  }

  /** Over any run: who holds a seat at the end and held none before was let in on the way. */
  lemma {:induction false} EveryoneWasLetIn(t: Trip, rs: seq<Request>, u: UserId)
    requires Inv(t) && !Has(t, u, Approved) && Has(Run(t, rs), u, Approved)
    ensures exists i :: 0 <= i < |rs| && LetsIn(Run(t, rs[..i]), rs[i], u)
  {
    var n := |rs| - 1;
    RunKeepsInv(t, rs[..n]);
    if Has(Run(t, rs[..n]), u, Approved) {
      EveryoneWasLetIn(t, rs[..n], u);
      var i :| 0 <= i < n && LetsIn(Run(t, rs[..n][..i]), rs[..n][i], u);
      assert rs[..n][..i] == rs[..i];
      assert LetsIn(Run(t, rs[..i]), rs[i], u);
    } else {
      BecomesApprovedIff(Run(t, rs[..n]), rs[n], u);
    }
  }

  // ---- The trip ------------------------------------------------------------------------------------------

  /** The creator may edit a planned trip until six hours before its start. */
  predicate MayEdit(t: Trip, r: Request) {
    && r.Updating? && r.userId == t.creator && t.status == Planned
    && (t.start.Some? ==> t.start.value - r.now >= 21600000)
  }

  predicate MayCancel(t: Trip, r: Request) {
    r.Cancelling? && r.userId == t.creator && t.status != Completed
  }

  /** Limit, price and start change by an edit only, and the status by a cancellation only; nothing changes the creator. */
  lemma TermsChangeIff(t: Trip, r: Request)
    ensures var t' := Step(t, r);
            && t'.creator == t.creator
            && t'.max == (if MayEdit(t, r) && r.changes.max.Some? then r.changes.max.value else t.max)
            && t'.isPaid == (if MayEdit(t, r) && r.changes.isPaid.Some? then r.changes.isPaid.value else t.isPaid)
            && t'.start == (if MayEdit(t, r) && r.changes.start.Some? then r.changes.start else t.start)
            && t'.status == (if MayCancel(t, r) then Cancelled else t.status)
  {
  }

  lemma CancelledIffSnoc(t: Trip, rs: seq<Request>, r: Request)
    ensures CancelledIn(t, rs + [r]) <==> CancelledIn(t, rs) || (r.Cancelling? && r.userId == t.creator)
  {
    var all := rs + [r];
    assert all[|rs|] == r;
    if i :| 0 <= i < |rs| && CancelsAt(t, rs, i) {
      assert all[i] == rs[i] && CancelsAt(t, all, i);
    }
    if i :| 0 <= i < |all| && CancelsAt(t, all, i) {
      assert i < |rs| ==> CancelsAt(t, rs, i);
    }
    assert r.Cancelling? && r.userId == t.creator ==> CancelsAt(t, all, |rs|);
  }

  predicate CancelsAt(t: Trip, rs: seq<Request>, i: nat)
    requires i < |rs|
  {
    rs[i].Cancelling? && rs[i].userId == t.creator
  }

  /** Some request of the run is a cancellation by the creator. */
  ghost predicate CancelledIn(t: Trip, rs: seq<Request>) {
    exists i :: 0 <= i < |rs| && CancelsAt(t, rs, i)
  }

  /** Over any run a trip stays planned, and so open to requests, exactly until its creator cancels it; and then for good. */
  lemma {:induction false} CancelledIff(t: Trip, rs: seq<Request>)
    requires t.status == Planned
    ensures Run(t, rs).creator == t.creator
    ensures Run(t, rs).status == if CancelledIn(t, rs) then Cancelled else Planned
  {
    if rs != [] {
      var init, last := rs[..|rs| - 1], rs[|rs| - 1];
      CancelledIff(t, init);
      TermsChangeIff(Run(t, init), last);
      CancelledIffSnoc(t, init, last);
      assert init + [last] == rs;
    }
  }

  // ---- The link ------------------------------------------------------------------------------------------

  /** Whether a change of the link by the creator has the password that it needs. */
  predicate HasPassword(dto: LinkChanges) {
    dto.mode == Some(PasswordProtected) ==> dto.password.Some? && |dto.password.value| > 0
  }

  ghost predicate GivenLater(expiresAt: Option<int>, hours: nat, now: int) {
    expiresAt == Some(now + 3600000 * hours)
  }

  /** A new link: its terms are those given, view-only by default, without password and expiry unless given; it is active. */
  lemma UpsertsIff(t: Trip, r: Request)
    requires r.LinkUpserting?
    ensures var t' := Step(t, r);
            if r.adminId == t.creator && HasPassword(r.link) then
              && Answer(t, r).0.Ok? && t'.link.Some?
              && var link := t'.link.value;
                 && link.token == r.token && link.isActive
                 && link.mode == (if r.link.mode.Some? then r.link.mode.value else ViewOnly)
                 && link.password == (if r.link.password == Some("") then None else r.link.password)
                 && (r.link.expiresInHours.None? ==> link.expiresAt == None)
                 && (r.link.expiresInHours.Some? ==> GivenLater(link.expiresAt, r.link.expiresInHours.value, r.now))
                 && link.joinRequests == (if t.link.Some? then t.link.value.joinRequests else 0)
                 && link.successfulJoins == (if t.link.Some? then t.link.value.successfulJoins else 0)
            else Answer(t, r).0.Err? && t' == t
  {
  }

  /** A change of the link: what is given replaces what was there, and the rest, the token included, stays. */
  lemma UpdatesIff(t: Trip, r: Request)
    requires r.LinkUpdating?
    ensures var t' := Step(t, r);
            if r.adminId == t.creator && t.link.Some? && HasPassword(r.link) then
              && Answer(t, r).0.Ok? && t'.link.Some?
              && var before, link := t.link.value, t'.link.value;
                 && link.token == before.token && link.isActive == before.isActive
                 && link.joinRequests == before.joinRequests && link.successfulJoins == before.successfulJoins
                 && link.mode == (if r.link.mode.Some? then r.link.mode.value else before.mode)
                 && link.password == (if r.link.password.Some? && r.link.password != Some("") then r.link.password else before.password)
                 && (r.link.expiresInHours.None? ==> link.expiresAt == before.expiresAt)
                 && (r.link.expiresInHours.Some? ==> GivenLater(link.expiresAt, r.link.expiresInHours.value, r.now))
            else Answer(t, r).0.Err? && t' == t
  {
  }

  /** Disabling closes the link and keeps its terms; a new token opens it again under the old terms. */
  lemma DisablesIff(t: Trip, r: Request)
    requires t.link.Some? && (r.LinkDisabling? || r.LinkRegenerating?)
    ensures var t' := Step(t, r);
            t'.link == if r.adminId != t.creator then t.link
                       else if r.LinkDisabling? then Some(t.link.value.(isActive := false))
                       else Some(t.link.value.(token := r.token, isActive := true))
  {
  }

  /** Joining counts a request, and a success if the user came in; no other request touches the link. */
  lemma LinkCountsIff(t: Trip, r: Request)
    requires !r.LinkUpserting? && !r.LinkUpdating? && !r.LinkDisabling? && !r.LinkRegenerating?
    ensures var joins := r.LinkJoining? && LinkAdmits(t, r.token, r.userId, r.now);
            Step(t, r).link ==
            if joins then Some(t.link.value.(joinRequests := t.link.value.joinRequests + 1,
                                             successfulJoins := t.link.value.successfulJoins + if Free(t) then 1 else 0))
            else t.link
  {
  }

  /** The link has this expiry. */
  ghost predicate ExpiresAt(t: Trip, at: int) {
    t.link.Some? && t.link.value.expiresAt == Some(at)
  }

  /** The creator makes a new link, or sets another expiry. */
  predicate Extends(r: Request, creator: UserId) {
    (r.LinkUpserting? && r.adminId == creator) || (r.LinkUpdating? && r.adminId == creator && r.link.expiresInHours.Some?)
  }

  lemma StaysExpired(t: Trip, at: int, r: Request)
    requires ExpiresAt(t, at) && !Extends(r, t.creator)
    ensures ExpiresAt(Step(t, r), at) && Step(t, r).creator == t.creator
  {
  }

  lemma ExpiredRefuses(t: Trip, at: int, token: Token, u: UserId, now: int)
    requires ExpiresAt(t, at) && now > at
    ensures JoinViaLink(t, token, u, now).0.Err? && JoinViaLink(t, token, u, now).1 == t
  {
  }

  /**
   * Once a link has expired it stays closed, whatever its token, until the creator makes a new one or sets another
   * expiry: nobody comes in by it or asks by it, and nothing changes.
   */
  lemma {:induction false} ExpiredLinkStaysClosed(t: Trip, at: int, rs: seq<Request>)
    requires ExpiresAt(t, at) && forall r :: r in rs ==> !Extends(r, t.creator)
    ensures ExpiresAt(Run(t, rs), at) && Run(t, rs).creator == t.creator
    ensures forall token, u, now :: now > at ==> JoinViaLink(Run(t, rs), token, u, now).0.Err? && JoinViaLink(Run(t, rs), token, u, now).1 == Run(t, rs)
  {
    if rs != [] {
      var init, last := rs[..|rs| - 1], rs[|rs| - 1];
      assert forall r :: r in init ==> r in rs;
      assert last in rs;
      ExpiredLinkStaysClosed(t, at, init);
      StaysExpired(Run(t, init), at, last);
    }
    forall token, u, now | now > at
      ensures JoinViaLink(Run(t, rs), token, u, now).0.Err? && JoinViaLink(Run(t, rs), token, u, now).1 == Run(t, rs)
    {
      ExpiredRefuses(Run(t, rs), at, token, u, now);
    }
  }

  // ---- Refusals ------------------------------------------------------------------------------------------

  function StandingOf(t: Trip, u: UserId): Standing {
    if u in t.participants then t.participants[u].status else Left
  }

  function EnterChecks(t: Trip, u: UserId, own: TripError): seq<Check<TripError>> {
    [Check(u == t.creator, own),
     Check(t.status != Planned, TripNotJoinable),
     Check(t.max <= t.current, TripFull),
     Check(Has(t, u, Requested) || Has(t, u, Approved), AlreadyRequested(StandingOf(t, u)))]
  }

  function DecideChecks(t: Trip, adminId: UserId, u: UserId, done: Standing): seq<Check<TripError>> {
    [Check(adminId != t.creator, NotTripAdmin),
     Check(u !in t.participants, RequestNotFound),
     Check(!Has(t, u, Requested) && !Has(t, u, done), RequestNotPending(StandingOf(t, u)))]
  }

  /** What each kind of request is checked for, in this order. */
  function Checks(t: Trip, r: Request): seq<Check<TripError>> {
    match r
    case Updating(u, _, now) =>
      [Check(u != t.creator, NotTripAdmin),
       Check(t.status == Planned && t.start.Some? && t.start.value < now + 21600000, EditWindowClosed),
       Check(t.status != Planned, TripNotEditable(t.status))]
    case Cancelling(u) => [Check(u != t.creator, NotTripAdmin), Check(t.status == Completed, AlreadyCompleted)]
    case Joining(u) => EnterChecks(t, u, CreatorCannotRequest)
    case Approving(adminId, u, _) =>
      DecideChecks(t, adminId, u, Approved) + [Check(Has(t, u, Requested) && t.max <= t.current, TripFull)]
    case Rejecting(adminId, u) => DecideChecks(t, adminId, u, Rejected)
    case Leaving(u, _) =>
      [Check(u == t.creator, CreatorCannotLeave), Check(u !in t.participants || Has(t, u, Left), NotAMember)]
    case LinkJoining(token, u, now) =>
      [Check(t.link.None? || t.link.value.token != token || !t.link.value.isActive, LinkNotFound),
       Check(!Opens(t, token, now), LinkExpired)] + EnterChecks(t, u, CreatorCannotJoin)
    case LinkUpserting(adminId, _, dto, _) => [Check(adminId != t.creator, NotTripAdmin), Check(!HasPassword(dto), PasswordRequired)]
    case LinkUpdating(adminId, dto, _) =>
      [Check(adminId != t.creator, NotTripAdmin), Check(t.link.None?, LinkNotFound), Check(!HasPassword(dto), PasswordRequired)]
    case LinkDisabling(adminId) => [Check(adminId != t.creator, NotTripAdmin)]
    case LinkRegenerating(adminId, _) => [Check(adminId != t.creator, NotTripAdmin), Check(t.link.None?, LinkNotFound)]
  }

  /** A request is refused for the first check that it fails, and then changes nothing; otherwise it is accepted. */
  lemma RefusedIff(t: Trip, r: Request)
    ensures var error := First(Checks(t, r));
            Answer(t, r).0 == (if error.Some? then Err(error.value) else Ok(())) && (error.Some? ==> Step(t, r) == t)
  {
    FirstOfSix(Checks(t, r));
  }

  /** The answer to a request about the trip with this id. */
  function Verdict(trips: Trips, id: TripId, r: Request): Outcome {
    if id !in trips then Err(TripNotFound)
    else
      var error := First(Checks(trips[id], r));
      if error.Some? then Err(error.value) else Ok(())
  }

  lemma ServedByTheRules(trips: Trips, id: TripId, r: Request)
    ensures Serve(trips, id, r).0 == Verdict(trips, id, r)
    ensures Serve(trips, id, r).0.Err? ==> Serve(trips, id, r).1 == trips
  {
    if id in trips {
      RefusedIff(trips[id], r);
      assert trips[id := trips[id]] == trips;
    }
  }

  /** The token belongs to one link, so no other trip answers to it. */
  lemma OneLinkOpens(trips: Trips, id: TripId, token: Token)
    requires TokensUnique(trips) && id in trips && HasToken(trips[id]) && TokenOf(trips[id]) == token
    ensures forall k :: k in trips && !Dead(trips[k], token) ==> k == id
    ensures forall k, u, now :: k in trips && LinkAdmits(trips[k], token, u, now) ==> k == id
  {
    forall k | k in trips && HasToken(trips[k]) && TokenOf(trips[k]) == token
      ensures k == id
    {
      assert SameToken(trips, k, id);
    }
  }

  /** A request by a link is accepted exactly when the link admits the user, who then comes in or waits. */
  lemma LinkJoinsIff(trips: Trips, id: TripId, token: Token, u: UserId, now: int)
    requires id in trips
    ensures var (outcome, after) := Serve(trips, id, LinkJoining(token, u, now));
            && (outcome.Ok? <==> LinkAdmits(trips[id], token, u, now))
            && (outcome.Ok? ==> Has(after[id], u, if Free(trips[id]) then Approved else Requested))
            && (!Dead(trips[id], token) && !Opens(trips[id], token, now) ==> outcome == Err(LinkExpired))
  {
  }
}
