/**
 * The seats of one trip: its counter, its participant rows and its shareable link, changed by requests to two
 * services. Each request is one step.
 */
module TripSeats {
  import opened Common

  type UserId = nat
  type Token = nat

  const DEFAULT_MAX := 20
  const EDIT_WINDOW_MS := 6 * 60 * 60 * 1000
  const HOUR_MS := 3600000

  datatype TripStatus = Planned | InProgress | Completed | Cancelled

  /** The status of a participant row; `Requested` is the row's 'pending'. */
  datatype Standing = Requested | Approved | Rejected | Left

  datatype Role = Admin | Member

  datatype Participant = Participant(status: Standing, role: Role, joinedAt: Option<int>, leftAt: Option<int>)

  datatype AccessMode = ViewOnly | AutoJoin | PasswordProtected

  datatype Link = Link(token: Token, mode: AccessMode, password: Option<string>, expiresAt: Option<int>, isActive: bool,
                       joinRequests: nat, successfulJoins: nat)

  datatype Trip = Trip(creator: UserId, status: TripStatus, isPaid: bool, start: Option<int>, max: int, current: int,
                       participants: map<UserId, Participant>, link: Option<Link>)

  datatype TripError =
    | TripNotFound | InvalidDepartureTime | InvalidRoute
    | NotTripAdmin | EditWindowClosed | TripNotEditable(trip: TripStatus) | AlreadyCompleted
    | CreatorCannotRequest | TripNotJoinable | TripFull | AlreadyRequested(status: Standing)
    | RequestNotFound | RequestNotPending(status: Standing) | CreatorCannotLeave | NotAMember
    | LinkNotFound | LinkExpired | CreatorCannotJoin | PasswordRequired

  type Outcome = Result<(), TripError>

  datatype TripChanges = TripChanges(max: Option<int>, isPaid: Option<bool>, start: Option<int>)

  datatype LinkChanges = LinkChanges(mode: Option<AccessMode>, password: Option<string>, expiresInHours: Option<nat>)

  function Or<T>(o: Option<T>, default: T): T {
    if o.Some? then o.value else default
  }

  predicate Given(password: Option<string>) {
    password.Some? && password.value != ""
  }

  /** `create`: the creator is a participant from the start, and counts. */
  function Created(creator: UserId, max: Option<int>, isPaid: bool, start: Option<int>, now: int): Trip {
    Trip(creator, Planned, isPaid, start, Or(max, DEFAULT_MAX), 1,
         map[creator := Participant(Approved, Admin, Some(now), None)], None)
  }

  function Update(t: Trip, userId: UserId, dto: TripChanges, now: int): (Outcome, Trip) {
    if t.creator != userId then (Err(NotTripAdmin), t)
    else if t.start.Some? && t.start.value - now < EDIT_WINDOW_MS && t.status.Planned? then (Err(EditWindowClosed), t)
    else if !t.status.Planned? then (Err(TripNotEditable(t.status)), t)
    else (Ok(()), t.(isPaid := Or(dto.isPaid, t.isPaid), max := Or(dto.max, t.max),
                     start := if dto.start.Some? then dto.start else t.start))
  }

  function Cancel(t: Trip, userId: UserId): (Outcome, Trip) {
    if t.creator != userId then (Err(NotTripAdmin), t)
    else if t.status.Completed? then (Err(AlreadyCompleted), t)
    else (Ok(()), t.(status := Cancelled))
  }

  predicate Returning(p: Participant) {
    p.status.Rejected? || p.status.Left?
  }

  function RequestJoin(t: Trip, userId: UserId): (Outcome, Trip) {
    if t.creator == userId then (Err(CreatorCannotRequest), t)
    else if !t.status.Planned? then (Err(TripNotJoinable), t)
    else if t.current >= t.max then (Err(TripFull), t)
    else if userId in t.participants && !Returning(t.participants[userId]) then
      (Err(AlreadyRequested(t.participants[userId].status)), t)
    else if userId in t.participants then
      (Ok(()), t.(participants := t.participants[userId := t.participants[userId].(status := Requested, joinedAt := None, leftAt := None)]))
    else (Ok(()), t.(participants := t.participants[userId := Participant(Requested, Member, None, None)]))
  }

  function ApproveJoin(t: Trip, adminId: UserId, userId: UserId, now: int): (Outcome, Trip) {
    if t.creator != adminId then (Err(NotTripAdmin), t)
    else if userId !in t.participants then (Err(RequestNotFound), t)
    else
      var p := t.participants[userId];
      if p.status.Approved? then (Ok(()), t)
      else if !p.status.Requested? then (Err(RequestNotPending(p.status)), t)
      else if t.current >= t.max then (Err(TripFull), t)
      else (Ok(()), t.(participants := t.participants[userId := p.(status := Approved, joinedAt := Some(now))],
                       current := t.current + 1))
  }

  function RejectJoin(t: Trip, adminId: UserId, userId: UserId): (Outcome, Trip) {
    if t.creator != adminId then (Err(NotTripAdmin), t)
    else if userId !in t.participants then (Err(RequestNotFound), t)
    else
      var p := t.participants[userId];
      if p.status.Rejected? then (Ok(()), t)
      else if !p.status.Requested? then (Err(RequestNotPending(p.status)), t)
      else (Ok(()), t.(participants := t.participants[userId := p.(status := Rejected)]))
  }

  function LeaveTrip(t: Trip, userId: UserId, now: int): (Outcome, Trip) {
    if t.creator == userId then (Err(CreatorCannotLeave), t)
    else if userId !in t.participants || t.participants[userId].status.Left? then (Err(NotAMember), t)
    else
      var p := t.participants[userId];
      (Ok(()), t.(participants := t.participants[userId := p.(status := Left, leftAt := Some(now))],
                  current := if p.status.Approved? then Max(0, t.current - 1) else t.current))
  }

  /** `joinViaLink`, with the link's counters. */
  function JoinViaLink(t: Trip, token: Token, userId: UserId, now: int): (Outcome, Trip) {
    if t.link.None? || t.link.value.token != token || !t.link.value.isActive then (Err(LinkNotFound), t)
    else
      var link := t.link.value;
      if link.expiresAt.Some? && link.expiresAt.value < now then (Err(LinkExpired), t)
      else if t.creator == userId then (Err(CreatorCannotJoin), t)
      else if !t.status.Planned? then (Err(TripNotJoinable), t)
      else if t.current >= t.max then (Err(TripFull), t)
      else if userId in t.participants && !Returning(t.participants[userId]) then
        (Err(AlreadyRequested(t.participants[userId].status)), t)
      else
        var auto := link.mode.AutoJoin? && !t.isPaid;
        var status := if auto then Approved else Requested;
        var joinedAt := if auto then Some(now) else None;
        var p := if userId in t.participants then t.participants[userId].(status := status, joinedAt := joinedAt)
                 else Participant(status, Member, joinedAt, None);
        (Ok(()), t.(participants := t.participants[userId := p],
                    current := if auto then t.current + 1 else t.current,
                    link := Some(Bumped(link, auto))))
  }

  function Bumped(link: Link, success: bool): Link {
    link.(joinRequests := link.joinRequests + 1,
          successfulJoins := if success then link.successfulJoins + 1 else link.successfulJoins)
  }

  function ExpiryOf(hours: Option<nat>, now: int): Option<int> {
    if hours.Some? then Some(now + hours.value * HOUR_MS) else None
  }

  function PasswordOf(password: Option<string>): Option<string> {
    if Given(password) then password else None
  }

  /** `token` stands for the generated token. */
  function UpsertLink(t: Trip, adminId: UserId, token: Token, dto: LinkChanges, now: int): (Outcome, Trip) {
    if t.creator != adminId then (Err(NotTripAdmin), t)
    else if dto.mode == Some(PasswordProtected) && !Given(dto.password) then (Err(PasswordRequired), t)
    else
      var replacement := Link(token, Or(dto.mode, ViewOnly), PasswordOf(dto.password), ExpiryOf(dto.expiresInHours, now), true, 0, 0);
      (Ok(()), t.(link := Some(if t.link.None? then replacement
                               else replacement.(joinRequests := t.link.value.joinRequests, successfulJoins := t.link.value.successfulJoins))))
  }

  function LinkUpdated(link: Link, dto: LinkChanges, now: int): Link {
    link.(mode := Or(dto.mode, link.mode),
          password := if Given(dto.password) then dto.password else link.password,
          expiresAt := if dto.expiresInHours.Some? then ExpiryOf(dto.expiresInHours, now) else link.expiresAt)
  }

  /** The stored password is not selected by the lookup, so switching to password-protected always needs one. */
  function UpdateLink(t: Trip, adminId: UserId, dto: LinkChanges, now: int): (Outcome, Trip) {
    if t.creator != adminId then (Err(NotTripAdmin), t)
    else if t.link.None? then (Err(LinkNotFound), t)
    else if dto.mode == Some(PasswordProtected) && !Given(dto.password) then (Err(PasswordRequired), t)
    else (Ok(()), t.(link := Some(LinkUpdated(t.link.value, dto, now))))
  }

  /** What the check is written to do: a password is required only when none is stored. */
  function UpdateLinkWithHash(t: Trip, adminId: UserId, dto: LinkChanges, now: int): (Outcome, Trip) {
    if t.creator != adminId then (Err(NotTripAdmin), t)
    else if t.link.None? then (Err(LinkNotFound), t)
    else if dto.mode == Some(PasswordProtected) && !Given(dto.password) && t.link.value.password.None? then (Err(PasswordRequired), t)
    else (Ok(()), t.(link := Some(LinkUpdated(t.link.value, dto, now))))
  }

  /** The requests that the code refuses because it does not see the stored password. */
  predicate KeepsPassword(t: Trip, adminId: UserId, dto: LinkChanges) {
    && t.creator == adminId && t.link.Some? && t.link.value.password.Some?
    && dto.mode == Some(PasswordProtected) && !Given(dto.password)
  }

  /** The two answer differently exactly on those requests, whatever the time. */
  lemma HashMattersIff(t: Trip, adminId: UserId, dto: LinkChanges, now: int)
    ensures UpdateLinkWithHash(t, adminId, dto, now) != UpdateLink(t, adminId, dto, now) <==> KeepsPassword(t, adminId, dto)
    ensures KeepsPassword(t, adminId, dto) ==>
              UpdateLink(t, adminId, dto, now) == (Err(PasswordRequired), t) && UpdateLinkWithHash(t, adminId, dto, now).0.Ok?
  {
  }

  function DisableLink(t: Trip, adminId: UserId): (Outcome, Trip) {
    if t.creator != adminId then (Err(NotTripAdmin), t)
    else (Ok(()), if t.link.None? then t else t.(link := Some(t.link.value.(isActive := false))))
  }

  function RegenerateLink(t: Trip, adminId: UserId, token: Token): (Outcome, Trip) {
    if t.creator != adminId then (Err(NotTripAdmin), t)
    else if t.link.None? then (Err(LinkNotFound), t)
    else (Ok(()), t.(link := Some(t.link.value.(token := token, isActive := true))))
  }

  // ---- Runs ----------------------------------------------------------------------------------------------

  datatype Request =
    | Updating(userId: UserId, changes: TripChanges, now: int)
    | Cancelling(userId: UserId)
    | Joining(userId: UserId)
    | Approving(adminId: UserId, userId: UserId, now: int)
    | Rejecting(adminId: UserId, userId: UserId)
    | Leaving(userId: UserId, now: int)
    | LinkJoining(token: Token, userId: UserId, now: int)
    | LinkUpserting(adminId: UserId, token: Token, link: LinkChanges, now: int)
    | LinkUpdating(adminId: UserId, link: LinkChanges, now: int)
    | LinkDisabling(adminId: UserId)
    | LinkRegenerating(adminId: UserId, token: Token)

  function Answer(t: Trip, r: Request): (Outcome, Trip) {
    match r
    case Updating(userId, changes, now) => Update(t, userId, changes, now)
    case Cancelling(userId) => Cancel(t, userId)
    case Joining(userId) => RequestJoin(t, userId)
    case Approving(adminId, userId, now) => ApproveJoin(t, adminId, userId, now)
    case Rejecting(adminId, userId) => RejectJoin(t, adminId, userId)
    case Leaving(userId, now) => LeaveTrip(t, userId, now)
    case LinkJoining(token, userId, now) => JoinViaLink(t, token, userId, now)
    case LinkUpserting(adminId, token, link, now) => UpsertLink(t, adminId, token, link, now)
    case LinkUpdating(adminId, link, now) => UpdateLink(t, adminId, link, now)
    case LinkDisabling(adminId) => DisableLink(t, adminId)
    case LinkRegenerating(adminId, token) => RegenerateLink(t, adminId, token)
  }

  function Step(t: Trip, r: Request): Trip {
    Answer(t, r).1
  }

  function Run(t: Trip, rs: seq<Request>): Trip {
    if rs == [] then t else Step(Run(t, rs[..|rs| - 1]), rs[|rs| - 1])
  }

  /** And such a request arises: an admin who protects the link, and then repeats the mode without the password. */
  lemma RepeatingTheModeIsRefused(creator: UserId, token: Token, start: int)
    ensures var dto := LinkChanges(Some(PasswordProtected), Some("secret"), None);
            var t := Run(Created(creator, None, false, None, start), [LinkUpserting(creator, token, dto, start)]);
            KeepsPassword(t, creator, dto.(password := None)) && UpdateLink(t, creator, dto.(password := None), start).0 == Err(PasswordRequired)
  {
    var dto := LinkChanges(Some(PasswordProtected), Some("secret"), None);
    var r := LinkUpserting(creator, token, dto, start);
    assert [r][..0] == [];
    assert Run(Created(creator, None, false, None, start), [r]) == Step(Created(creator, None, false, None, start), r);
  }

  // ---- The counter ---------------------------------------------------------------------------------------

  function ApprovedIn(t: Trip): set<UserId> {
    set u | u in t.participants && t.participants[u].status.Approved?
  }

  ghost predicate Inv(t: Trip) {
    && t.current == |ApprovedIn(t)|
    && t.creator in ApprovedIn(t)
    && LinkCountsOrdered(t)
  }

  /** A successful join was first a join request. */
  ghost predicate LinkCountsOrdered(t: Trip) {
    t.link.Some? ==> t.link.value.successfulJoins <= t.link.value.joinRequests
  }

  ghost predicate Keeps(t: Trip, t': Trip) {
    ApprovedIn(t') == ApprovedIn(t) && t'.current == t.current
  }

  ghost predicate Admits(t: Trip, t': Trip, u: UserId) {
    && u !in ApprovedIn(t) && ApprovedIn(t') == ApprovedIn(t) + {u}
    && t'.current == t.current + 1 && t.current < t.max && t'.max == t.max
  }

  ghost predicate Releases(t: Trip, t': Trip, u: UserId) {
    && u in ApprovedIn(t) && u != t.creator && ApprovedIn(t') == ApprovedIn(t) - {u}
    && t'.current == Max(0, t.current - 1)
  }

  lemma ApprovedAfter(t: Trip, t': Trip, u: UserId, p: Participant)
    requires t'.participants == t.participants[u := p]
    ensures ApprovedIn(t') == if p.status.Approved? then ApprovedIn(t) + {u} else ApprovedIn(t) - {u}
  {
  }

  lemma ApproveMoves(t: Trip, adminId: UserId, u: UserId, now: int)
    ensures var t' := ApproveJoin(t, adminId, u, now).1; t' == t || Admits(t, t', u)
  {
    var t' := ApproveJoin(t, adminId, u, now).1;
    if t' != t {
      ApprovedAfter(t, t', u, t'.participants[u]);
    }
  }

  lemma LinkJoinMoves(t: Trip, token: Token, u: UserId, now: int)
    ensures var t' := JoinViaLink(t, token, u, now).1; Keeps(t, t') || Admits(t, t', u)
  {
    var t' := JoinViaLink(t, token, u, now).1;
    if t' != t {
      ApprovedAfter(t, t', u, t'.participants[u]);
    }
  }

  lemma LeaveMoves(t: Trip, u: UserId, now: int)
    ensures var t' := LeaveTrip(t, u, now).1; Keeps(t, t') || Releases(t, t', u)
  {
    var t' := LeaveTrip(t, u, now).1;
    if t' != t {
      ApprovedAfter(t, t', u, t'.participants[u]);
    }
  }

  lemma RequestMoves(t: Trip, u: UserId)
    ensures Keeps(t, RequestJoin(t, u).1)
  {
    var t' := RequestJoin(t, u).1;
    if t' != t {
      ApprovedAfter(t, t', u, t'.participants[u]);
    }
  }

  lemma RejectMoves(t: Trip, adminId: UserId, u: UserId)
    ensures Keeps(t, RejectJoin(t, adminId, u).1)
  {
    var t' := RejectJoin(t, adminId, u).1;
    if t' != t {
      ApprovedAfter(t, t', u, t'.participants[u]);
    }
  }

  /** A step adds one user to the approved ones, takes one away, or leaves them alone; the counter follows. */
  lemma StepMovesOne(t: Trip, r: Request)
    ensures var t' := Step(t, r); Keeps(t, t') || (exists u :: Admits(t, t', u)) || (exists u :: Releases(t, t', u))
  {
    match r
    case Approving(adminId, u, now) => ApproveMoves(t, adminId, u, now);
    case LinkJoining(token, u, now) => LinkJoinMoves(t, token, u, now);
    case Leaving(u, now) => LeaveMoves(t, u, now);
    case Joining(u) => RequestMoves(t, u);
    case Rejecting(adminId, u) => RejectMoves(t, adminId, u);
    case _ => assert Step(t, r).participants == t.participants;
  }

  lemma StepKeepsCreator(t: Trip, r: Request)
    ensures Step(t, r).creator == t.creator
    ensures LinkCountsOrdered(t) ==> LinkCountsOrdered(Step(t, r))
  {
  }

  lemma AtLeastTwo(s: set<UserId>, u: UserId, v: UserId)
    requires u in s && v in s && u != v
    ensures |s| >= 2
  {
    assert {u, v} <= s;
    SubsetSmaller({u, v}, s);
  }

  lemma StepKeepsInv(t: Trip, r: Request)
    requires Inv(t)
    ensures Inv(Step(t, r))
  {
    StepMovesOne(t, r);
    StepKeepsCreator(t, r);
    if u :| Releases(t, Step(t, r), u) {
      AtLeastTwo(ApprovedIn(t), u, t.creator);
    }
  }

  lemma {:induction false} RunKeepsInv(t: Trip, rs: seq<Request>)
    requires Inv(t)
    ensures Inv(Run(t, rs)) && Run(t, rs).creator == t.creator
  {
    if rs != [] {
      RunKeepsInv(t, rs[..|rs| - 1]);
      StepKeepsInv(Run(t, rs[..|rs| - 1]), rs[|rs| - 1]);
      StepKeepsCreator(Run(t, rs[..|rs| - 1]), rs[|rs| - 1]);
    }
  }

  lemma CreatedInv(creator: UserId, max: Option<int>, isPaid: bool, start: Option<int>, now: int)
    ensures Inv(Created(creator, max, isPaid, start, now))
  {
    assert ApprovedIn(Created(creator, max, isPaid, start, now)) == {creator};
  }

  /**
   * After any requests to either service, the counter equals the number of approved rows, the creator is one
   * of them, and so the count is at least 1.
   */
  lemma CounterIsExact(creator: UserId, max: Option<int>, isPaid: bool, start: Option<int>, now: int, rs: seq<Request>)
    ensures var t := Run(Created(creator, max, isPaid, start, now), rs);
            t.current == |ApprovedIn(t)| && creator in ApprovedIn(t) && t.current >= 1
  {
    CreatedInv(creator, max, isPaid, start, now);
    RunKeepsInv(Created(creator, max, isPaid, start, now), rs);
  }

  /** The clamp in `leaveTrip` never acts: an approved member who leaves is not the last. */
  lemma ClampNeverActs(creator: UserId, max: Option<int>, isPaid: bool, start: Option<int>, now: int, rs: seq<Request>,
                       u: UserId, at: int)
    ensures var t := Run(Created(creator, max, isPaid, start, now), rs);
            u in ApprovedIn(t) && LeaveTrip(t, u, at).0.Ok? ==> LeaveTrip(t, u, at).1.current == t.current - 1 >= 1
  {
    CounterIsExact(creator, max, isPaid, start, now, rs);
    RunKeepsInv(Created(creator, max, isPaid, start, now), rs) by { CreatedInv(creator, max, isPaid, start, now); }
    var t := Run(Created(creator, max, isPaid, start, now), rs);
    if u in ApprovedIn(t) && u != creator {
      AtLeastTwo(ApprovedIn(t), u, creator);
    }
  }

  // ---- Who may change what -------------------------------------------------------------------------------

  /** The user who makes the request. */
  function Actor(r: Request): UserId {
    match r
    case Updating(userId, _, _) => userId
    case Cancelling(userId) => userId
    case Joining(userId) => userId
    case Approving(adminId, _, _) => adminId
    case Rejecting(adminId, _) => adminId
    case Leaving(userId, _) => userId
    case LinkJoining(_, userId, _) => userId
    case LinkUpserting(adminId, _, _, _) => adminId
    case LinkUpdating(adminId, _, _) => adminId
    case LinkDisabling(adminId) => adminId
    case LinkRegenerating(adminId, _) => adminId
  }

  function RowOf(t: Trip, u: UserId): Option<Participant> {
    if u in t.participants then Some(t.participants[u]) else None
  }

  /** The link apart from its counters. */
  function Terms(t: Trip): Option<Link> {
    if t.link.None? then None else Some(t.link.value.(joinRequests := 0, successfulJoins := 0))
  }

  ghost predicate SameTerms(t: Trip, t': Trip) {
    t'.max == t.max && t'.isPaid == t.isPaid && t'.start == t.start && t'.status == t.status && Terms(t') == Terms(t)
  }

  /**
   * A refused request changes nothing. One made by anybody but the creator changes no row but that user's own, and
   * neither limit, price, start, status nor the terms of the link; and it never approves itself but through a free
   * auto-join link.
   */
  lemma OnlyCreatorGoverns(t: Trip, r: Request)
    ensures Answer(t, r).0.Err? ==> Step(t, r) == t
    ensures Actor(r) != t.creator ==> SameTerms(t, Step(t, r)) && forall u :: u != Actor(r) ==> RowOf(Step(t, r), u) == RowOf(t, u)
    ensures Actor(r) != t.creator && Actor(r) in ApprovedIn(Step(t, r)) - ApprovedIn(t) ==>
              r.LinkJoining? && t.link.Some? && t.link.value.mode.AutoJoin? && t.link.value.isActive && !t.isPaid
  {
  }

  // ---- Capacity ------------------------------------------------------------------------------------------

  /** The largest limit the trip has had during a run. */
  function LargestMax(t: Trip, rs: seq<Request>): int {
    if rs == [] then t.max else Max(LargestMax(t, rs[..|rs| - 1]), Run(t, rs).max)
  }

  /** The count never exceeds the largest limit so far; and a step that raises it ends within the current limit. */
  lemma {:induction false} WithinLargestMax(t: Trip, rs: seq<Request>)
    requires Inv(t) && t.current <= t.max
    ensures Run(t, rs).current <= LargestMax(t, rs)
    ensures rs != [] ==> var before, after := Run(t, rs[..|rs| - 1]), Run(t, rs);
              after.current > before.current ==> after.current <= after.max
  {
    if rs != [] {
      var init, last := rs[..|rs| - 1], rs[|rs| - 1];
      WithinLargestMax(t, init);
      RunKeepsInv(t, init);
      StepMovesOne(Run(t, init), last);
    }
  }

  /** Full at every point of the run, before each request. */
  ghost predicate FullThroughout(t: Trip, rs: seq<Request>) {
    forall i :: 0 <= i < |rs| ==> Full(Run(t, rs[..i]))
  }

  ghost predicate Full(t: Trip) {
    t.current >= t.max
  }

  /** Once the limit is at or below the count, nobody is admitted by either service until enough members leave. */
  lemma {:induction false} NobodyAdmittedWhileFull(t: Trip, rs: seq<Request>)
    requires Inv(t) && FullThroughout(t, rs)
    ensures ApprovedIn(Run(t, rs)) <= ApprovedIn(t)
  {
    if rs != [] {
      var init, last := rs[..|rs| - 1], rs[|rs| - 1];
      forall i | 0 <= i < |init|
        ensures Full(Run(t, init[..i]))
      {
        assert init[..i] == rs[..i];
      }
      NobodyAdmittedWhileFull(t, init);
      RunKeepsInv(t, init);
      assert Full(Run(t, rs[..|init|]));
      StepMovesOne(Run(t, init), last);
    }
  }

  // ---- Links ---------------------------------------------------------------------------------------------

  /** The token opens nothing: there is no link, it has another token, or it is disabled. */
  ghost predicate Dead(t: Trip, token: Token) {
    t.link.None? || t.link.value.token != token || !t.link.value.isActive
  }

  /** No request of the run generates this token. */
  ghost predicate NeverGenerated(rs: seq<Request>, token: Token) {
    forall r :: r in rs ==> (r.LinkUpserting? || r.LinkRegenerating?) ==> r.token != token
  }

  /** A token once replaced, regenerated or disabled never works again. */
  lemma {:induction false} DeadTokenStaysDead(t: Trip, token: Token, rs: seq<Request>)
    requires Dead(t, token) && NeverGenerated(rs, token)
    ensures Dead(Run(t, rs), token)
    ensures forall userId, now :: JoinViaLink(Run(t, rs), token, userId, now) == (Err(LinkNotFound), Run(t, rs))
  {
    if rs != [] {
      var init, last := rs[..|rs| - 1], rs[|rs| - 1];
      assert forall r :: r in init ==> r in rs;
      assert last in rs;
      DeadTokenStaysDead(t, token, init);
    }
  }
}
