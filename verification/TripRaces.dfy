/**
 * One trip under requests that overlap. A request reads rows and writes what follows from them later, without a lock
 * and without reading again. `update`, `cancel`, an approval and the departure of an approved member save the whole
 * row of the trip that they read, limit and counter included; so does a change of the link with the row of the link.
 * Joining by a link saves a row and then counts, in separate commands.
 */
module TripRaces {
  import opened Common
  import opened TripSeats

  type CallId = nat

  /** The row of the trip itself. */
  datatype Columns = Columns(status: TripStatus, isPaid: bool, start: Option<int>, max: int, current: int)

  /** What a request under way will do next. `existed` says whether the user's row was found. */
  datatype Pending =
    | SavesTrip(columns: Columns)
    | SavesRow(userId: UserId, existed: bool, row: Participant)
    | SavesBoth(userId: UserId, row: Participant, columns: Columns)
    | Enters(userId: UserId, existed: bool, row: Participant, token: Token, auto: bool)
    | Counts(auto: bool)
    | SavesLink(link: Link)
    | Disables

  function ColumnsOf(t: Trip): Columns {
    Columns(t.status, t.isPaid, t.start, t.max, t.current)
  }

  function WithColumns(t: Trip, r: Columns): Trip {
    t.(status := r.status, isPaid := r.isPaid, start := r.start, max := r.max, current := r.current)
  }

  function WithRow(t: Trip, u: UserId, row: Participant): Trip {
    t.(participants := t.participants[u := row])
  }

  predicate AutoApproves(t: Trip) {
    t.link.Some? && t.link.value.mode.AutoJoin? && !t.isPaid
  }

  /** The reads of a request: what it goes on to write, or nothing if it is refused or has nothing to write. */
  function Looked(t: Trip, r: Request): Option<Pending> {
    var (outcome, t') := Answer(t, r);
    if outcome.Err? then None
    else match r
      case Updating(_, _, _) => Some(SavesTrip(ColumnsOf(t')))
      case Cancelling(_) => Some(SavesTrip(ColumnsOf(t')))
      case Joining(u) => Some(SavesRow(u, u in t.participants, t'.participants[u]))
      case Approving(_, u, _) =>
        if t.participants[u].status.Approved? then None else Some(SavesBoth(u, t'.participants[u], ColumnsOf(t')))
      case Rejecting(_, u) => if t.participants[u].status.Rejected? then None else Some(SavesRow(u, true, t'.participants[u]))
      case Leaving(u, _) =>
        if t.participants[u].status.Approved? then Some(SavesBoth(u, t'.participants[u], ColumnsOf(t')))
        else Some(SavesRow(u, true, t'.participants[u]))
      case LinkJoining(token, u, _) => Some(Enters(u, u in t.participants, t'.participants[u], token, AutoApproves(t)))
      case LinkUpserting(_, _, _, _) => Some(SavesLink(t'.link.value))
      case LinkUpdating(_, _, _) => Some(SavesLink(t'.link.value))
      case LinkDisabling(_) => Some(Disables)
      case LinkRegenerating(_, _) => Some(SavesLink(t'.link.value))
  }

  /** The next write, on the rows as they are now, and what is left to do after it. A second row is refused by its key. */
  function Proceed(t: Trip, p: Pending): (Trip, Option<Pending>) {
    match p
    case SavesTrip(r) => (WithColumns(t, r), None)
    case SavesRow(u, existed, row) => (if !existed && u in t.participants then t else WithRow(t, u, row), None)
    case SavesBoth(u, row, r) => (WithRow(WithColumns(t, r), u, row), None)
    case Enters(u, existed, row, _, auto) =>
      if !existed && u in t.participants then (t, None) else (WithRow(t, u, row), Some(Counts(auto)))
    case Counts(auto) =>
      var counted := if auto then t.(current := t.current + 1) else t;
      (if t.link.None? then counted else counted.(link := Some(Bumped(t.link.value, auto))), None)
    case SavesLink(link) => (t.(link := Some(link)), None)
    case Disables => (if t.link.None? then t else t.(link := Some(t.link.value.(isActive := false))), None)
  }

  // ---- Runs ----------------------------------------------------------------------------------------------

  datatype Event = Look(call: CallId, request: Request) | Go(call: CallId)

  /** The trip, the requests under way, and the largest limit so far. */
  datatype State = State(trip: Trip, calls: map<CallId, Pending>, peak: int)

  function Start(t: Trip): State {
    State(t, map[], t.max)
  }

  predicate Enabled(s: State, e: Event) {
    match e
    case Look(c, _) => c !in s.calls
    case Go(c) => c in s.calls
  }

  function After(calls: map<CallId, Pending>, c: CallId, next: Option<Pending>): map<CallId, Pending> {
    if next.Some? then calls[c := next.value] else calls - {c}
  }

  function Move(s: State, e: Event): State
    requires Enabled(s, e)
  {
    match e
    case Look(c, r) => s.(calls := After(s.calls, c, Looked(s.trip, r)))
    case Go(c) =>
      var (trip, next) := Proceed(s.trip, s.calls[c]);
      State(trip, After(s.calls, c, next), Max(s.peak, trip.max))
  }

  ghost predicate CanRun(s: State, es: seq<Event>)
    decreases |es|, 0
  {
    es == [] || (CanRun(s, es[..|es| - 1]) && Enabled(Reach(s, es[..|es| - 1]), es[|es| - 1]))
  }

  ghost function Reach(s: State, es: seq<Event>): State
    requires CanRun(s, es)
    decreases |es|, 1
  {
    if es == [] then s else Move(Reach(s, es[..|es| - 1]), es[|es| - 1])
  }

  /** At no point of the run are more than `k` requests under way. With `k` 1, requests do not overlap. */
  ghost predicate AtMost(s: State, es: seq<Event>, k: nat)
    requires CanRun(s, es)
    decreases |es|
  {
    |Reach(s, es).calls| <= k && (es != [] ==> AtMost(s, es[..|es| - 1], k))
  }

  ghost predicate Leads(s: State, es: seq<Event>, t: State, k: nat) {
    CanRun(s, es) && Reach(s, es) == t && AtMost(s, es, k)
  }

  lemma Extend(s: State, es: seq<Event>, t: State, e: Event, u: State, k: nat)
    requires Leads(s, es, t, k) && Enabled(t, e) && Move(t, e) == u && |u.calls| <= k
    ensures Leads(s, es + [e], u, k)
  {
    assert (es + [e])[..|es|] == es;
  }

  lemma {:induction false} AtMostMore(s: State, es: seq<Event>, k: nat, m: nat)
    requires CanRun(s, es) && AtMost(s, es, k) && k <= m
    ensures AtMost(s, es, m)
    decreases |es|
  {
    if es != [] {
      AtMostMore(s, es[..|es| - 1], k, m);
    }
  }

  // ---- One request after another -------------------------------------------------------------------------

  /** The trip when the request has done all that is left of it, with nothing in between. */
  function Finish(t: Trip, p: Pending): Trip
    decreases if p.Enters? then 1 else 0
  {
    var (t', next) := Proceed(t, p);
    if next.None? then t' else Finish(t', next.value)
  }

  /** A request that meets no other does what it does as one step. */
  lemma AloneIsOneStep(t: Trip, r: Request)
    ensures Step(t, r) == if Looked(t, r).None? then t else Finish(t, Looked(t, r).value)
  {
  }

  lemma OnlyCall(s: State, c: CallId, id: CallId)
    requires |s.calls| <= 1 && c in s.calls && id in s.calls
    ensures id == c
  {
    MapSize(s.calls);
    if id != c {
      SubsetSmaller({id, c}, s.calls.Keys);
    }
  }

  /** The trip when the requests under way are done, if there is at most one. */
  ghost function Outcome(s: State): Trip {
    if id :| id in s.calls then Finish(s.trip, s.calls[id]) else s.trip
  }

  lemma OutcomeIs(s: State, id: CallId)
    requires |s.calls| <= 1 && id in s.calls
    ensures Outcome(s) == Finish(s.trip, s.calls[id])
  {
    var d :| d in s.calls && Outcome(s) == Finish(s.trip, s.calls[d]);
    OnlyCall(s, id, d);
  }

  lemma NoneBefore(s: State, e: Event)
    requires Enabled(s, e) && e.Look? && Looked(s.trip, e.request).Some? && |Move(s, e).calls| <= 1
    ensures s.calls == map[]
  {
    assert |Move(s, e).calls| == |s.calls| + 1;
  }

  lemma NoneAfter(s: State, e: Event)
    requires Enabled(s, e) && e.Go? && |s.calls| <= 1 && e.call !in Move(s, e).calls
    ensures Move(s, e).calls == map[]
  {
    if id :| id in Move(s, e).calls {
      OnlyCall(s, e.call, id);
    }
  }

  lemma LookMovesOutcome(s: State, e: Event)
    requires |s.calls| <= 1 && Enabled(s, e) && e.Look? && |Move(s, e).calls| <= 1
    ensures Outcome(Move(s, e)) == Outcome(s) || (s.calls == map[] && Outcome(Move(s, e)) == Step(s.trip, e.request))
  {
    if Looked(s.trip, e.request).Some? {
      NoneBefore(s, e);
      OutcomeIs(Move(s, e), e.call);
      AloneIsOneStep(s.trip, e.request);
    } else {
      assert Move(s, e).calls == s.calls;
    }
  }

  lemma GoKeepsOutcome(s: State, e: Event)
    requires |s.calls| <= 1 && Enabled(s, e) && e.Go? && |Move(s, e).calls| <= 1
    ensures Outcome(Move(s, e)) == Outcome(s)
  {
    OutcomeIs(s, e.call);
    if e.call in Move(s, e).calls {
      OutcomeIs(Move(s, e), e.call);
    } else {
      NoneAfter(s, e);
    }
  }

  lemma RestingOutcome(s: State)
    requires s.calls == map[]
    ensures Outcome(s) == s.trip
  {
  }

  /** When requests do not overlap, what they leave is left by some of them as single steps, one after another. */
  lemma {:induction false} SerialRun(t: Trip, es: seq<Event>) returns (rs: seq<Request>)
    requires CanRun(Start(t), es) && AtMost(Start(t), es, 1)
    ensures Outcome(Reach(Start(t), es)) == Run(t, rs)
    decreases |es|
  {
    if es == [] {
      rs := [];
    } else {
      var s, e := Reach(Start(t), es[..|es| - 1]), es[|es| - 1];
      rs := SerialRun(t, es[..|es| - 1]);
      if e.Look? { LookMovesOutcome(s, e); } else { GoKeepsOutcome(s, e); }
      if Outcome(Reach(Start(t), es)) != Outcome(s) {
        RestingOutcome(s);
        assert (rs + [e.request])[..|rs|] == rs;
        rs := rs + [e.request];
      }
    }
  }

  // ---- Without overlap -----------------------------------------------------------------------------------

  /** The counter is exact and the creator is in when the requests under way are done, and nobody is in excess. */
  ghost predicate Settled(s: State) {
    && Inv(Outcome(s)) && s.trip.max <= s.peak && |ApprovedIn(Outcome(s))| <= Max(s.peak, Outcome(s).max)
  }

  lemma StepWithinPeak(t: Trip, r: Request, peak: int)
    requires Inv(t) && t.max <= peak && |ApprovedIn(t)| <= peak
    ensures Inv(Step(t, r)) && |ApprovedIn(Step(t, r))| <= Max(peak, Step(t, r).max)
  {
    StepMovesOne(t, r);
    StepKeepsInv(t, r);
  }

  lemma GoKeepsPeak(s: State, e: Event)
    requires Enabled(s, e) && e.Go? && s.trip.max <= s.peak
    ensures Move(s, e).trip.max <= Move(s, e).peak && s.peak <= Move(s, e).peak
  {
  }

  lemma MoveStaysSettled(s: State, e: Event)
    requires |s.calls| <= 1 && Settled(s) && Enabled(s, e) && |Move(s, e).calls| <= 1
    ensures Settled(Move(s, e))
  {
    if e.Look? {
      LookMovesOutcome(s, e);
      if Outcome(Move(s, e)) != Outcome(s) {
        RestingOutcome(s);
        StepWithinPeak(s.trip, e.request, s.peak);
      }
    } else {
      GoKeepsOutcome(s, e);
      GoKeepsPeak(s, e);
    }
  }

  lemma {:induction false} RunStaysSettled(t: Trip, es: seq<Event>)
    requires Inv(t) && t.current <= t.max && CanRun(Start(t), es) && AtMost(Start(t), es, 1)
    ensures Settled(Reach(Start(t), es))
    decreases |es|
  {
    if es == [] {
      RestingOutcome(Start(t));
    } else {
      RunStaysSettled(t, es[..|es| - 1]);
      MoveStaysSettled(Reach(Start(t), es[..|es| - 1]), es[|es| - 1]);
    }
  }

  // ---- With overlap --------------------------------------------------------------------------------------

  const NONE: map<CallId, Pending> := map[]

  const ASKED := Participant(Requested, Member, None, None)

  const IN := Participant(Approved, Member, Some(0), None)

  /** A trip for two whose creator is in; users 1 and 2 ask to join. */
  const SMALL := Created(0, Some(2), false, None, 0)

  const ASKED_ONCE := WithRow(SMALL, 1, ASKED)

  const ASKED_TWICE := WithRow(ASKED_ONCE, 2, ASKED)

  const TWO_SEATS := Columns(Planned, false, None, 2, 2)

  const ONE_IN := WithRow(WithColumns(ASKED_TWICE, TWO_SEATS), 1, IN)

  const BOTH_IN := WithRow(ONE_IN, 2, IN)

  function Rest(t: Trip): State {
    State(t, NONE, 2)
  }

  /** A request that meets no other. */
  lemma OneAlone(s: State, es: seq<Event>, t: Trip, r: Request, p: Pending, u: Trip) returns (more: seq<Event>)
    requires Leads(s, es, Rest(t), 2) && Looked(t, r) == Some(p) && Proceed(t, p) == (u, None) && u.max == 2
    ensures Leads(s, more, Rest(u), 2)
  {
    var one := State(t, NONE[1 := p], 2);
    Extend(s, es, Rest(t), Look(1, r), one, 2);
    UpdateThenRemove(NONE, 1, p);
    Extend(s, es + [Look(1, r)], one, Go(1), Rest(u), 2);
    more := es + [Look(1, r)] + [Go(1)];
  }

  lemma AsksLook()
    ensures Looked(SMALL, Joining(1)) == Some(SavesRow(1, false, ASKED))
    ensures Looked(ASKED_ONCE, Joining(2)) == Some(SavesRow(2, false, ASKED))
  {
  }

  lemma AsksRun() returns (es: seq<Event>)
    ensures Leads(Start(SMALL), es, Rest(ASKED_TWICE), 2)
  {
    AsksLook();
    es := OneAlone(Start(SMALL), [], SMALL, Joining(1), SavesRow(1, false, ASKED), ASKED_ONCE);
    es := OneAlone(Start(SMALL), es, ASKED_ONCE, Joining(2), SavesRow(2, false, ASKED), ASKED_TWICE);
  }

  const APPROVES_1 := SavesBoth(1, IN, TWO_SEATS)

  const APPROVES_2 := SavesBoth(2, IN, TWO_SEATS)

  lemma ApprovalsLook()
    ensures Looked(ASKED_TWICE, Approving(0, 1, 0)) == Some(APPROVES_1) && Looked(ASKED_TWICE, Approving(0, 2, 0)) == Some(APPROVES_2)
  {
  }

  lemma ApprovalsWrite()
    ensures Move(State(ASKED_TWICE, map[1 := APPROVES_1, 2 := APPROVES_2], 2), Go(1)) == State(ONE_IN, map[2 := APPROVES_2], 2)
    ensures Move(State(ONE_IN, map[2 := APPROVES_2], 2), Go(2)) == Rest(BOTH_IN)
  {
    assert map[1 := APPROVES_1, 2 := APPROVES_2] - {1} == map[2 := APPROVES_2];
    assert map[2 := APPROVES_2] - {2} == NONE;
  }

  lemma AllIn()
    ensures ApprovedIn(BOTH_IN) == {0, 1, 2} && |ApprovedIn(BOTH_IN)| == 3 && BOTH_IN.current == 2 && BOTH_IN.max == 2
  {
  }

  /** Two approvals that both read 1 both write 2: three are approved, one more than the limit, and the counter says two. */
  lemma LostUpdate() returns (es: seq<Event>)
    ensures Leads(Start(SMALL), es, Rest(BOTH_IN), 2)
    ensures BOTH_IN.current == 2 && |ApprovedIn(BOTH_IN)| == 3 && BOTH_IN.max == 2
  {
    var s, asked := Start(SMALL), ASKED_TWICE;
    AllIn();
    ApprovalsLook();
    ApprovalsWrite();
    es := AsksRun();
    Extend(s, es, Rest(asked), Look(1, Approving(0, 1, 0)), State(asked, NONE[1 := APPROVES_1], 2), 2);
    es := es + [Look(1, Approving(0, 1, 0))];
    assert NONE[1 := APPROVES_1][2 := APPROVES_2] == map[1 := APPROVES_1, 2 := APPROVES_2];
    Extend(s, es, State(asked, NONE[1 := APPROVES_1], 2), Look(2, Approving(0, 2, 0)), State(asked, map[1 := APPROVES_1, 2 := APPROVES_2], 2), 2);
    es := es + [Look(2, Approving(0, 2, 0))];
    Extend(s, es, State(asked, map[1 := APPROVES_1, 2 := APPROVES_2], 2), Go(1), State(ONE_IN, map[2 := APPROVES_2], 2), 2);
    es := es + [Go(1)];
    Extend(s, es, State(ONE_IN, map[2 := APPROVES_2], 2), Go(2), Rest(BOTH_IN), 2);
    es := es + [Go(2)];
  }

  /** A trip as `create` leaves it, with room for its creator. */
  ghost predicate New(t: Trip) {
    exists creator, max, isPaid, start, now :: t == Created(creator, max, isPaid, start, now) && t.max >= 1
  }

  lemma NewIsSettled(t: Trip)
    requires New(t)
    ensures Inv(t) && t.current == 1 <= t.max
  {
    var creator, max, isPaid, start, now :| t == Created(creator, max, isPaid, start, now) && t.max >= 1;
    CreatedInv(creator, max, isPaid, start, now);
  }

  lemma SmallIsNew()
    ensures New(SMALL)
  {
  }

  predicate Exact(s: State) {
    s.trip.current == |ApprovedIn(s.trip)|
  }

  ghost predicate ExactAtRest(k: nat) {
    forall t, es :: New(t) && CanRun(Start(t), es) && AtMost(Start(t), es, k) && Reach(Start(t), es).calls == map[] ==> Exact(Reach(Start(t), es))
  }

  /** The counter is exact, whenever no request is under way, in every run exactly when requests to the trip do not overlap. */
  lemma ExactIff(k: nat)
    ensures ExactAtRest(k) <==> k <= 1
  {
    if k <= 1 {
      forall t, es | New(t) && CanRun(Start(t), es) && AtMost(Start(t), es, k) && Reach(Start(t), es).calls == map[]
        ensures Exact(Reach(Start(t), es))
      {
        AtMostMore(Start(t), es, k, 1);
        NewIsSettled(t);
        RunStaysSettled(t, es);
        RestingOutcome(Reach(Start(t), es));
      }
    } else {
      var es := LostUpdate();
      SmallIsNew();
      AtMostMore(Start(SMALL), es, 2, k);
      assert !Exact(Reach(Start(SMALL), es));
    }
  }

  predicate WithinPeak(s: State) {
    |ApprovedIn(s.trip)| <= s.peak
  }

  ghost predicate CapacityHolds(k: nat) {
    forall t, es :: New(t) && CanRun(Start(t), es) && AtMost(Start(t), es, k) && Reach(Start(t), es).calls == map[] ==> WithinPeak(Reach(Start(t), es))
  }

  /** No more are approved than the largest limit so far, changes of the limit included, exactly then. */
  lemma CapacityIff(k: nat)
    ensures CapacityHolds(k) <==> k <= 1
  {
    if k <= 1 {
      forall t, es | New(t) && CanRun(Start(t), es) && AtMost(Start(t), es, k) && Reach(Start(t), es).calls == map[]
        ensures WithinPeak(Reach(Start(t), es))
      {
        AtMostMore(Start(t), es, k, 1);
        NewIsSettled(t);
        RunStaysSettled(t, es);
        RestingOutcome(Reach(Start(t), es));
      }
    } else {
      var es := LostUpdate();
      SmallIsNew();
      AtMostMore(Start(SMALL), es, 2, k);
      assert !WithinPeak(Reach(Start(SMALL), es));
    }
  }

  ghost predicate LeavesSerial(t: Trip, u: Trip) {
    exists rs :: u == Run(t, rs)
  }

  ghost predicate Serializable(k: nat) {
    forall t, es :: New(t) && CanRun(Start(t), es) && AtMost(Start(t), es, k) && Reach(Start(t), es).calls == map[] ==>
                      LeavesSerial(t, Reach(Start(t), es).trip)
  }

  /** So what is proved about requests one after another holds of the program exactly when they do not overlap. */
  lemma SerializableIff(k: nat)
    ensures Serializable(k) <==> k <= 1
  {
    if k <= 1 {
      forall t, es | New(t) && CanRun(Start(t), es) && AtMost(Start(t), es, k) && Reach(Start(t), es).calls == map[]
        ensures LeavesSerial(t, Reach(Start(t), es).trip)
      {
        AtMostMore(Start(t), es, k, 1);
        var rs := SerialRun(t, es);
        RestingOutcome(Reach(Start(t), es));
      }
    } else {
      var es := LostUpdate();
      SmallIsNew();
      AtMostMore(Start(SMALL), es, 2, k);
      NotSerial();
    }
  }

  lemma NotSerial()
    ensures !LeavesSerial(SMALL, BOTH_IN)
  {
    AllIn();
    if rs :| BOTH_IN == Run(SMALL, rs) {
      CounterIsExact(0, Some(2), false, None, 0, rs);
    }
  }

  // ---- Dead tokens ---------------------------------------------------------------------------------------

  /** No request of the run generates this token. */
  ghost predicate NoneGenerates(es: seq<Event>, token: Token) {
    forall i :: 0 <= i < |es| && es[i].Look? ==> NeverGenerated([es[i].request], token)
  }

  predicate Revives(p: Pending, token: Token) {
    p.SavesLink? && p.link.token == token && p.link.isActive
  }

  /** The request has passed the check of the token, or read the link while the token was good. */
  predicate PastToken(p: Pending, token: Token) {
    Revives(p, token) || (p.Enters? && p.token == token)
  }

  ghost predicate NonePast(s: State, token: Token) {
    forall id :: id in s.calls ==> !PastToken(s.calls[id], token)
  }

  predicate EntersBy(s: State, e: Event, token: Token) {
    e.Go? && e.call in s.calls && s.calls[e.call].Enters? && s.calls[e.call].token == token
  }

  /** The token works again at some point of the run, or somebody enters by it. */
  ghost predicate Works(s: State, es: seq<Event>, token: Token)
    requires CanRun(s, es)
    decreases |es|
  {
    !Dead(Reach(s, es).trip, token) || (es != [] && (EntersBy(Reach(s, es[..|es| - 1]), es[|es| - 1], token) || Works(s, es[..|es| - 1], token)))
  }

  lemma DeadStep(s: State, e: Event, token: Token)
    requires Dead(s.trip, token) && NonePast(s, token) && Enabled(s, e) && (e.Look? ==> NeverGenerated([e.request], token))
    ensures Dead(Move(s, e).trip, token) && NonePast(Move(s, e), token) && !EntersBy(s, e, token)
  {
    var s' := Move(s, e);
    assert e.Go? ==> !PastToken(s.calls[e.call], token);
    if e.Look? {
      LookIsNotPast(s.trip, e.request, token);
    }
    forall id | id in s'.calls
      ensures !PastToken(s'.calls[id], token)
    {
      if id != e.call {
        assert !PastToken(s.calls[id], token);
      }
    }
  }

  lemma LookIsNotPast(t: Trip, r: Request, token: Token)
    requires Dead(t, token) && NeverGenerated([r], token)
    ensures Looked(t, r).Some? ==> !PastToken(Looked(t, r).value, token)
  {
    assert r in [r];
  }

  lemma {:induction false} DeadRun(s: State, es: seq<Event>, token: Token)
    requires Dead(s.trip, token) && NonePast(s, token) && CanRun(s, es) && NoneGenerates(es, token)
    ensures Dead(Reach(s, es).trip, token) && NonePast(Reach(s, es), token) && !Works(s, es, token)
    decreases |es|
  {
    if es != [] {
      var init, e := es[..|es| - 1], es[|es| - 1];
      forall i | 0 <= i < |init| && init[i].Look?
        ensures NeverGenerated([init[i].request], token)
      {
        assert init[i] == es[i];
      }
      DeadRun(s, init, token);
      DeadStep(Reach(s, init), e, token);
    }
  }

  ghost predicate StaysDead(s: State, token: Token) {
    forall es :: CanRun(s, es) && NoneGenerates(es, token) ==> !Works(s, es, token)
  }

  lemma PastTokenWorks(s: State, id: CallId, token: Token) returns (es: seq<Event>)
    requires id in s.calls && PastToken(s.calls[id], token)
    ensures CanRun(s, es) && NoneGenerates(es, token) && Works(s, es, token)
  {
    GoRuns(s, id);
    es := [] + [Go(id)];
    assert es[..|es| - 1] == [];
  }

  lemma GoRuns(s: State, id: CallId)
    requires id in s.calls
    ensures var es := [] + [Go(id)]; CanRun(s, es) && Reach(s, es) == Move(s, Go(id))
  {
    var t := Move(s, Go(id));
    Extend(s, [], s, Go(id), t, Max(|s.calls|, |t.calls|));
  }

  /**
   * A token that was replaced or disabled stays dead, and nobody enters by it, in every interleaving exactly when no
   * request under way has passed its check or is about to save a link that was read while the token was good.
   */
  lemma DeadTokenIff(s: State, token: Token)
    requires Dead(s.trip, token)
    ensures StaysDead(s, token) <==> NonePast(s, token)
  {
    if NonePast(s, token) {
      forall es | CanRun(s, es) && NoneGenerates(es, token)
        ensures !Works(s, es, token)
      {
        DeadRun(s, es, token);
      }
    } else {
      var id :| id in s.calls && PastToken(s.calls[id], token);
      var es := PastTokenWorks(s, id, token);
    }
  }

  // ---- Two requests of one user --------------------------------------------------------------------------

  /** A request under way that found no row of the user and is about to insert one. */
  predicate Inserts(p: Pending, u: UserId) {
    (p.SavesRow? || p.Enters?) && p.userId == u && !p.existed
  }

  /** The key of the participants table refuses a second row: such a request then ends, and has changed nothing. */
  lemma SecondRowRefused(s: State, c: CallId, u: UserId)
    requires c in s.calls && Inserts(s.calls[c], u) && u in s.trip.participants
    ensures Move(s, Go(c)) == State(s.trip, s.calls - {c}, Max(s.peak, s.trip.max))
  {
  }

  /** Request `c` looks, then `d`; `c` goes on to its end, then `d`. */
  ghost function BothLook(t: Trip, c: Request, d: Request): State
    requires Looked(t, c).Some? && Looked(t, d).Some?
  {
    State(t, map[0 := Looked(t, c).value, 1 := Looked(t, d).value], t.max)
  }

  lemma BothLookRuns(t: Trip, c: Request, d: Request)
    requires Looked(t, c).Some? && Looked(t, d).Some?
    ensures Leads(Start(t), [Look(0, c)] + [Look(1, d)], BothLook(t, c, d), 2)
  {
    var p, q := Looked(t, c).value, Looked(t, d).value;
    var none: map<CallId, Pending> := map[];
    assert Leads(Start(t), [], Start(t), 2);
    Extend(Start(t), [], Start(t), Look(0, c), State(t, none[0 := p], t.max), 2);
    assert [] + [Look(0, c)] == [Look(0, c)];
    assert none[0 := p][1 := q] == map[0 := p, 1 := q];
    Extend(Start(t), [Look(0, c)], State(t, none[0 := p], t.max), Look(1, d), BothLook(t, c, d), 2);
  }

  /** The trip once the row is written and the entry counted. */
  function Entered(t: Trip, u: UserId, row: Participant): Trip
    requires t.link.Some?
  {
    WithRow(t, u, row).(current := t.current + 1, link := Some(Bumped(t.link.value, true)))
  }

  lemma EntersMoves(t: State, c: CallId, row: Participant, u: UserId, token: Token, existed: bool)
    requires c in t.calls && t.calls[c] == Enters(u, existed, row, token, true) && t.trip.max <= t.peak && t.trip.link.Some?
    requires existed || u !in t.trip.participants
    ensures var mid := State(WithRow(t.trip, u, row), t.calls[c := Counts(true)], t.peak);
            && Move(t, Go(c)) == mid && |mid.calls| == |t.calls|
            && Move(mid, Go(c)) == State(Entered(t.trip, u, row), t.calls - {c}, t.peak) && |t.calls - {c}| <= |t.calls|
  {
    var mid := t.calls[c := Counts(true)];
    assert mid.Keys == t.calls.Keys && mid - {c} == t.calls - {c};
    MapSize(mid);
    MapSize(t.calls);
    MapSize(t.calls - {c});
    SubsetSmaller((t.calls - {c}).Keys, t.calls.Keys);
  }

  /** Going in by a free auto-join link, from the row on. */
  lemma EntersRuns(s: State, es: seq<Event>, t: State, c: CallId, row: Participant, u: UserId, token: Token, existed: bool)
    requires Leads(s, es, t, 2) && c in t.calls && t.calls[c] == Enters(u, existed, row, token, true)
    requires t.trip.max <= t.peak && t.trip.link.Some? && (existed || u !in t.trip.participants)
    ensures Leads(s, es + [Go(c)] + [Go(c)], State(Entered(t.trip, u, row), t.calls - {c}, t.peak), 2)
  {
    var mid := State(WithRow(t.trip, u, row), t.calls[c := Counts(true)], t.peak);
    EntersMoves(t, c, row, u, token, existed);
    Extend(s, es, t, Go(c), mid, 2);
    Extend(s, es + [Go(c)], mid, Go(c), State(Entered(t.trip, u, row), t.calls - {c}, t.peak), 2);
  }

  lemma EntersAsOneStep(t: Trip, token: Token, u: UserId, now: int)
    requires JoinViaLink(t, token, u, now).0.Ok? && AutoApproves(t)
    ensures var once := Step(t, LinkJoining(token, u, now));
            && u in once.participants && once.link.Some? && once.max == t.max && once.current == t.current + 1
            && once == Entered(t, u, once.participants[u])
            && Looked(t, LinkJoining(token, u, now)) == Some(Enters(u, u in t.participants, once.participants[u], token, true))
  {
  }

  /** Another request looks, and then the user comes in by the link. */
  lemma EntryRuns(t: Trip, token: Token, u: UserId, now: int, d: Request) returns (es: seq<Event>)
    requires JoinViaLink(t, token, u, now).0.Ok? && AutoApproves(t) && Looked(t, d).Some?
    ensures Leads(Start(t), es, State(Step(t, LinkJoining(token, u, now)), map[1 := Looked(t, d).value], t.max), 2)
    ensures |es| >= 2 && es[0] == Look(0, LinkJoining(token, u, now)) && es[1] == Look(1, d)
  {
    var r := LinkJoining(token, u, now);
    EntersAsOneStep(t, token, u, now);
    BothLookRuns(t, r, d);
    var both := BothLook(t, r, d);
    es := [Look(0, r)] + [Look(1, d)];
    EntersRuns(Start(t), es, both, 0, Step(t, r).participants[u], u, token, u in t.participants);
    assert both.calls - {0} == map[1 := Looked(t, d).value];
    es := es + [Go(0)] + [Go(0)];
  }

  /**
   * A user who taps a free auto-join link twice, the second look before the first tap has written: both end, and the
   * trip is as after one tap exactly when the user had no row before. One who had left or been rejected is counted twice.
   */
  lemma TwoTapsIff(t: Trip, token: Token, u: UserId, now: int) returns (es: seq<Event>, after: Trip)
    requires JoinViaLink(t, token, u, now).0.Ok? && AutoApproves(t)
    ensures Leads(Start(t), es, State(after, map[], t.max), 2)
    ensures after == Step(t, LinkJoining(token, u, now)) <==> u !in t.participants
    ensures ApprovedIn(after) == ApprovedIn(t) + {u} && after.current == t.current + if u in t.participants then 2 else 1
  {
    var r := LinkJoining(token, u, now);
    var once := Step(t, r);
    EntersAsOneStep(t, token, u, now);
    var row, p := once.participants[u], Looked(t, r).value;
    es := EntryRuns(t, token, u, now, r);
    var first := State(once, map[1 := p], t.max);
    assert first.calls - {1} == map[];
    if u in t.participants {
      EntersRuns(Start(t), es, first, 1, row, u, token, true);
      es, after := es + [Go(1)] + [Go(1)], Entered(once, u, row);
    } else {
      SecondRowRefused(first, 1, u);
      Extend(Start(t), es, first, Go(1), State(once, map[], t.max), 2);
      es, after := es + [Go(1)], once;
    }
    ApprovedAfter(t, after, u, row);
  }

  /** A plain request that finds the user come in by the link meanwhile does not undo that. */
  lemma AskMeetsEntry(t: Trip, token: Token, u: UserId, now: int) returns (es: seq<Event>)
    requires JoinViaLink(t, token, u, now).0.Ok? && AutoApproves(t) && u !in t.participants
    ensures Leads(Start(t), es, State(Step(t, LinkJoining(token, u, now)), map[], t.max), 2)
    ensures |es| >= 2 && es[0] == Look(0, LinkJoining(token, u, now)) && es[1] == Look(1, Joining(u))
  {
    EntersAsOneStep(t, token, u, now);
    var once, ask := Step(t, LinkJoining(token, u, now)), Looked(t, Joining(u)).value;
    es := EntryRuns(t, token, u, now, Joining(u));
    var first := State(once, map[1 := ask], t.max);
    assert first.calls - {1} == map[];
    SecondRowRefused(first, 1, u);
    Extend(Start(t), es, first, Go(1), State(once, map[], t.max), 2);
    es := es + [Go(1)];
  }
}
