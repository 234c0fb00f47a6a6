/**
 * The two services that change trips, over one shared store. Each method answers a request as the step
 * functions of TripSeats do, and may change nothing else in the store.
 */
module TripServices {
  import opened Common
  import opened TripSeats
  import opened TripRules
  import opened TripStore
  import opened Grouping
  import AccessCache
  import Messages
  import StopProgress

  /** One row of trip_stops. */
  datatype Stop = Stop(id: nat, tripId: TripId, order: nat, name: string)

  function TripKey(): Stop -> TripId {
    (s: Stop) => s.tripId
  }

  function Itself(): Stop -> Stop {
    (s: Stop) => s
  }

  function Looked(byTrip: map<TripId, seq<Stop>>, id: TripId): seq<Stop> {
    if id in byTrip then byTrip[id] else []
  }

  lemma OwnStops(rows: seq<Stop>, id: TripId)
    ensures Looked(GroupBy(rows, TripKey(), Itself()), id) == Filter(rows, WithKey(TripKey(), id))
  {
    GroupByExact(rows, TripKey(), Itself(), id);
    var own := Filter(rows, WithKey(TripKey(), id));
    assert Map(Itself(), own) == own;
  }

  /** These are the stops of the trip among all the rows, once each and in the order of the rows. */
  ghost predicate AreStopsOf(own: seq<Stop>, rows: seq<Stop>, id: TripId) {
    && (forall s :: s in own <==> s in rows && s.tripId == id)
    && (NoDuplicates(rows) ==> NoDuplicates(own) && InOrderOf(own, rows))
  }

  lemma OwnStopsAre(rows: seq<Stop>, id: TripId)
    ensures AreStopsOf(Looked(GroupBy(rows, TripKey(), Itself()), id), rows, id)
  {
    OwnStops(rows, id);
    FilterMembers(rows, WithKey(TripKey(), id));
    if NoDuplicates(rows) {
      FilterInOrder(rows, WithKey(TripKey(), id));
    }
  }

  class Store {
    var trips: map<TripId, Trip>
    var stops: seq<Stop>

    constructor ()
      ensures trips == map[] && stops == [] && Valid()
    {
      trips, stops := map[], [];
    }

    /** Tokens are unique and every trip's counter is the number of its approved rows, in every state the services leave. */
    ghost predicate Valid()
      reads this
    {
      TripStore.Valid(trips)
    }
  }

  class TripsService {
    const db: Store
    const access: AccessCache.RoomAccess
    const progress: StopProgress.StopProgressService

    constructor (db: Store, access: AccessCache.RoomAccess, progress: StopProgress.StopProgressService)
      ensures this.db == db && this.access == access && this.progress == progress
    {
      this.db, this.access, this.progress := db, access, progress;
    }

    /** `id` and `stopIds` stand for generated ids; `names` are the stops in route order. */
    method Create(id: TripId, creator: UserId, max: Option<int>, isPaid: bool, price: int, start: Option<int>, roundTrip: bool,
                  stopIds: seq<nat>, names: seq<string>, now: int) returns (r: Outcome)
      requires db.Valid() && id !in db.trips && |stopIds| == |names|
      modifies db
      ensures db.Valid()
      ensures r == if start.Some? && start.value < now then Err(InvalidDepartureTime)
                   else if roundTrip && |names| < 2 then Err(InvalidRoute) else Ok(())
      ensures r.Err? ==> db.trips == old(db.trips) && db.stops == old(db.stops)
      ensures r.Ok? ==> db.trips == old(db.trips)[id := Created(creator, max, isPaid && price > 0, start, now)]
      ensures r.Ok? ==> db.trips[id] == Trip(creator, Planned, isPaid && price > 0, start, if max.Some? then max.value else 20, 1,
                                             map[creator := Participant(Approved, Admin, Some(now), None)], None)
      ensures r.Ok? ==> |db.stops| == |old(db.stops)| + |names| && db.stops[..|old(db.stops)|] == old(db.stops)
      ensures r.Ok? ==> forall i :: 0 <= i < |names| ==> db.stops[|old(db.stops)| + i] == Stop(stopIds[i], id, i + 1, names[i])
    {
      CreateKeepsValid(db.trips, id, creator, max, isPaid && price > 0, start, now);
      if start.Some? && start.value < now {
        return Err(InvalidDepartureTime);
      }
      if roundTrip && |names| < 2 {
        return Err(InvalidRoute);
      }
      var trip := Trip(creator, Planned, isPaid && price > 0, start, Or(max, DEFAULT_MAX), 1, map[], None);
      db.trips := db.trips[id := trip];
      AddStops(id, stopIds, names);
      UpdateTwice(old(db.trips), id, trip, trip.(participants := map[creator := Participant(Approved, Admin, Some(now), None)]));
      trip := trip.(participants := trip.participants[creator := Participant(Approved, Admin, Some(now), None)]);
      db.trips := db.trips[id := trip];
      return Ok(());
    }

    /** The loop over the stops of a new trip. */
    method AddStops(id: TripId, stopIds: seq<nat>, names: seq<string>)
      requires |stopIds| == |names|
      modifies db`stops
      ensures |db.stops| == |old(db.stops)| + |names| && db.stops[..|old(db.stops)|] == old(db.stops)
      ensures forall i :: 0 <= i < |names| ==> db.stops[|old(db.stops)| + i] == Stop(stopIds[i], id, i + 1, names[i])
    {
      for i := 0 to |names|
        invariant |db.stops| == |old(db.stops)| + i && db.stops[..|old(db.stops)|] == old(db.stops)
        invariant forall j :: 0 <= j < i ==> db.stops[|old(db.stops)| + j] == Stop(stopIds[j], id, j + 1, names[j])
      {
        db.stops := db.stops + [Stop(stopIds[i], id, i + 1, names[i])];
      }
    }

    method Update(id: TripId, userId: UserId, changes: TripChanges, now: int) returns (r: Outcome)
      requires db.Valid()
      modifies db`trips
      ensures db.Valid()
      ensures (r, db.trips) == Serve(old(db.trips), id, Updating(userId, changes, now))
      ensures r == Verdict(old(db.trips), id, Updating(userId, changes, now)) && (r.Err? ==> db.trips == old(db.trips))
    {
      ServeKeepsValid(db.trips, id, Updating(userId, changes, now));
      ServedByTheRules(db.trips, id, Updating(userId, changes, now));
      if id !in db.trips {
        return Err(TripNotFound);
      }
      var trip := db.trips[id];
      assert db.trips[id := trip] == db.trips;
      if trip.creator != userId {
        return Err(NotTripAdmin);
      }
      if trip.start.Some? && trip.start.value - now < EDIT_WINDOW_MS && trip.status.Planned? {
        return Err(EditWindowClosed);
      }
      if !trip.status.Planned? {
        return Err(TripNotEditable(trip.status));
      }
      trip := trip.(isPaid := Or(changes.isPaid, trip.isPaid), max := Or(changes.max, trip.max),
                    start := if changes.start.Some? then changes.start else trip.start);
      db.trips := db.trips[id := trip];
      return Ok(());
    }

    method Cancel(id: TripId, userId: UserId) returns (r: Outcome)
      requires db.Valid()
      modifies db`trips
      ensures db.Valid()
      ensures (r, db.trips) == Serve(old(db.trips), id, Cancelling(userId))
      ensures r == Verdict(old(db.trips), id, Cancelling(userId)) && (r.Err? ==> db.trips == old(db.trips))
    {
      ServeKeepsValid(db.trips, id, Cancelling(userId));
      ServedByTheRules(db.trips, id, Cancelling(userId));
      if id !in db.trips {
        return Err(TripNotFound);
      }
      var trip := db.trips[id];
      assert db.trips[id := trip] == db.trips;
      if trip.creator != userId {
        return Err(NotTripAdmin);
      }
      if trip.status.Completed? {
        return Err(AlreadyCompleted);
      }
      db.trips := db.trips[id := trip.(status := Cancelled)];
      return Ok(());
    }

    method RequestJoin(id: TripId, userId: UserId) returns (r: Outcome)
      requires db.Valid()
      modifies db`trips
      ensures db.Valid()
      ensures (r, db.trips) == Serve(old(db.trips), id, Joining(userId))
      ensures r == Verdict(old(db.trips), id, Joining(userId)) && (r.Err? ==> db.trips == old(db.trips))
    {
      ServeKeepsValid(db.trips, id, Joining(userId));
      ServedByTheRules(db.trips, id, Joining(userId));
      if id !in db.trips {
        return Err(TripNotFound);
      }
      var trip := db.trips[id];
      assert db.trips[id := trip] == db.trips;
      if trip.creator == userId {
        return Err(CreatorCannotRequest);
      }
      if !trip.status.Planned? {
        return Err(TripNotJoinable);
      }
      if trip.current >= trip.max {
        return Err(TripFull);
      }
      if userId in trip.participants {
        var existing := trip.participants[userId];
        if !existing.status.Rejected? && !existing.status.Left? {
          return Err(AlreadyRequested(existing.status));
        }
        existing := existing.(status := Requested, joinedAt := None, leftAt := None);
        db.trips := db.trips[id := trip.(participants := trip.participants[userId := existing])];
        return Ok(());
      }
      var participant := Participant(Requested, Member, None, None);
      db.trips := db.trips[id := trip.(participants := trip.participants[userId := participant])];
      return Ok(());
    }

    /** `stopIds` are the trip's stops in order; progress rows are seeded for the new member. */
    method ApproveJoin(id: TripId, adminId: UserId, userId: UserId, stopIds: seq<nat>, now: int) returns (r: Outcome)
      requires NoDuplicates(stopIds)
      requires db.Valid()
      modifies db`trips, access, progress
      ensures db.Valid()
      ensures (r, db.trips) == Serve(old(db.trips), id, Approving(adminId, userId, now))
      ensures r == Verdict(old(db.trips), id, Approving(adminId, userId, now)) && (r.Err? ==> db.trips == old(db.trips))
      ensures db.trips == old(db.trips) ==> access.cache == old(access.cache) && progress.rows == old(progress.rows)
      ensures db.trips != old(db.trips) ==>
                && access.cache == old(access.cache) - {(userId, Messages.Room(Messages.TripRoom, id))}
                && progress.HasTrack(stopIds, userId) && progress.OnlyTouches(stopIds, userId)
    {
      ServeKeepsValid(db.trips, id, Approving(adminId, userId, now));
      ServedByTheRules(db.trips, id, Approving(adminId, userId, now));
      if id !in db.trips {
        return Err(TripNotFound);
      }
      var trip := db.trips[id];
      assert db.trips[id := trip] == db.trips;
      if trip.creator != adminId {
        return Err(NotTripAdmin);
      }
      if userId !in trip.participants {
        return Err(RequestNotFound);
      }
      var participant := trip.participants[userId];
      if participant.status.Approved? {
        return Ok(());
      }
      if !participant.status.Requested? {
        return Err(RequestNotPending(participant.status));
      }
      if trip.current >= trip.max {
        return Err(TripFull);
      }
      participant := participant.(status := Approved, joinedAt := Some(now));
      trip := trip.(participants := trip.participants[userId := participant]);
      trip := trip.(current := trip.current + 1);
      db.trips := db.trips[id := trip];
      access.InvalidateRoomAccessCache(userId, Messages.Room(Messages.TripRoom, id));
      progress.EnsureRowsExist(stopIds, userId);
      return Ok(());
    }

    method RejectJoin(id: TripId, adminId: UserId, userId: UserId) returns (r: Outcome)
      requires db.Valid()
      modifies db`trips
      ensures db.Valid()
      ensures (r, db.trips) == Serve(old(db.trips), id, Rejecting(adminId, userId))
      ensures r == Verdict(old(db.trips), id, Rejecting(adminId, userId)) && (r.Err? ==> db.trips == old(db.trips))
    {
      ServeKeepsValid(db.trips, id, Rejecting(adminId, userId));
      ServedByTheRules(db.trips, id, Rejecting(adminId, userId));
      if id !in db.trips {
        return Err(TripNotFound);
      }
      var trip := db.trips[id];
      assert db.trips[id := trip] == db.trips;
      if trip.creator != adminId {
        return Err(NotTripAdmin);
      }
      if userId !in trip.participants {
        return Err(RequestNotFound);
      }
      var participant := trip.participants[userId];
      if participant.status.Rejected? {
        return Ok(());
      }
      if !participant.status.Requested? {
        return Err(RequestNotPending(participant.status));
      }
      db.trips := db.trips[id := trip.(participants := trip.participants[userId := participant.(status := Rejected)])];
      return Ok(());
    }

    method LeaveTrip(id: TripId, userId: UserId, now: int) returns (r: Outcome)
      requires db.Valid()
      modifies db`trips, access
      ensures db.Valid()
      ensures (r, db.trips) == Serve(old(db.trips), id, Leaving(userId, now))
      ensures r == Verdict(old(db.trips), id, Leaving(userId, now)) && (r.Err? ==> db.trips == old(db.trips))
      ensures access.cache == if r.Ok? then old(access.cache) - {(userId, Messages.Room(Messages.TripRoom, id))} else old(access.cache)
    {
      ServeKeepsValid(db.trips, id, Leaving(userId, now));
      ServedByTheRules(db.trips, id, Leaving(userId, now));
      if id !in db.trips {
        return Err(TripNotFound);
      }
      var trip := db.trips[id];
      assert db.trips[id := trip] == db.trips;
      if trip.creator == userId {
        return Err(CreatorCannotLeave);
      }
      if userId !in trip.participants || trip.participants[userId].status.Left? {
        return Err(NotAMember);
      }
      var participant := trip.participants[userId];
      var wasApproved := participant.status.Approved?;
      participant := participant.(status := Left, leftAt := Some(now));
      trip := trip.(participants := trip.participants[userId := participant]);
      if wasApproved {
        trip := trip.(current := Max(0, trip.current - 1));
      }
      db.trips := db.trips[id := trip];
      access.InvalidateRoomAccessCache(userId, Messages.Room(Messages.TripRoom, id));
      return Ok(());
    }

    /** The first loop: one pass over the stops. */
    static method StopsByTrip(rows: seq<Stop>) returns (byTrip: map<TripId, seq<Stop>>)
      ensures byTrip == GroupBy(rows, TripKey(), Itself())
      ensures forall id :: AreStopsOf(Looked(byTrip, id), rows, id)
      ensures forall id :: id in byTrip ==> byTrip[id] != []
    {
      byTrip := map[];
      for i := 0 to |rows|
        invariant byTrip == GroupBy(rows[..i], TripKey(), Itself())
        invariant forall id :: id in byTrip ==> byTrip[id] != []
      {
        var list := if rows[i].tripId in byTrip then byTrip[rows[i].tripId] else [];
        byTrip := byTrip[rows[i].tripId := list + [rows[i]]];
        assert rows[..i + 1][..i] == rows[..i];
      }
      assert rows[..|rows|] == rows;
      forall id
        ensures AreStopsOf(Looked(byTrip, id), rows, id)
      {
        OwnStopsAre(rows, id);
      }
    }

    /** The loops in `list` and `discover`: every trip of the page gets its own stops, in query order. */
    method AttachStops(rows: seq<Stop>, items: seq<TripId>) returns (attached: seq<seq<Stop>>)
      ensures |attached| == |items|
      ensures forall i :: 0 <= i < |items| ==> attached[i] == Filter(rows, WithKey(TripKey(), items[i]))
      ensures forall i :: 0 <= i < |items| ==> AreStopsOf(attached[i], rows, items[i])
    {
      var byTrip := StopsByTrip(rows);
      attached := [];
      for i := 0 to |items|
        invariant |attached| == i
        invariant forall j :: 0 <= j < i ==> attached[j] == Looked(byTrip, items[j])
      {
        attached := attached + [if items[i] in byTrip then byTrip[items[i]] else []];
      }
      forall i | 0 <= i < |items|
        ensures attached[i] == Filter(rows, WithKey(TripKey(), items[i]))
      {
        OwnStops(rows, items[i]);
      }
    }
  }

  class ShareLinksService {
    const db: Store

    constructor (db: Store)
      ensures this.db == db
    {
      this.db := db;
    }

    /** `token` stands for the generated token, different from every other one. */
    method Upsert(id: TripId, adminId: UserId, token: Token, dto: LinkChanges, now: int) returns (r: Outcome)
      requires db.Valid() && Unused(db.trips, token)
      modifies db`trips
      ensures db.Valid()
      ensures (r, db.trips) == Serve(old(db.trips), id, LinkUpserting(adminId, token, dto, now))
      ensures r == Verdict(old(db.trips), id, LinkUpserting(adminId, token, dto, now)) && (r.Err? ==> db.trips == old(db.trips))
    {
      ServeKeepsValid(db.trips, id, LinkUpserting(adminId, token, dto, now));
      ServedByTheRules(db.trips, id, LinkUpserting(adminId, token, dto, now));
      if id !in db.trips {
        return Err(TripNotFound);
      }
      var trip := db.trips[id];
      assert db.trips[id := trip] == db.trips;
      if trip.creator != adminId {
        return Err(NotTripAdmin);
      }
      if dto.mode == Some(PasswordProtected) && !Given(dto.password) {
        return Err(PasswordRequired);
      }
      var passwordHash := PasswordOf(dto.password);
      var expiresAt := ExpiryOf(dto.expiresInHours, now);
      if trip.link.Some? {
        var existing := trip.link.value.(token := token, mode := Or(dto.mode, ViewOnly), password := passwordHash,
                                         expiresAt := expiresAt, isActive := true);
        db.trips := db.trips[id := trip.(link := Some(existing))];
        return Ok(());
      }
      var link := Link(token, Or(dto.mode, ViewOnly), passwordHash, expiresAt, true, 0, 0);
      db.trips := db.trips[id := trip.(link := Some(link))];
      return Ok(());
    }

    method Update(id: TripId, adminId: UserId, dto: LinkChanges, now: int) returns (r: Outcome)
      requires db.Valid()
      modifies db`trips
      ensures db.Valid()
      ensures (r, db.trips) == Serve(old(db.trips), id, LinkUpdating(adminId, dto, now))
      ensures r == Verdict(old(db.trips), id, LinkUpdating(adminId, dto, now)) && (r.Err? ==> db.trips == old(db.trips))
    {
      ServeKeepsValid(db.trips, id, LinkUpdating(adminId, dto, now));
      ServedByTheRules(db.trips, id, LinkUpdating(adminId, dto, now));
      if id !in db.trips {
        return Err(TripNotFound);
      }
      var trip := db.trips[id];
      assert db.trips[id := trip] == db.trips;
      if trip.creator != adminId {
        return Err(NotTripAdmin);
      }
      if trip.link.None? {
        return Err(LinkNotFound);
      }
      var link := trip.link.value;
      if dto.mode == Some(PasswordProtected) && !Given(dto.password) {
        return Err(PasswordRequired);
      }
      if dto.mode.Some? {
        link := link.(mode := dto.mode.value);
      }
      if Given(dto.password) {
        link := link.(password := dto.password);
      }
      if dto.expiresInHours.Some? {
        link := link.(expiresAt := Some(now + dto.expiresInHours.value * HOUR_MS));
      }
      db.trips := db.trips[id := trip.(link := Some(link))];
      return Ok(());
    }

    method Disable(id: TripId, adminId: UserId) returns (r: Outcome)
      requires db.Valid()
      modifies db`trips
      ensures db.Valid()
      ensures (r, db.trips) == Serve(old(db.trips), id, LinkDisabling(adminId))
      ensures r == Verdict(old(db.trips), id, LinkDisabling(adminId)) && (r.Err? ==> db.trips == old(db.trips))
    {
      ServeKeepsValid(db.trips, id, LinkDisabling(adminId));
      ServedByTheRules(db.trips, id, LinkDisabling(adminId));
      if id !in db.trips {
        return Err(TripNotFound);
      }
      var trip := db.trips[id];
      assert db.trips[id := trip] == db.trips;
      if trip.creator != adminId {
        return Err(NotTripAdmin);
      }
      if trip.link.Some? {
        db.trips := db.trips[id := trip.(link := Some(trip.link.value.(isActive := false)))];
      }
      return Ok(());
    }

    method Regenerate(id: TripId, adminId: UserId, token: Token) returns (r: Outcome)
      requires db.Valid() && Unused(db.trips, token)
      modifies db`trips
      ensures db.Valid()
      ensures (r, db.trips) == Serve(old(db.trips), id, LinkRegenerating(adminId, token))
      ensures r == Verdict(old(db.trips), id, LinkRegenerating(adminId, token)) && (r.Err? ==> db.trips == old(db.trips))
    {
      ServeKeepsValid(db.trips, id, LinkRegenerating(adminId, token));
      ServedByTheRules(db.trips, id, LinkRegenerating(adminId, token));
      if id !in db.trips {
        return Err(TripNotFound);
      }
      var trip := db.trips[id];
      assert db.trips[id := trip] == db.trips;
      if trip.creator != adminId {
        return Err(NotTripAdmin);
      }
      if trip.link.None? {
        return Err(LinkNotFound);
      }
      var link := trip.link.value.(token := token, isActive := true);
      db.trips := db.trips[id := trip.(link := Some(link))];
      return Ok(());
    }

    /** The trip is found by the token of its link. */
    method JoinViaLink(token: Token, userId: UserId, now: int) returns (r: Outcome)
      requires db.Valid()
      modifies db`trips
      ensures db.Valid()
      ensures forall id :: id in old(db.trips) && !Dead(old(db.trips)[id], token) ==>
                (r, db.trips) == Serve(old(db.trips), id, LinkJoining(token, userId, now))
      ensures (forall id :: id in old(db.trips) ==> Dead(old(db.trips)[id], token)) ==> r == Err(LinkNotFound) && db.trips == old(db.trips)
      ensures r.Ok? <==> exists id :: id in old(db.trips) && LinkAdmits(old(db.trips)[id], token, userId, now)
      ensures forall id :: id in old(db.trips) && LinkAdmits(old(db.trips)[id], token, userId, now) ==>
                id in db.trips && Has(db.trips[id], userId, if Free(old(db.trips)[id]) then Approved else Requested)
      ensures r.Err? ==> db.trips == old(db.trips)
      ensures forall id :: id in old(db.trips) && !Dead(old(db.trips)[id], token) && !Opens(old(db.trips)[id], token, now) ==> r == Err(LinkExpired)
    {
      if id :| id in db.trips && db.trips[id].link.Some? && db.trips[id].link.value.token == token {
        OneLinkOpens(db.trips, id, token);
        LinkJoinsIff(db.trips, id, token, userId, now);
        r := JoinFound(id, token, userId, now);
        return r;
      }
      return Err(LinkNotFound);
    }

    /** The rest of it, once the link is found. */
    method JoinFound(id: TripId, token: Token, userId: UserId, now: int) returns (r: Outcome)
      requires db.Valid() && id in db.trips && db.trips[id].link.Some? && db.trips[id].link.value.token == token
      modifies db`trips
      ensures db.Valid()
      ensures (r, db.trips) == Serve(old(db.trips), id, LinkJoining(token, userId, now))
      ensures r == Verdict(old(db.trips), id, LinkJoining(token, userId, now)) && (r.Err? ==> db.trips == old(db.trips))
    {
      ServeKeepsValid(db.trips, id, LinkJoining(token, userId, now));
      ServedByTheRules(db.trips, id, LinkJoining(token, userId, now));
      var trip := db.trips[id];
      assert db.trips[id := trip] == db.trips;
      var link := trip.link.value;
      if !link.isActive {
        return Err(LinkNotFound);
      }
      if link.expiresAt.Some? && link.expiresAt.value < now {
        return Err(LinkExpired);
      }
      if trip.creator == userId {
        return Err(CreatorCannotJoin);
      }
      if !trip.status.Planned? {
        return Err(TripNotJoinable);
      }
      if trip.current >= trip.max {
        return Err(TripFull);
      }
      var autoApprove := link.mode.AutoJoin? && !trip.isPaid;
      var status := if autoApprove then Approved else Requested;
      var joinedAt := if autoApprove then Some(now) else None;
      if userId in trip.participants {
        var existing := trip.participants[userId];
        if !existing.status.Rejected? && !existing.status.Left? {
          return Err(AlreadyRequested(existing.status));
        }
        existing := existing.(status := status, joinedAt := joinedAt);
        trip := trip.(participants := trip.participants[userId := existing]);
      } else {
        trip := trip.(participants := trip.participants[userId := Participant(status, Member, joinedAt, None)]);
      }
      if autoApprove {
        trip := trip.(current := trip.current + 1);
      }
      link := link.(joinRequests := link.joinRequests + 1);
      if autoApprove {
        link := link.(successfulJoins := link.successfulJoins + 1);
      }
      trip := trip.(link := Some(link));
      db.trips := db.trips[id := trip];
      return Ok(());
    }
  }
}
