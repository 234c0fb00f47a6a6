/** The table of all trips, under requests to both services in any order: each trip lives a run of its own. */
module TripStore {
  import opened Common
  import opened TripSeats

  type TripId = nat
  type Trips = map<TripId, Trip>

  /** What a request does to the trips table. */
  function Serve(trips: Trips, id: TripId, r: Request): (Outcome, Trips) {
    if id !in trips then (Err(TripNotFound), trips)
    else (Answer(trips[id], r).0, trips[id := Answer(trips[id], r).1])
  }

  /** Link tokens are unique across trips. */
  ghost predicate TokensUnique(trips: Trips) {
    forall a, b :: SameToken(trips, a, b) ==> a == b
  }

  /** Both trips have a link, with the same token. */
  ghost predicate SameToken(trips: Trips, a: TripId, b: TripId) {
    a in trips && b in trips && HasToken(trips[a]) && HasToken(trips[b]) && TokenOf(trips[a]) == TokenOf(trips[b])
  }

  predicate HasToken(t: Trip) {
    t.link.Some?
  }

  function TokenOf(t: Trip): Token
    requires HasToken(t)
  {
    t.link.value.token
  }

  /** No link has this token. */
  ghost predicate Unused(trips: Trips, token: Token) {
    forall k :: k in trips && HasToken(trips[k]) ==> TokenOf(trips[k]) != token
  }

  /** What both services keep: tokens are unique, and every trip's counter is the number of its approved rows. */
  ghost predicate Valid(trips: Trips) {
    TokensUnique(trips) && forall id :: id in trips ==> Inv(trips[id])
  }

  predicate MakesToken(r: Request) {
    r.LinkUpserting? || r.LinkRegenerating?
  }

  /** A generated token is one that no link has. */
  ghost predicate TokenFresh(trips: Trips, r: Request) {
    MakesToken(r) ==> Unused(trips, r.token)
  }

  lemma StepKeepsToken(t: Trip, r: Request)
    ensures HasToken(Step(t, r)) ==> (HasToken(t) && TokenOf(Step(t, r)) == TokenOf(t)) || (MakesToken(r) && TokenOf(Step(t, r)) == r.token)
  {
  }

  lemma PutKeepsUnique(trips: Trips, id: TripId, t: Trip)
    requires TokensUnique(trips)
    requires HasToken(t) ==> (id in trips && HasToken(trips[id]) && TokenOf(trips[id]) == TokenOf(t)) || Unused(trips, TokenOf(t))
    ensures TokensUnique(trips[id := t])
  {
    var after := trips[id := t];
    forall a, b | SameToken(after, a, b)
      ensures a == b
    {
      if a != id && b != id {
        assert SameToken(trips, a, b);
      } else if a != id && id in trips && HasToken(trips[id]) && TokenOf(trips[id]) == TokenOf(t) {
        assert SameToken(trips, a, id);
      } else if b != id && id in trips && HasToken(trips[id]) && TokenOf(trips[id]) == TokenOf(t) {
        assert SameToken(trips, b, id);
      }
    }
  }

  /** Every request, to either service and for any trip, keeps the store valid. */
  lemma ServeKeepsValid(trips: Trips, id: TripId, r: Request)
    requires Valid(trips) && TokenFresh(trips, r)
    ensures Valid(Serve(trips, id, r).1)
  {
    if id in trips {
      StepKeepsToken(trips[id], r);
      PutKeepsUnique(trips, id, Step(trips[id], r));
      StepKeepsInv(trips[id], r);
    }
  }

  lemma CreateKeepsValid(trips: Trips, id: TripId, creator: UserId, max: Option<int>, isPaid: bool, start: Option<int>, now: int)
    requires Valid(trips)
    ensures Valid(trips[id := Created(creator, max, isPaid, start, now)])
  {
    PutKeepsUnique(trips, id, Created(creator, max, isPaid, start, now));
    CreatedInv(creator, max, isPaid, start, now);
  }

  // ---- Runs of the store ---------------------------------------------------------------------------------

  datatype Genesis = Genesis(creator: UserId, max: Option<int>, isPaid: bool, start: Option<int>, now: int)

  function Born(g: Genesis): Trip {
    Created(g.creator, g.max, g.isPaid, g.start, g.now)
  }

  datatype Call =
    | Creating(id: TripId, genesis: Genesis)
    | Asking(id: TripId, request: Request)
    | JoiningBy(token: Token, userId: UserId, now: int)   // the trip is found by the token

  ghost predicate Admitted(trips: Trips, c: Call) {
    match c
    case Creating(id, g) => id !in trips && (g.max.Some? ==> g.max.value >= 2)
    case Asking(_, r) => TokenFresh(trips, r) && !r.LinkJoining?
    case JoiningBy(_, _, _) => true
  }

  ghost function Do(trips: Trips, c: Call): Trips {
    match c
    case Creating(id, g) => trips[id := Born(g)]
    case Asking(id, r) => Serve(trips, id, r).1
    case JoiningBy(token, userId, now) =>
      if id :| id in trips && HasToken(trips[id]) && TokenOf(trips[id]) == token
      then Serve(trips, id, LinkJoining(token, userId, now)).1 else trips
  }

  ghost predicate CanRun(cs: seq<Call>)
    decreases |cs|, 0
  {
    cs == [] || (CanRun(cs[..|cs| - 1]) && Admitted(StoreAfter(cs[..|cs| - 1]), cs[|cs| - 1]))
  }

  /** The trips after a run of calls to the two services, from an empty table. */
  ghost function StoreAfter(cs: seq<Call>): Trips
    requires CanRun(cs)
    decreases |cs|, 1
  {
    if cs == [] then map[] else Do(StoreAfter(cs[..|cs| - 1]), cs[|cs| - 1])
  }

  lemma {:induction false} StoreStaysValid(cs: seq<Call>)
    requires CanRun(cs)
    ensures Valid(StoreAfter(cs))
    decreases |cs|
  {
    if cs != [] {
      var trips := StoreAfter(cs[..|cs| - 1]);
      StoreStaysValid(cs[..|cs| - 1]);
      match cs[|cs| - 1]
      case Creating(id, g) => CreateKeepsValid(trips, id, g.creator, g.max, g.isPaid, g.start, g.now);
      case Asking(id, r) => ServeKeepsValid(trips, id, r);
      case JoiningBy(token, userId, now) =>
        if id :| id in trips && HasToken(trips[id]) && TokenOf(trips[id]) == token && StoreAfter(cs) == Serve(trips, id, LinkJoining(token, userId, now)).1 {
          ServeKeepsValid(trips, id, LinkJoining(token, userId, now));
        }
    }
  }

  /** What a call does to one trip: creates it, serves one request on it, or nothing. */
  lemma DoOne(trips: Trips, c: Call, id: TripId) returns (r: Option<Request>)
    requires Admitted(trips, c) && id in Do(trips, c)
    ensures id !in trips ==> c.Creating? && c.id == id && Do(trips, c)[id] == Born(c.genesis)
    ensures id in trips ==> Do(trips, c)[id] == if r.None? then trips[id] else Step(trips[id], r.value)
  {
    r := None;
    match c
    case Creating(_, _) =>
    case Asking(other, request) => r := if other == id then Some(request) else None;
    case JoiningBy(token, userId, now) =>
      if id in trips && Do(trips, c)[id] != trips[id] {
        r := Some(LinkJoining(token, userId, now));
      }
  }

  /**
   * Whatever is asked of either service for whichever trips, each trip is what a run of requests to it alone makes of
   * its creation: so all that holds for such runs holds for every trip of the store.
   */
  lemma {:induction false} EachTripLivesItsOwnRun(cs: seq<Call>, id: TripId) returns (g: Genesis, rs: seq<Request>)
    requires CanRun(cs) && id in StoreAfter(cs)
    ensures StoreAfter(cs)[id] == Run(Born(g), rs) && (g.max.Some? ==> g.max.value >= 2)
    decreases |cs|
  {
    var before, c := StoreAfter(cs[..|cs| - 1]), cs[|cs| - 1];
    var r := DoOne(before, c, id);
    if id !in before {
      g, rs := c.genesis, [];
    } else {
      g, rs := EachTripLivesItsOwnRun(cs[..|cs| - 1], id);
      if r.Some? {
        assert (rs + [r.value])[..|rs|] == rs;
        rs := rs + [r.value];
      }
    }
  }

  /** In every reachable store, every trip's counter is the number of its approved rows, its creator's among them. */
  lemma EveryCounterIsExact(cs: seq<Call>, id: TripId)
    requires CanRun(cs) && id in StoreAfter(cs)
    ensures var t := StoreAfter(cs)[id]; t.current == |ApprovedIn(t)| && t.creator in ApprovedIn(t) && t.current >= 1
  {
    var g, rs := EachTripLivesItsOwnRun(cs, id);
    CounterIsExact(g.creator, g.max, g.isPaid, g.start, g.now, rs);
    CreatedInv(g.creator, g.max, g.isPaid, g.start, g.now);
    RunKeepsInv(Born(g), rs);
  }

  /** The largest limit a trip of the store has had so far; 0 before it is created. */
  ghost function LargestLimit(cs: seq<Call>, id: TripId): int
    requires CanRun(cs)
    decreases |cs|
  {
    if cs == [] then 0
    else Max(LargestLimit(cs[..|cs| - 1], id), if id in StoreAfter(cs) then StoreAfter(cs)[id].max else 0)
  }

  /** And never more users are approved than the largest limit the trip has had. */
  lemma {:induction false} EveryTripWithinItsLimits(cs: seq<Call>, id: TripId)
    requires CanRun(cs) && id in StoreAfter(cs)
    ensures StoreAfter(cs)[id].current <= LargestLimit(cs, id)
    decreases |cs|
  {
    var before, c := StoreAfter(cs[..|cs| - 1]), cs[|cs| - 1];
    StoreStaysValid(cs[..|cs| - 1]);
    var r := DoOne(before, c, id);
    if id in before {
      EveryTripWithinItsLimits(cs[..|cs| - 1], id);
      if r.Some? {
        StepMovesOne(before[id], r.value);
      }
    }
  }
}
