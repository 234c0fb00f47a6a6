/** What the membership query behind a room-access check finds in the tables of trips and communities, and what changes it. */
module RoomMembers {
  import opened Messages
  import AccessCache
  import CommunityLedger
  import CommunityRules
  import CommunityStore
  import TripRules
  import TripSeats
  import TripStore

  /** Approved participants of trips and active members of communities. */
  function MembersOf(trips: TripStore.Trips, communities: CommunityStore.Communities): AccessCache.Memberships {
    (set id, u | id in trips && u in trips[id].participants && trips[id].participants[u].status.Approved? :: (u, Room(TripRoom, id)))
    + (set id, u | id in communities && u in communities[id].members && communities[id].members[u].isActive :: (u, Room(CommunityRoom, id)))
  }

  lemma IsMemberIff(trips: TripStore.Trips, communities: CommunityStore.Communities, u: UserId, room: Room)
    ensures (u, room) in MembersOf(trips, communities) <==>
            match room.kind
            case TripRoom => room.id in trips && TripRules.Has(trips[room.id], u, TripSeats.Approved)
            case CommunityRoom => room.id in communities && CommunityRules.ActiveRow(communities[room.id], u)
  {
    assert room == Room(room.kind, room.id);
  }

  /**
   * A request about a trip gives the trip's room to a user whom it lets in and takes it from one who leaves; it moves
   * nobody else in that room, and nobody in another.
   */
  lemma TripRequestMoves(trips: TripStore.Trips, communities: CommunityStore.Communities, id: TripStore.TripId, r: TripSeats.Request,
                         u: UserId, room: Room)
    requires TripStore.Valid(trips)
    ensures var before, after := MembersOf(trips, communities), MembersOf(TripStore.Serve(trips, id, r).1, communities);
            if id in trips && room == Room(TripRoom, id) then
              (u, room) in after <==>
                TripRules.LetsIn(trips[id], r, u) || ((u, room) in before && !(r.Leaving? && r.userId == u && u != trips[id].creator))
            else (u, room) in after <==> (u, room) in before
  {
    IsMemberIff(trips, communities, u, room);
    IsMemberIff(TripStore.Serve(trips, id, r).1, communities, u, room);
    if id in trips {
      var t := trips[id];
      TripRules.BecomesApprovedIff(t, r, u);
      TripRules.RowChangesIff(t, r, u);
      TripRules.BecomesLeftIff(t, r, u);
      TripRules.BecomesRequestedIff(t, r, u);
      TripRules.BecomesRejectedIff(t, r, u);
    }
  }

  /** Likewise for a request about a community. */
  lemma CommunityRequestMoves(trips: TripStore.Trips, communities: CommunityStore.Communities, id: CommunityStore.CommunityId,
                              s: CommunityLedger.Step, u: UserId, room: Room)
    ensures var before, after := MembersOf(trips, communities), MembersOf(trips, CommunityStore.Serve(communities, id, s).1);
            if id in communities && room == Room(CommunityRoom, id) then
              (u, room) in after <==>
                CommunityRules.ComesIn(communities[id], s, u) || ((u, room) in before && !CommunityRules.GoesOut(communities[id], s, u))
            else (u, room) in after <==> (u, room) in before
  {
    IsMemberIff(trips, communities, u, room);
    IsMemberIff(trips, CommunityStore.Serve(communities, id, s).1, u, room);
    if id in communities {
      CommunityRules.MembershipChangesIff(communities[id], s, u);
    }
  }
}
