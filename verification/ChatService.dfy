/**
 * The chat service and its flush worker in the form the program has: objects whose methods change Redis keys,
 * the table and their own fields. Each method is tied to a run of the step machine.
 */
module ChatService {
  import opened Common
  import opened Messages
  import opened ChatStream
  import opened ChatDelivery
  import opened ChatDrain
  import opened ChatEndToEnd
  import AccessCache
  import ChatHistory
  import opened Reactions

  datatype FlushError = NoGroup | InsertFailed

  datatype ReactionError = MessageNotFound

  class ChatService {
    var rooms: map<Room, RoomLog>    // the streams with their consumer groups, in Redis
    var table: seq<Row>              // chat_messages
    var reactions: seq<Reaction>     // message_reactions
    var users: Users
    const access: AccessCache.RoomAccess

    ghost function State(): System
      reads this
    {
      System(rooms, table)
    }

    constructor (users: Users, access: AccessCache.RoomAccess)
      ensures State() == INITIAL && reactions == [] && this.users == users && this.access == access
    {
      rooms, table, reactions, this.users, this.access := map[], [], [], users, access;
    }

    /** `id` and `now` stand for the generated uuid and the clock; `content` is sanitized already. */
    method QueueMessage(sender: Sender, room: Room, content: string, replyToId: Option<Id>, streamUp: bool, id: Id, now: int)
        returns (message: Formatted)
      requires FreshId(State(), id)
      modifies this`rooms
      ensures var reply := if replyToId.None? then None
                           else ResolveReply(LogOf(old(State()), room).entries, table, users, replyToId.value, streamUp);
              var q := Queued(id, room, sender.id, sender.name, sender.avatar, content, reply, now);
              && message == Broadcast(q)
              && Enabled(old(State()), Event(room, Enqueue(q)))
              && State() == Next(old(State()), Event(room, Enqueue(q)))
      ensures message.id == id && message.room == room && message.content == content && message.createdAt == now
      ensures message.sender == Some(Sender(sender.id, sender.name, sender.avatar))
      ensures message.kind == Text && message.reactions == map[] && !message.isDeleted
      ensures replyToId.None? ==> message.replyTo == None
      ensures room in rooms && rooms[room].entries ==
                old(LogOf(State(), room).entries) + [Queued(id, room, sender.id, sender.name, sender.avatar, content, message.replyTo, now)]
    {
      var log := if room in rooms then rooms[room] else EMPTY_LOG;
      var reply: Option<Reply> := None;
      if replyToId.Some? {
        reply := ResolveReply(log.entries, table, users, replyToId.value, streamUp);
      }
      var queued := Queued(id, room, sender.id, sender.name, sender.avatar, content, reply, now);
      rooms := rooms[room := log.(entries := log.entries + [queued])];
      message := Formatted(queued.id, queued.room, Some(sender), queued.content, Text, queued.replyTo, map[],
                           queued.createdAt, false);
    }

    /** XGROUP CREATE ... 0 MKSTREAM; the BUSYGROUP error of an existing group is swallowed. */
    method EnsureConsumerGroup(room: Room)
      modifies this`rooms
      ensures State() == Next(old(State()), Event(room, Register))
    {
      var log := if room in rooms then rooms[room] else EMPTY_LOG;
      if !log.grouped {
        rooms := rooms[room := log.(grouped := true)];
      } else {
        assert rooms[room := log.(grouped := true)] == rooms;
      }
    }

    /** XPENDING, then XCLAIM for the entries idle too long; without a group XPENDING fails and is ignored. */
    method RecoverPendingEntries(room: Room, w: Worker, now: int)
      modifies this`rooms
      ensures LogOf(old(State()), room).grouped ==>
                var log := LogOf(old(State()), room);
                rooms == old(rooms)[room := log.(pending := Claimed(log.pending, StaleIds(log, now), w, now))]
      ensures !LogOf(old(State()), room).grouped ==> rooms == old(rooms)
      ensures LogOf(old(State()), room).grouped ==>
                room in rooms && TakesIdle(LogOf(old(State()), room), rooms[room].pending, w, now)
    {
      if room !in rooms || !rooms[room].grouped {
        return;
      }
      var log := rooms[room];
      var stale := StaleIds(log, now);
      forall i | i in log.pending
        ensures i in stale <==> i < log.next && now - log.pending[i].at > 5000 && |PendingBefore(log.pending, 0, i)| < 50
      {
        StaleIdsExact(log, now, i);
      }
      if stale == [] {
        assert Claimed(log.pending, stale, w, now) == log.pending;
        assert old(rooms)[room := log] == rooms;
        return;
      }
      rooms := rooms[room := log.(pending := Claimed(log.pending, stale, w, now))];
    }

    /** XREADGROUP ... '>': the next batch goes onto the pending list of the reader. */
    method ReadGroup(room: Room, w: Worker, now: int) returns (lo: nat, hi: nat)
      requires room in rooms && rooms[room].next <= |rooms[room].entries|
      modifies this`rooms
      ensures lo == old(rooms[room].next) && hi == FetchEnd(old(rooms[room]))
      ensures rooms == old(rooms)[room := old(rooms[room]).(
                         pending := Assigned(old(rooms[room].pending), lo, hi, w, now), next := hi)]
    {
      var log := rooms[room];
      lo, hi := log.next, FetchEnd(log);
      rooms := rooms[room := log.(pending := Assigned(log.pending, lo, hi, w, now), next := hi)];
    }

    /** `insertSucceeds` is the fate of the bulk INSERT. */
    method FlushStream(room: Room, w: Worker, now: int, insertSucceeds: bool) returns (r: Result<nat, FlushError>)
      requires LogOf(State(), room).next <= |LogOf(State(), room).entries|
      modifies this`rooms, this`table
      ensures State() == AfterFlush(old(State()), room, w, now, insertSucceeds)
      ensures var log := LogOf(old(State()), room);
              r == if !log.grouped then Err(NoGroup)
                   else if !HasBacklog(log) then Ok(0)
                   else if !insertSucceeds then Err(InsertFailed)
                   else Ok(Min(50, |log.entries| - log.next))
      ensures AddsOnlyBatch(old(table), table, LogOf(old(State()), room))
      ensures r.Ok? && Inv(old(State())) ==> StoresBatch(table, LogOf(old(State()), room))
    {
      ghost var before := State();
      RecoverPendingEntries(room, w, now);
      if room !in rooms || !rooms[room].grouped {
        r := Err(NoGroup);
      } else if rooms[room].next == |rooms[room].entries| {
        r := Ok(0);
      } else {
        ghost var claimed := rooms[room];
        r := FlushNext(room, w, now, insertSucceeds);
        UpdateTwice(before.rooms, room, claimed, rooms[room]);
        FlushEnds(before, room, w, now);
      }
      assert State() == AfterFlush(before, room, w, now, insertSucceeds);
      FlushRecords(before, room, w, now, insertSucceeds);
    }

    /** The rest of a flush, once there is something to read: XREADGROUP, the bulk INSERT of the batch, and the XACK after it. */
    method FlushNext(room: Room, w: Worker, now: int, insertSucceeds: bool) returns (r: Result<nat, FlushError>)
      requires room in rooms && rooms[room].next < |rooms[room].entries|
      modifies this`rooms, this`table
      ensures var log, lo, hi := old(rooms[room]), old(rooms[room].next), FetchEnd(old(rooms[room]));
              && rooms == old(rooms)[room := if insertSucceeds
                                             then log.(pending := log.pending - Range(lo, hi), next := hi, acked := log.acked + Range(lo, hi))
                                             else log.(pending := Assigned(log.pending, lo, hi, w, now), next := hi)]
              && table == (if insertSucceeds then InsertIgnore(old(table), Rows(log.entries[lo..hi])) else old(table))
              && r == if insertSucceeds then Ok(hi - lo) else Err(InsertFailed)
    {
      ghost var start := rooms[room];
      var lo, hi := ReadGroup(room, w, now);
      if !insertSucceeds {
        return Err(InsertFailed);
      }
      var entries := rooms[room].entries[lo..hi];
      var messages := Rows(entries);
      table := InsertIgnore(table, messages);
      ghost var read := rooms[room];
      var log := rooms[room];
      rooms := rooms[room := log.(pending := log.pending - Range(lo, hi), acked := log.acked + Range(lo, hi))];
      UpdateTwice(old(rooms), room, read, rooms[room]);
      AssignedThenAcked(start.pending, lo, hi, w, now);
      return Ok(|entries|);
    }

    /** `members` is what the membership tables say at this moment. */
    method GetHistory(userId: UserId, roomType: AccessCache.RoomType, roomId: nat, before: Option<Id>, limit: nat, now: int,
                      members: AccessCache.Memberships) returns (r: Result<seq<Formatted>, HistoryError>)
      modifies access
      ensures roomType.Unknown? ==> r == Err(NotAMember) && access.cache == old(access.cache)
      ensures roomType.Known? ==> var room := Room(roomType.kind, roomId);
                var granted := AccessCache.CheckOnce(old(access.Entry(userId, room)), now, (userId, room) in members).0;
                && (r.Err? <==> !granted)
                && (granted ==> ShowsPage(r.value, ChatHistory.Page(table, room, before, limit)))
                && (granted <==> var key := (userId, room);
                      if key in old(access.cache) && now < old(access.cache)[key].expires then old(access.cache)[key].granted
                      else key in members)
                && (granted && UniqueIds(table) ==>
                      exists rows :: ShowsPage(r.value, rows) && ChatHistory.NewestEligible(rows, table, room, before, limit))
    {
      var hasAccess := access.CheckRoomAccess(userId, roomType, roomId, now, members);
      if roomType.Unknown? {
        return Err(NotAMember);
      }
      var room := Room(roomType.kind, roomId);
      r := ChatEndToEnd.GetHistory(table, reactions, users, hasAccess, room, before, limit);
      if hasAccess && UniqueIds(table) {
        ChatHistory.PageIsNewest(table, room, before, limit);
        assert ShowsPage(r.value, ChatHistory.Page(table, room, before, limit));
      }
    }

    /** Each message of the page carries its row, its sender and its own reactions. */
    ghost predicate ShowsPage(page: seq<Formatted>, rows: seq<Row>)
      reads this
    {
      && |page| == |rows|
      && (forall i :: 0 <= i < |rows| ==> ShowsRow(page[i], rows[i], reactions, users))
      && forall i :: 0 <= i < |rows| ==>
           page[i] == Format(rows[i], SenderOf(users, rows[i]), ReactionsForMessage(reactions, rows[i].id))
    }

    method ToggleReaction(userId: UserId, messageId: Id, emoji: string) returns (r: Result<(Room, ReactionsMap), ReactionError>)
      modifies this`reactions
      ensures r.Ok? <==> HasId(table, messageId)
      ensures r.Err? ==> reactions == old(reactions)
      ensures r.Ok? ==> && Find(table, messageId).Some?
                        && reactions == Toggle(old(reactions), Reaction(messageId, userId, emoji))
                        && r.value.0 == Find(table, messageId).value.room
                        && r.value.1 == ReactionsForMessage(reactions, messageId)
      ensures r.Ok? ==> && (exists row :: row in table && row.id == messageId && row.room == r.value.0)
                        && ListsExactly(r.value.1, reactions, messageId)
      ensures r.Ok? ==> forall x :: x in reactions <==>
                if x == Reaction(messageId, userId, emoji) then x !in old(reactions) else x in old(reactions)
      ensures NoDuplicates(old(reactions)) ==> NoDuplicates(reactions)
    {
      FindFinds(table, messageId);
      var message := Find(table, messageId);
      if message.None? {
        return Err(MessageNotFound);
      }
      var wanted := Reaction(messageId, userId, emoji);
      var inserted := wanted !in reactions;
      FilterMembers(reactions, NotEqual(wanted));
      if inserted {
        reactions := reactions + [wanted];
      } else {
        reactions := Filter(reactions, NotEqual(wanted));
      }
      if NoDuplicates(old(reactions)) {
        ToggleFlips(old(reactions), wanted, wanted);
      }
      ReactionsAreListed(reactions, messageId);
      return Ok((message.value.room, GroupReactions(Filter(reactions, OfMessage(messageId)))));
    }
  }

  class ChatFlushWorker {
    const service: ChatService
    const workerId: Worker
    var activeStreams: set<Room>   // the Redis set of streams to drain
    var running: bool
    var timerArmed: bool

    constructor (service: ChatService, workerId: Worker)
      ensures this.service == service && this.workerId == workerId
      ensures activeStreams == {} && !running && timerArmed
    {
      this.service, this.workerId := service, workerId;
      activeStreams, running, timerArmed := {}, false, true;
    }

    method RegisterStream(room: Room)
      modifies this`activeStreams, service`rooms
      ensures activeStreams == old(activeStreams) + {room}
      ensures service.State() == Next(old(service.State()), Event(room, Register))
    {
      activeStreams := activeStreams + {room};
      service.EnsureConsumerGroup(room);
    }

    /** SMEMBERS answers in any order; `order` is the one it chose. A failing stream does not stop the others. */
    method DrainAllStreams(now: int, up: Room -> bool) returns (ghost order: seq<Room>)
      requires Inv(service.State()) && WorkerIdle(service.State(), workerId)
      modifies service`rooms, service`table
      ensures NoDuplicates(order) && forall k :: k in order <==> k in activeStreams
      ensures service.State() == AfterTick(old(service.State()), order, workerId, now, up)
      ensures Inv(service.State()) && WorkerIdle(service.State(), workerId)
    {
      order := [];
      var todo := activeStreams;
      while todo != {}
        invariant todo <= activeStreams
        invariant NoDuplicates(order) && forall k :: k in order <==> k in activeStreams && k !in todo
        invariant service.State() == AfterTick(old(service.State()), order, workerId, now, up)
        invariant Inv(service.State()) && WorkerIdle(service.State(), workerId)
        decreases todo
      {
        var room :| room in todo;
        ghost var before := service.State();
        FlushKeepsInv(before, room, workerId, now, up(room));
        var flushed := service.FlushStream(room, workerId, now, up(room));
        AfterTickSnoc(old(service.State()), order, room, workerId, now, up);
        order := order + [room];
        todo := todo - {room};
      }
    }

    /** The timer fires: skip while a drain is running, otherwise drain; either way arm the timer again. */
    method Tick(now: int, up: Room -> bool) returns (ghost order: seq<Room>)
      requires Inv(service.State()) && WorkerIdle(service.State(), workerId)
      modifies this`running, this`timerArmed, service`rooms, service`table
      ensures timerArmed && running == old(running)
      ensures old(running) ==> order == [] && service.State() == old(service.State())
      ensures !old(running) ==> && NoDuplicates(order) && (forall k :: k in order <==> k in activeStreams)
                                && service.State() == AfterTick(old(service.State()), order, workerId, now, up)
      ensures Inv(service.State()) && WorkerIdle(service.State(), workerId)
    {
      timerArmed := false;
      if running {
        timerArmed := true;
        return [];
      }
      running := true;
      order := DrainAllStreams(now, up);
      running := false;
      timerArmed := true;
    }
  }

  lemma {:induction false} AfterTickSnoc(s: System, keys: seq<Room>, k: Room, w: Worker, now: int, up: Room -> bool)
    ensures AfterTick(s, keys + [k], w, now, up) == AfterFlush(AfterTick(s, keys, w, now, up), k, w, now, up(k))
    decreases keys
  {
    if keys == [] {
      assert ([] + [k])[1..] == [];
    } else {
      assert (keys + [k])[1..] == keys[1..] + [k];
      AfterTickSnoc(AfterFlush(s, keys[0], w, now, up(keys[0])), keys[1..], k, w, now, up);
    }
  }
}
