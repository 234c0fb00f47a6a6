/**
 * One call of `flushStream` and one tick of the worker as whole runs of the step machine, and how many
 * ticks it takes to drain a backlog.
 */
module ChatDrain {
  import opened Common
  import opened Messages
  import opened ChatStream
  import opened ChatDelivery
  import opened ChatHistory
  import opened ChatEndToEnd
  import opened Reactions

  ghost predicate HasBacklog(log: RoomLog) {
    log.grouped && log.next < |log.entries|
  }

  /** What one undisturbed flush leaves of its room; `up` says whether the INSERT succeeds. */
  ghost function FlushOutcome(log: RoomLog, w: Worker, now: int, up: bool): RoomLog {
    if !log.grouped then log
    else
      var pending := Claimed(log.pending, StaleIds(log, now), w, now);
      if log.next >= |log.entries| then log.(pending := pending)
      else if !up then log.(pending := Assigned(pending, log.next, FetchEnd(log), w, now), next := FetchEnd(log))
      else FlushedLog(log, w, now)
  }

  ghost function AfterFlush(s: System, k: Room, w: Worker, now: int, up: bool): System {
    if !LogOf(s, k).grouped then s
    else System(s.rooms[k := FlushOutcome(LogOf(s, k), w, now, up)],
                if up && HasBacklog(LogOf(s, k)) then AfterInsert(s, k, LogOf(s, k).next, FetchEnd(LogOf(s, k))) else s.table)
  }

  /** The two ends of a flush that has read something. */
  lemma FlushEnds(s: System, k: Room, w: Worker, now: int)
    requires k in s.rooms && HasBacklog(s.rooms[k])
    ensures var log := s.rooms[k];
            var lo, hi := log.next, FetchEnd(log);
            && AfterFlush(s, k, w, now, true) == System(s.rooms[k := FlushedLog(log, w, now)], AfterInsert(s, k, lo, hi))
            && AfterFlush(s, k, w, now, false) ==
               System(s.rooms[k := log.(pending := Assigned(Claimed(log.pending, StaleIds(log, now), w, now), lo, hi, w, now), next := hi)],
                      s.table)
  {
  }

  /** The steps of the machine that this flush takes. */
  ghost function FlushTrace(log: RoomLog, k: Room, w: Worker, now: int, up: bool): seq<Event> {
    if !log.grouped then []
    else if !HasBacklog(log) then Recovery(k, w, now) + [Event(k, Fetch(w, now))]
    else if !up then Recovery(k, w, now) + [Event(k, Fetch(w, now)), Event(k, Abort(w))]
    else FlushEvents(k, w, now)
  }

  lemma EmptyFlushRuns(s: System, k: Room, w: Worker, now: int)
    requires Inv(s) && k in s.rooms && s.rooms[k].grouped && !HasBacklog(s.rooms[k]) && w !in s.rooms[k].flights
    ensures var es := Recovery(k, w, now) + [Event(k, Fetch(w, now))];
            CanRun(s, es) && Run(s, es) == AfterFlush(s, k, w, now, true) == AfterFlush(s, k, w, now, false)
  {
    var log := s.rooms[k];
    assert Partitioned(log);
    var done := FlushOutcome(log, w, now, true);
    UpdateThenRemove(log.flights, w, Recovered);
    assert LogStep(ClaimedLog(log, w, now), Fetch(w, now)) == done;
    assert [Event(k, Fetch(w, now))] + [] == [Event(k, Fetch(w, now))];
    var t := InRoom(s, k, done, s.table);
    StepThen(s, k, ClaimedLog(log, w, now), s.table, Fetch(w, now), done, [], t);
    RecoveryThen(s, k, w, now, [Event(k, Fetch(w, now))], t);
  }

  lemma FailedFlushRuns(s: System, k: Room, w: Worker, now: int)
    requires k in s.rooms && HasBacklog(s.rooms[k]) && w !in s.rooms[k].flights
    ensures var es := Recovery(k, w, now) + [Event(k, Fetch(w, now)), Event(k, Abort(w))];
            CanRun(s, es) && Run(s, es) == AfterFlush(s, k, w, now, false)
  {
    var log := s.rooms[k];
    var done := FlushOutcome(log, w, now, false);
    var t := InRoom(s, k, done, s.table);
    UpdateThenRemove(log.flights, w, Fetched(log.next, FetchEnd(log)));
    assert LogStep(FetchedLog(log, w, now), Abort(w)) == done;
    assert [Event(k, Fetch(w, now))] + ([Event(k, Abort(w))] + []) == [Event(k, Fetch(w, now)), Event(k, Abort(w))];
    FlushReads(log, w, now);
    StepThen(s, k, FetchedLog(log, w, now), s.table, Abort(w), done, [], t);
    StepThen(s, k, ClaimedLog(log, w, now), s.table, Fetch(w, now), FetchedLog(log, w, now), [Event(k, Abort(w))] + [], t);
    RecoveryThen(s, k, w, now, [Event(k, Fetch(w, now)), Event(k, Abort(w))], t);
  }

  lemma GoodFlushRuns(s: System, k: Room, w: Worker, now: int)
    requires Inv(s) && k in s.rooms && HasBacklog(s.rooms[k]) && w !in s.rooms[k].flights
    ensures CanRun(s, FlushEvents(k, w, now)) && Run(s, FlushEvents(k, w, now)) == AfterFlush(s, k, w, now, true)
  {
    FlushRuns(s, k, w, now);
    FlushEnds(s, k, w, now);
  }

  lemma TraceIsClean(log: RoomLog, k: Room, w: Worker, now: int)
    ensures Clean(FlushTrace(log, k, w, now, true))
  {
  }

  lemma FlushTraceRuns(s: System, k: Room, w: Worker, now: int, up: bool)
    requires Inv(s) && w !in LogOf(s, k).flights
    ensures var es := FlushTrace(LogOf(s, k), k, w, now, up);
            CanRun(s, es) && Run(s, es) == AfterFlush(s, k, w, now, up) && (up ==> Clean(es))
  {
    var log := LogOf(s, k);
    TraceIsClean(log, k, w, now);
    if log.grouped {
      if !HasBacklog(log) {
        EmptyFlushRuns(s, k, w, now);
      } else if up {
        GoodFlushRuns(s, k, w, now);
      } else {
        FailedFlushRuns(s, k, w, now);
      }
    }
  }

  /** The worker takes over exactly those of the 50 oldest pending entries that have been idle for more than 5 s. */
  ghost predicate TakesIdle(log: RoomLog, after: map<nat, Delivery>, w: Worker, now: int) {
    && after.Keys == log.pending.Keys
    && forall i :: i in log.pending ==>
         after[i] == if i < log.next && now - log.pending[i].at > 5000 && |PendingBefore(log.pending, 0, i)| < 50
                     then Delivery(w, now) else log.pending[i]
  }

  // ---- What a flush writes -------------------------------------------------------------------------------

  /** The rows that a flush adds record the next 50 entries of the stream, or as many as there are. */
  ghost predicate AddsOnlyBatch(before: seq<Row>, after: seq<Row>, log: RoomLog) {
    && before <= after
    && forall row :: row in after && row !in before ==> RecordsNext(row, log)
  }

  ghost predicate RecordsNext(row: Row, log: RoomLog) {
    exists i :: log.next <= i < log.next + 50 && i < |log.entries| && Records(row, log.entries[i])
  }

  /** Each of these entries then has a row. */
  ghost predicate StoresBatch(table: seq<Row>, log: RoomLog) {
    log.grouped ==> forall i :: log.next <= i < log.next + 50 && i < |log.entries| ==> Recorded(table, log.entries[i])
  }

  ghost predicate Recorded(table: seq<Row>, q: Queued) {
    exists row :: row in table && Records(row, q)
  }

  lemma FlushRecords(s: System, k: Room, w: Worker, now: int, up: bool)
    requires LogOf(s, k).next <= |LogOf(s, k).entries|
    ensures AddsOnlyBatch(s.table, AfterFlush(s, k, w, now, up).table, LogOf(s, k))
    ensures up && Inv(s) ==> StoresBatch(AfterFlush(s, k, w, now, up).table, LogOf(s, k))
  {
    var log, after := LogOf(s, k), AfterFlush(s, k, w, now, up).table;
    if up && HasBacklog(log) {
      InsertIgnoreKeeps(s.table, Rows(log.entries[log.next..FetchEnd(log)]));
      forall row | row in after && row !in s.table
        ensures RecordsNext(row, log)
      {
        var i := InsertAddsOnlyBatch(s, k, log.next, FetchEnd(log), row);
        assert Records(row, log.entries[i]);
      }
      if Inv(s) {
        InsertAddsBatch(s, k, log.next, FetchEnd(log));
        forall i | log.next <= i < log.next + 50 && i < |log.entries|
          ensures Recorded(after, log.entries[i])
        {
          assert Records(ToRow(log.entries[i]), log.entries[i]);
        }
      }
    }
  }

  // ---- One tick ------------------------------------------------------------------------------------------

  /** `drainAllStreams` over the active streams in some order; `up` says which INSERTs succeed. */
  ghost function AfterTick(s: System, keys: seq<Room>, w: Worker, now: int, up: Room -> bool): System
    decreases keys
  {
    if keys == [] then s
    else AfterTick(AfterFlush(s, keys[0], w, now, up(keys[0])), keys[1..], w, now, up)
  }

  ghost predicate WorkerIdle(s: System, w: Worker) {
    forall k :: k in s.rooms ==> w !in s.rooms[k].flights
  }

  lemma FlushKeepsInv(s: System, k: Room, w: Worker, now: int, up: bool)
    requires Inv(s) && WorkerIdle(s, w)
    ensures LogOf(s, k).next <= |LogOf(s, k).entries|
    ensures Inv(AfterFlush(s, k, w, now, up)) && WorkerIdle(AfterFlush(s, k, w, now, up), w)
  {
    assert k in s.rooms ==> Partitioned(s.rooms[k]);
    FlushTraceRuns(s, k, w, now, up);
    RunKeepsInv(s, FlushTrace(LogOf(s, k), k, w, now, up));
  }

  /** A tick is a run of the machine, and a clean one if every INSERT succeeds. */
  lemma {:induction false} TickIsRun(s: System, keys: seq<Room>, w: Worker, now: int, up: Room -> bool) returns (es: seq<Event>)
    requires Inv(s) && WorkerIdle(s, w)
    ensures CanRun(s, es) && Run(s, es) == AfterTick(s, keys, w, now, up)
    ensures Inv(AfterTick(s, keys, w, now, up)) && WorkerIdle(AfterTick(s, keys, w, now, up), w)
    ensures (forall k :: k in keys ==> up(k)) ==> Clean(es)
    decreases keys
  {
    if keys == [] {
      es := [];
    } else {
      var k := keys[0];
      var first := FlushTrace(LogOf(s, k), k, w, now, up(k));
      FlushTraceRuns(s, k, w, now, up(k));
      FlushKeepsInv(s, k, w, now, up(k));
      var rest := TickIsRun(AfterFlush(s, k, w, now, up(k)), keys[1..], w, now, up);
      RunConcat(s, first, rest);
      es := first + rest;
      assert forall j :: j in keys[1..] ==> j in keys;
      assert k in keys;
    }
  }

  /** A stream that is not in the list is left alone; the others move on by one batch, whatever fails elsewhere. */
  lemma {:induction false} TickAdvances(s: System, keys: seq<Room>, w: Worker, now: int, up: Room -> bool, k: Room)
    requires NoDuplicates(keys)
    ensures k !in keys ==> LogOf(AfterTick(s, keys, w, now, up), k) == LogOf(s, k)
    ensures k in keys ==> LogOf(AfterTick(s, keys, w, now, up), k) == FlushOutcome(LogOf(s, k), w, now, up(k))
    decreases keys
  {
    if keys != [] {
      var s' := AfterFlush(s, keys[0], w, now, up(keys[0]));
      assert keys == [keys[0]] + keys[1..];
      assert keys[0] !in keys[1..];
      TickAdvances(s', keys[1..], w, now, up, k);
    }
  }

  ghost function Backlog(log: RoomLog): int {
    |log.entries| - log.next
  }

  /** `n` ticks in a row, at times `now(0)`, `now(1)`, ..., with the table reachable throughout. */
  ghost function AfterTicks(s: System, keys: seq<Room>, w: Worker, now: nat -> int, n: nat): System {
    if n == 0 then s else AfterTick(AfterTicks(s, keys, w, now, n - 1), keys, w, now(n - 1), (k: Room) => true)
  }

  lemma {:induction false} TicksAreRun(s: System, keys: seq<Room>, w: Worker, now: nat -> int, n: nat) returns (es: seq<Event>)
    requires Inv(s) && WorkerIdle(s, w)
    ensures CanRun(s, es) && Run(s, es) == AfterTicks(s, keys, w, now, n) && Clean(es)
    ensures Inv(AfterTicks(s, keys, w, now, n)) && WorkerIdle(AfterTicks(s, keys, w, now, n), w)
  {
    if n == 0 {
      es := [];
    } else {
      var first := TicksAreRun(s, keys, w, now, n - 1);
      var last := TickIsRun(AfterTicks(s, keys, w, now, n - 1), keys, w, now(n - 1), (k: Room) => true);
      RunConcat(s, first, last);
      es := first + last;
    }
  }

  /** Each tick takes one batch off the backlog of every registered stream, until nothing is left. */
  lemma {:induction false} TicksShrinkBacklog(s: System, keys: seq<Room>, w: Worker, now: nat -> int, n: nat, k: Room)
    requires Inv(s) && NoDuplicates(keys) && k in keys && LogOf(s, k).grouped
    ensures var log := LogOf(AfterTicks(s, keys, w, now, n), k);
            && log.grouped && log.entries == LogOf(s, k).entries && log.flights == LogOf(s, k).flights
            && Backlog(log) == Max(0, Backlog(LogOf(s, k)) - 50 * n)
  {
    if n == 0 {
      assert Partitioned(LogOf(s, k));
    } else {
      TicksShrinkBacklog(s, keys, w, now, n - 1, k);
      TickAdvances(AfterTicks(s, keys, w, now, n - 1), keys, w, now(n - 1), (j: Room) => true, k);
    }
  }

  /**
   * So after any clean run that leaves no flush half done, enough ticks make everything that was broadcast in
   * a registered room readable, once and in order.
   */
  lemma TicksMakeReadable(es: seq<Event>, keys: seq<Room>, w: Worker, now: nat -> int, n: nat,
                          room: Room, reactions: seq<Reaction>, users: Users, limit: nat)
    requires CanRun(INITIAL, es) && Clean(es) && NoDuplicates(keys) && room in keys && limit >= 1
    requires WorkerIdle(Run(INITIAL, es), w)
    requires var log := LogOf(Run(INITIAL, es), room); log.grouped && log.flights == map[] && Backlog(log) <= 50 * n
    ensures ReadsExactly(AfterTicks(Run(INITIAL, es), keys, w, now, n).table, QueuedIn(es, room), room, reactions, users, limit)
  {
    var s := Run(INITIAL, es);
    InitialInv();
    RunKeepsInv(INITIAL, es);
    var ticks := TicksAreRun(s, keys, w, now, n);
    TicksShrinkBacklog(s, keys, w, now, n, room);
    RunConcat(INITIAL, es, ticks);
    StreamIsWhatWasQueued(INITIAL, es, room);
    StreamIsWhatWasQueued(s, ticks, room);
    NothingQueued(es, ticks, room);
    EverythingBroadcastIsRead(es + ticks, room, reactions, users, limit);
  }

  lemma {:induction false} QueuedInConcat(a: seq<Event>, b: seq<Event>, room: Room)
    ensures QueuedIn(a + b, room) == QueuedIn(a, room) + QueuedIn(b, room)
  {
    if a == [] {
      assert a + b == b;
    } else {
      assert (a + b)[1..] == a[1..] + b;
      QueuedInConcat(a[1..], b, room);
    }
  }

  lemma NothingQueued(es: seq<Event>, ticks: seq<Event>, room: Room)
    requires |QueuedIn(ticks, room)| == 0
    ensures QueuedIn(es + ticks, room) == QueuedIn(es, room)
  {
    QueuedInConcat(es, ticks, room);
  }
}
